/**
 The table that ages second contacts from the first frame they compete with a reported touch.
 A competitor is held back until its entry is old enough. Looking for room for a new entry may
 take over an old one that was not seen yet in this frame, whose owner then starts over.
 */
module Competition {
  import opened Machine

  const TABLE := 20
  const MAX_AGE := 255

  datatype Entry = Entry(peakId: u8, age: u8, seen: bool, residual: bool)

  const NONE := Entry(0, 0, false, false)

  type Table = seq<Entry>

  /** One look at a competitor: the peak it comes from, and whether a handoff left it behind. */
  datatype Touch = Touch(id: u8, residual: bool)

  /** First entry of this peak at or behind k; no peak is called 0. */
  function Find(table: Table, id: u8, k: nat): (r: nat)
    requires k <= |table|
    ensures k <= r <= |table| && (r < |table| ==> id != 0 && table[r].peakId == id)
    ensures id != 0 ==> forall i | k <= i < r :: table[i].peakId != id
    decreases |table| - k
  {
    if k == |table| || (id != 0 && table[k].peakId == id) then k else Find(table, id, k + 1)
  }

  predicate Free(e: Entry) { e.peakId == 0 || !e.seen }

  /** First entry at or behind k that may be taken. */
  function FirstFree(table: Table, k: nat): (r: nat)
    requires k <= |table|
    ensures k <= r <= |table| && (r < |table| ==> Free(table[r])) && forall i | k <= i < r :: !Free(table[i])
    decreases |table| - k
  {
    if k == |table| || Free(table[k]) then k else FirstFree(table, k + 1)
  }

  function Aged(e: Entry, residual: bool): Entry {
    Entry(e.peakId, if !e.seen && e.age < MAX_AGE then e.age + 1 else e.age, true, e.residual || residual)
  }

  /** The table after one look at a competitor. */
  function Touched(table: Table, t: Touch): (r: Table)
    ensures |r| == |table|
  {
    var k := Find(table, t.id, 0);
    if k < |table| then table[k := Aged(table[k], t.residual)]
    else
      var free := FirstFree(table, 0);
      if t.id != 0 && free < |table| then table[free := Entry(t.id, 1, true, t.residual)] else table
  }

  /** The age that look reports. */
  function AgeSeen(table: Table, id: u8): nat {
    var k := Find(table, id, 0);
    if k < |table| then Aged(table[k], false).age else 1
  }

  function Unseen(table: Table): (r: Table)
    ensures |r| == |table| && forall k | 0 <= k < |r| :: r[k] == table[k].(seen := false)
  {
    seq(|table|, k requires 0 <= k < |table| => table[k].(seen := false))
  }

  function Swept(table: Table): (r: Table)
    ensures |r| == |table| && forall k | 0 <= k < |r| :: r[k] == if table[k].seen then table[k] else NONE
  {
    seq(|table|, k requires 0 <= k < |table| => if table[k].seen then table[k] else NONE)
  }

  function Played(table: Table, touches: seq<Touch>): (r: Table)
    ensures |r| == |table|
  {
    if touches == [] then table
    else Touched(Played(table, touches[..|touches| - 1]), touches[|touches| - 1])
  }

  /** The table over one frame. */
  function AfterFrame(table: Table, touches: seq<Touch>): Table {
    Swept(Played(Unseen(table), touches))
  }

  lemma FindIs(table: Table, id: u8, k: nat)
    requires id != 0 && k < |table| && table[k].peakId == id && forall i | 0 <= i < k :: table[i].peakId != id
    ensures Find(table, id, 0) == k
  {
    var f := Find(table, id, 0);
    assert f < |table| ==> table[f].peakId == id;
  }

  // ----- one candidate may be looked at against several tracks; that counts once

  lemma TouchedTwice(table: Table, id: u8, a: bool, b: bool)
    ensures Touched(Touched(table, Touch(id, a)), Touch(id, b)) == Touched(table, Touch(id, a || b))
    ensures AgeSeen(Touched(table, Touch(id, a)), id) == AgeSeen(table, id)
  {
    var k, free := Find(table, id, 0), FirstFree(table, 0);
    var once := Touched(table, Touch(id, a));
    if k < |table| {
      FindIs(once, id, k);
    } else if id != 0 && free < |table| {
      FindIs(once, id, free);
    }
  }

  // ----- what a frame keeps

  ghost predicate IdsDistinct(table: Table) {
    forall a, b | 0 <= a < b < |table| && table[a].peakId != 0 :: table[a].peakId != table[b].peakId
  }

  ghost function SeenCount(table: Table): nat {
    if table == [] then 0 else SeenCount(table[1..]) + if table[0].seen then 1 else 0
  }

  lemma {:induction false} SeenCountUpdate(table: Table, k: nat, e: Entry)
    requires k < |table|
    ensures SeenCount(table[k := e]) <= SeenCount(table) + 1
    ensures e.seen == table[k].seen ==> SeenCount(table[k := e]) == SeenCount(table)
  {
    if k == 0 {
      assert table[k := e][1..] == table[1..];
    } else {
      SeenCountUpdate(table[1..], k - 1, e);
      assert table[k := e][1..] == table[1..][k - 1 := e];
    }
  }

  lemma {:induction false} SeenPrefix(table: Table, f: nat)
    requires f <= |table| && forall i | 0 <= i < f :: table[i].seen
    ensures f <= SeenCount(table)
  {
    if f > 0 {
      SeenPrefix(table[1..], f - 1);
    }
  }

  lemma {:induction false} NoneSeen(table: Table)
    requires forall i | 0 <= i < |table| :: !table[i].seen
    ensures SeenCount(table) == 0
  {
    if table != [] {
      NoneSeen(table[1..]);
    }
  }

  lemma TouchCounts(table: Table, t: Touch)
    ensures SeenCount(Touched(table, t)) <= SeenCount(table) + 1
    ensures Find(table, t.id, 0) == |table| ==> FirstFree(table, 0) <= SeenCount(table)
  {
    var k, free := Find(table, t.id, 0), FirstFree(table, 0);
    SeenPrefix(table, free);
    if k < |table| {
      SeenCountUpdate(table, k, Aged(table[k], t.residual));
    } else if t.id != 0 && free < |table| {
      SeenCountUpdate(table, free, Entry(t.id, 1, true, t.residual));
    }
  }

  /** Everything a number of looks keeps. */
  ghost predicate Tidy(table: Table, looks: nat) {
    IdsDistinct(table) && SeenCount(table) <= looks
  }

  lemma TouchTidy(table: Table, t: Touch, looks: nat)
    requires Tidy(table, looks)
    ensures Tidy(Touched(table, t), looks + 1)
  {
    TouchCounts(table, t);
  }

  // ----- how long one competitor can be held back

  /** Peak q has an entry at index k of age a. */
  ghost predicate At(table: Table, q: u8, k: nat, a: nat) {
    k < |table| && table[k].peakId == q && table[k].age == a
  }

  /** Before q's own turn: its entry still waits at k, or all entries up to k went to others and q
      has none left. */
  ghost predicate Waiting(table: Table, q: u8, k: nat, a: nat) {
    || (At(table, q, k, a) && !table[k].seen)
    || (k < |table| && (forall i | 0 <= i <= k :: !Free(table[i]))
        && (forall i | 0 <= i < |table| :: table[i].peakId != q))
  }

  lemma OtherKeepsWaiting(table: Table, t: Touch, q: u8, k: nat, a: nat)
    requires IdsDistinct(table) && Waiting(table, q, k, a) && q != 0 && t.id != q
    ensures Waiting(Touched(table, t), q, k, a)
  {
    if At(table, q, k, a) && !table[k].seen {
      var f, free := Find(table, t.id, 0), FirstFree(table, 0);
      if f == |table| && t.id != 0 && free == k {
        assert forall i | 0 <= i < free :: !Free(table[i]);
        assert forall i | 0 <= i < k :: table[i].peakId != q;
      }
    }
  }

  /** On its own turn q is found where it waited and ages, or starts over further up, among the
      first m entries. An entry behind those is never taken over. */
  lemma OwnTouch(table: Table, t: Touch, q: u8, k: nat, a: nat, looks: nat, m: nat) returns (k': nat)
    requires Tidy(table, looks) && looks < m <= |table| && Waiting(table, q, k, a) && q != 0 && t.id == q
    requires 1 <= a < MAX_AGE
    ensures At(Touched(table, t), q, k', AgeSeen(table, q)) && Touched(table, t)[k'].seen
    ensures (k' == k && AgeSeen(table, q) == a + 1) || (k < k' < m && AgeSeen(table, q) == 1)
  {
    var f, free := Find(table, q, 0), FirstFree(table, 0);
    TouchCounts(table, t);
    k' := if f < |table| then f else free;
    if At(table, q, k, a) && !table[k].seen {
      assert f <= k;
      assert f == k;
    } else {
      assert free > k;
    }
  }

  /** A competitor's first look. */
  lemma FirstTouch(table: Table, t: Touch, q: u8, looks: nat) returns (k': nat)
    requires Tidy(table, looks) && looks < |table| && q != 0 && t.id == q
    requires forall k | 0 <= k < |table| && table[k].peakId == q :: !table[k].seen
    ensures At(Touched(table, t), q, k', AgeSeen(table, q)) && Touched(table, t)[k'].seen && AgeSeen(table, q) >= 1
  {
    var f := Find(table, q, 0);
    TouchCounts(table, t);
    k' := if f < |table| then f else FirstFree(table, 0);
  }

  /** Once seen, an entry stays to the end of the frame. */
  lemma {:induction false} SeenStays(table: Table, touches: seq<Touch>, q: u8, k: nat, a: nat)
    requires q != 0 && At(table, q, k, a) && table[k].seen && IdsDistinct(table)
    ensures At(Played(table, touches), q, k, a) && Played(table, touches)[k].seen && IdsDistinct(Played(table, touches))
  {
    if touches != [] {
      var t := touches[|touches| - 1];
      var before := Played(table, touches[..|touches| - 1]);
      SeenStays(table, touches[..|touches| - 1], q, k, a);
      var f := Find(before, t.id, 0);
      assert t.id == q ==> f == k;
    }
  }

  lemma {:induction false} PlayedTidy(table: Table, touches: seq<Touch>)
    requires Tidy(table, 0)
    ensures Tidy(Played(table, touches), |touches|)
  {
    if touches != [] {
      PlayedTidy(table, touches[..|touches| - 1]);
      TouchTidy(Played(table, touches[..|touches| - 1]), touches[|touches| - 1], |touches| - 1);
    }
  }

  lemma {:induction false} PlayedWaiting(table: Table, touches: seq<Touch>, q: u8, k: nat, a: nat)
    requires Tidy(table, 0) && Waiting(table, q, k, a) && q != 0
    requires forall i | 0 <= i < |touches| :: touches[i].id != q
    ensures Waiting(Played(table, touches), q, k, a)
  {
    if touches != [] {
      var head := touches[..|touches| - 1];
      PlayedTidy(table, head);
      PlayedWaiting(table, head, q, k, a);
      OtherKeepsWaiting(Played(table, head), touches[|touches| - 1], q, k, a);
    }
  }

  lemma {:induction false} PlayedSplit(table: Table, first: seq<Touch>, rest: seq<Touch>)
    ensures Played(table, first + rest) == Played(Played(table, first), rest)
    decreases |rest|
  {
    if rest == [] {
      assert first + rest == first;
    } else {
      var init, last := rest[..|rest| - 1], rest[|rest| - 1];
      PlayedSplit(table, first, init);
      assert (first + rest)[..|first + rest| - 1] == first + init;
    }
  }

  /** The frame starts unseen and ends swept; tidiness survives both. */
  lemma FrameTidy(table: Table, touches: seq<Touch>)
    requires IdsDistinct(table)
    ensures IdsDistinct(AfterFrame(table, touches)) && Tidy(Unseen(table), 0)
  {
    NoneSeen(Unseen(table));
    PlayedTidy(Unseen(table), touches);
  }

  /** Peak q is looked at in this frame, first at position p, and found younger than c. */
  ghost predicate HeldBack(table: Table, touches: seq<Touch>, p: nat, q: u8, c: nat) {
    && p < |touches| && touches[p].id == q && (forall i | 0 <= i < p :: touches[i].id != q)
    && AgeSeen(Played(Unseen(table), touches[..p]), q) < c
  }

  /** A frame of holding back: q's entry stays and ages by one, or moves up among the first m. */
  lemma FrameAges(table: Table, touches: seq<Touch>, p: nat, q: u8, c: nat, m: nat, k: nat, a: nat)
    returns (k': nat, a': nat)
    requires IdsDistinct(table) && |touches| <= m <= |table| && q != 0 && c <= 16
    requires HeldBack(table, touches, p, q, c) && At(table, q, k, a) && 1 <= a < c
    ensures At(AfterFrame(table, touches), q, k', a') && 1 <= a' < c
    ensures (k' == k && a' == a + 1) || k < k' < m
  {
    var start, head := Unseen(table), touches[..p];
    FrameTidy(table, touches);
    assert At(start, q, k, a) && !start[k].seen;
    PlayedTidy(start, head);
    PlayedWaiting(start, head, q, k, a);
    var before := Played(start, head);
    k' := OwnTouch(before, touches[p], q, k, a, p, m);
    a' := AgeSeen(before, q);
    FrameFinishes(start, touches, p, q, k', a');
  }

  lemma FrameFinishes(start: Table, touches: seq<Touch>, p: nat, q: u8, k: nat, a: nat)
    requires Tidy(start, 0) && p < |touches| && q != 0
    requires var now := Touched(Played(start, touches[..p]), touches[p]); At(now, q, k, a) && now[k].seen
    ensures At(Swept(Played(start, touches)), q, k, a)
  {
    var head, rest := touches[..p], touches[p + 1..];
    PlayedTidy(start, head);
    var now := Touched(Played(start, head), touches[p]);
    TouchTidy(Played(start, head), touches[p], p);
    SeenStays(now, rest, q, k, a);
    assert touches == touches[..p + 1] + rest && touches[..p + 1][..p] == head;
    PlayedSplit(start, touches[..p + 1], rest);
  }

  /** The first frame of holding back. */
  lemma FirstFrame(table: Table, touches: seq<Touch>, p: nat, q: u8, c: nat) returns (k': nat, a': nat)
    requires IdsDistinct(table) && |touches| <= |table| && q != 0 && c <= 16
    requires HeldBack(table, touches, p, q, c)
    ensures At(AfterFrame(table, touches), q, k', a') && 1 <= a' < c
  {
    var start, head := Unseen(table), touches[..p];
    FrameTidy(table, touches);
    PlayedTidy(start, head);
    NothingSeenOfQ(start, head, q);
    var before := Played(start, head);
    k' := FirstTouch(before, touches[p], q, p);
    a' := AgeSeen(before, q);
    FrameFinishes(start, touches, p, q, k', a');
  }

  /** Looks at others never mark an entry of q as seen. */
  lemma {:induction false} NothingSeenOfQ(start: Table, touches: seq<Touch>, q: u8)
    requires q != 0 && (forall k | 0 <= k < |start| && start[k].peakId == q :: !start[k].seen)
    requires forall i | 0 <= i < |touches| :: touches[i].id != q
    ensures forall k | 0 <= k < |start| && Played(start, touches)[k].peakId == q :: !Played(start, touches)[k].seen
  {
    if touches != [] {
      NothingSeenOfQ(start, touches[..|touches| - 1], q);
    }
  }

  /** A run of frames, each starting from the table the one before left. */
  ghost predicate IsRun(tables: seq<Table>, frames: seq<seq<Touch>>, m: nat) {
    && |tables| == |frames| + 1 && |tables[0]| == TABLE && IdsDistinct(tables[0])
    && forall i | 0 <= i < |frames| :: |frames[i]| <= m && tables[i + 1] == AfterFrame(tables[i], frames[i])
  }

  lemma {:induction false} RunDistinct(tables: seq<Table>, frames: seq<seq<Touch>>, m: nat, i: nat)
    requires IsRun(tables, frames, m) && i < |tables|
    ensures |tables[i]| == TABLE && IdsDistinct(tables[i])
  {
    if i > 0 {
      RunDistinct(tables, frames, m, i - 1);
      assert tables[i - 1 + 1] == AfterFrame(tables[i - 1], frames[i - 1]);
      FrameTidy(tables[i - 1], frames[i - 1]);
    }
  }

  lemma LevelBounds(k: nat, m: nat, d: nat)
    requires k < m
    ensures 0 <= k * d && k * d + d <= m * d
  {
    assert (m - k - 1) * d >= 0;
    assert m * d == (m - k - 1) * d + k * d + d;
  }

  /** Index before age: what every frame of holding back pushes up. An entry that nobody can take
      over counts like one at the front. */
  ghost function Rank(k: nat, a: nat, c: nat, m: nat): int
    requires c >= 1
  {
    (if k < m then k else 0) * (c - 1) + a
  }

  lemma RankClimbs(k: nat, a: nat, k': nat, a': nat, c: nat, m: nat)
    requires 1 <= a < c && 1 <= a' < c && ((k' == k && a' == a + 1) || k < k' < m)
    ensures Rank(k', a', c, m) >= Rank(k, a, c, m) + 1
  {
    if k < k' < m {
      LevelBounds(k, k', c - 1);
    }
  }

  lemma RankBounds(k: nat, a: nat, c: nat, m: nat)
    requires 1 <= m && 1 <= a < c
    ensures 1 <= Rank(k, a, c, m) <= m * (c - 1)
  {
    LevelBounds(if k < m then k else 0, m, c - 1);
  }

  /** One step of a run. */
  lemma RunStep(tables: seq<Table>, frames: seq<seq<Touch>>, m: nat, i: nat)
    requires IsRun(tables, frames, m) && i < |frames|
    ensures |tables[i]| == TABLE && IdsDistinct(tables[i]) && |frames[i]| <= m
    ensures tables[i + 1] == AfterFrame(tables[i], frames[i])
  {
    RunDistinct(tables, frames, m, i);
  }

  /** In every frame of the run peak q is looked at, in the i-th at position at[i], and held back. */
  ghost predicate HeldBackRun(tables: seq<Table>, frames: seq<seq<Touch>>, at: seq<nat>, q: u8, c: nat, m: nat) {
    && IsRun(tables, frames, m) && |at| == |frames|
    && forall i | 0 <= i < |frames| :: HeldBack(tables[i], frames[i], at[i], q, c)
  }

  lemma {:induction false} HoldingClimbs(tables: seq<Table>, frames: seq<seq<Touch>>, at: seq<nat>, q: u8, c: nat,
                                         m: nat, n: nat)
    returns (k: nat, a: nat)
    requires HeldBackRun(tables, frames, at, q, c, m) && 1 <= m <= TABLE && q != 0 && 1 <= c <= 16 && 1 <= n <= |frames|
    ensures 1 <= a < c && At(tables[n], q, k, a) && n <= Rank(k, a, c, m)
  {
    var i := n - 1;
    RunStep(tables, frames, m, i);
    var table, frame, p := tables[i], frames[i], at[i];
    assert HeldBack(table, frame, p, q, c);
    if n == 1 {
      k, a := FirstFrame(table, frame, p, q, c);
      RankBounds(k, a, c, m);
    } else {
      var k0, a0 := HoldingClimbs(tables, frames, at, q, c, m, i);
      k, a := FrameAges(table, frame, p, q, c, m, k0, a0);
      RankClimbs(k0, a0, k, a, c, m);
    }
  }

  /** A competitor that keeps its peak id is held back for at most m * (c - 1) frames in a row when
      at most m contacts compete in each of them, whatever the table held before: c - 1 frames when
      it is the only one. */
  lemma HoldingIsBounded(tables: seq<Table>, frames: seq<seq<Touch>>, at: seq<nat>, q: u8, c: nat, m: nat)
    requires HeldBackRun(tables, frames, at, q, c, m) && 1 <= m <= TABLE && q != 0 && 1 <= c <= 16
    ensures |frames| <= m * (c - 1)
  {
    if |frames| > 0 {
      var k, a := HoldingClimbs(tables, frames, at, q, c, m, |frames|);
      RankBounds(k, a, c, m);
    } else {
      assert m * (c - 1) >= 0;
    }
  }
}
