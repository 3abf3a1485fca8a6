/** The bound on holding back a competitor is the best possible: a run in which newcomers keep taking
    over its entry reaches it. */
module HoldingLimit {
  import opened Machine
  import opened Competition

  /** The contact that is followed. */
  const HELD: u8 := 7

  // Two generations of newcomers, seen in turn.
  const ODD: u8 := 8
  const EVEN: u8 := 28

  function Other(base: u8): u8 { if base == ODD then EVEN else ODD }

  /** k newcomers of this generation are looked at, then the contact that is followed. */
  function Looks(base: u8, k: nat): seq<Touch>
    requires base in {ODD, EVEN} && k <= TABLE
  {
    Newcomers(base, k) + [Touch(HELD, false)]
  }

  function Newcomers(base: u8, k: nat): (r: seq<Touch>)
    requires base in {ODD, EVEN} && k <= TABLE
    ensures |r| == k
  {
    seq(k, i requires 0 <= i < k => Touch(base + i, false))
  }

  /** The first k entries taken over by newcomers. */
  function Taken(table: Table, base: u8, k: nat): (r: Table)
    requires base in {ODD, EVEN} && k <= |table| <= TABLE
    ensures |r| == |table|
  {
    seq(|table|, i requires 0 <= i < |table| => if i < k then Entry(base + i, 1, true, false) else table[i])
  }

  /** k newcomers, then the followed contact at age a. */
  function Staircase(base: u8, k: nat, a: u8): (r: Table)
    requires base in {ODD, EVEN} && k < TABLE
    ensures |r| == TABLE
  {
    seq(TABLE, i requires 0 <= i < TABLE =>
      if i < k then Entry(base + i, 1, true, false) else if i == k then Entry(HELD, a, true, false) else NONE)
  }

  /** No entry is called by this generation's names. */
  ghost predicate Unnamed(table: Table, base: u8) {
    forall i | 0 <= i < |table| :: !(base <= table[i].peakId < base + TABLE)
  }

  /** The followed contact has age a - 1 at index k, or for a = 1 no entry from k on. */
  ghost predicate Before(table: Table, k: nat, a: nat) {
    && |table| == TABLE && k < TABLE
    && (if a > 1 then
          && table[k].peakId == HELD && table[k].age == a - 1 && !table[k].residual
          && (forall i | 0 <= i < TABLE && i != k :: table[i].peakId != HELD)
        else forall i | k <= i < TABLE :: table[i].peakId != HELD)
  }

  lemma {:induction false} NewcomersTakeOver(start: Table, base: u8, k: nat)
    requires base in {ODD, EVEN} && k <= |start| == TABLE && Unnamed(start, base)
    requires forall i | 0 <= i < TABLE :: !start[i].seen
    ensures Played(start, Newcomers(base, k)) == Taken(start, base, k)
  {
    if k > 0 {
      NewcomersTakeOver(start, base, k - 1);
      assert Newcomers(base, k)[..k - 1] == Newcomers(base, k - 1);
      NewcomerTakes(start, base, k - 1);
    }
  }

  /** A newcomer has no entry yet, counts as one frame old, and takes the first unseen one. */
  lemma NewcomerTakes(start: Table, base: u8, k: nat)
    requires base in {ODD, EVEN} && k < |start| == TABLE && Unnamed(start, base)
    requires forall i | 0 <= i < TABLE :: !start[i].seen
    ensures Touched(Taken(start, base, k), Touch(base + k, false)) == Taken(start, base, k + 1)
    ensures AgeSeen(Taken(start, base, k), base + k) == 1
  {
    var table := Taken(start, base, k);
    assert Find(table, base + k, 0) == TABLE;
    assert Free(table[k]);
    assert FirstFree(table, 0) == k;
  }

  /** After its newcomers, the followed contact is found at k, or starts over there. */
  lemma HeldIsLookedAt(table: Table, base: u8, k: nat, a: nat)
    requires base in {ODD, EVEN} && Before(table, k, a) && 1 <= a < MAX_AGE
    ensures var taken := Taken(Unseen(table), base, k);
      && AgeSeen(taken, HELD) == a
      && Touched(taken, Touch(HELD, false)) == taken[k := Entry(HELD, a, true, false)]
  {
    var taken := Taken(Unseen(table), base, k);
    if a > 1 {
      FindIs(taken, HELD, k);
    } else {
      assert Find(taken, HELD, 0) == TABLE && Free(taken[k]);
      assert FirstFree(taken, 0) == k;
    }
  }

  /** One frame of the run: the followed contact is looked at last, found younger than c, and kept. */
  lemma FrameBuilds(table: Table, base: u8, k: nat, a: nat, c: nat)
    requires base in {ODD, EVEN} && Before(table, k, a) && Unnamed(table, base) && 1 <= a < c <= 16
    ensures HeldBack(table, Looks(base, k), k, HELD, c)
    ensures AfterFrame(table, Looks(base, k)) == Staircase(base, k, a)
  {
    var start, looks := Unseen(table), Looks(base, k);
    assert looks[..k] == Newcomers(base, k) && looks[..|looks| - 1] == looks[..k];
    NewcomersTakeOver(start, base, k);
    HeldIsLookedAt(table, base, k, a);
  }

  /** The next frame of the other generation, on the same step or the next one. */
  lemma StaircaseGoesOn(base: u8, k: nat, a: nat, k': nat, a': nat)
    requires base in {ODD, EVEN} && k < TABLE && k' < TABLE && 1 <= a < 16
    requires (k' == k && a' == a + 1) || (k' == k + 1 && a' == 1)
    ensures Before(Staircase(base, k, a), k', a') && Unnamed(Staircase(base, k, a), Other(base))
  {
  }

  /** Frames it takes to age a on step k. */
  ghost function Frames(k: nat, a: nat, c: nat): nat
    requires c >= 1
  {
    k * (c - 1) + a
  }

  lemma FramesGrow(k: nat, a: nat, c: nat)
    requires 2 <= c && 1 <= a < c
    ensures a > 1 ==> Frames(k, a - 1, c) + 1 == Frames(k, a, c)
    ensures a == 1 && k > 0 ==> Frames(k - 1, c - 1, c) + 1 == Frames(k, a, c)
    ensures Frames(0, 1, c) == 1 && (k > 0 ==> Frames(k - 1, c - 1, c) == k * (c - 1))
  {
  }

  /** The whole run up to age a on step k. */
  lemma {:induction false} Climb(c: nat, m: nat, k: nat, a: nat)
    returns (tables: seq<Table>, frames: seq<seq<Touch>>, at: seq<nat>, base: u8)
    requires 2 <= c <= 16 && k < m <= TABLE && 1 <= a < c
    ensures base in {ODD, EVEN} && HeldBackRun(tables, frames, at, HELD, c, m) && |frames| == Frames(k, a, c)
    ensures tables[0] == seq(TABLE, _ => NONE) && tables[|frames|] == Staircase(base, k, a)
    ensures forall i | 0 <= i < |frames| :: IsStep(tables[i], frames[i], at[i], tables[i + 1], c, m)
    decreases k, a
  {
    FramesGrow(k, a, c);
    if k == 0 && a == 1 {
      tables, frames, at, base := [seq(TABLE, _ => NONE)], [], [], EVEN;
    } else {
      var k0, a0 := if a > 1 then k else k - 1, if a > 1 then a - 1 else c - 1;
      tables, frames, at, base := Climb(c, m, k0, a0);
      StaircaseGoesOn(base, k0, a0, k, a);
    }
    tables, frames, at := Extend(tables, frames, at, Other(base), c, m, k, a);
    base := Other(base);
  }

  /** One frame in which newcomers are looked at before the followed contact. */
  ghost predicate IsStep(table: Table, frame: seq<Touch>, p: nat, table': Table, c: nat, m: nat) {
    exists base: u8, k: nat, a: nat :: StepsWith(table, frame, p, table', c, m, base, k, a)
  }

  ghost predicate StepsWith(table: Table, frame: seq<Touch>, p: nat, table': Table, c: nat, m: nat, base: u8, k: nat,
                            a: nat) {
    && base in {ODD, EVEN} && k < m <= TABLE && 1 <= a < c <= 16 && Before(table, k, a) && Unnamed(table, base)
    && frame == Looks(base, k) && p == k && table' == Staircase(base, k, a)
    && forall i | 0 <= i < TABLE :: !table[i].residual
  }

  lemma Extend(tables: seq<Table>, frames: seq<seq<Touch>>, at: seq<nat>, base: u8, c: nat, m: nat, k: nat, a: nat)
    returns (tables': seq<Table>, frames': seq<seq<Touch>>, at': seq<nat>)
    requires HeldBackRun(tables, frames, at, HELD, c, m) && base in {ODD, EVEN} && k < m <= TABLE && 1 <= a < c <= 16
    requires var table := tables[|frames|];
      Before(table, k, a) && Unnamed(table, base) && forall i | 0 <= i < TABLE :: !table[i].residual
    requires forall i | 0 <= i < |frames| :: IsStep(tables[i], frames[i], at[i], tables[i + 1], c, m)
    ensures HeldBackRun(tables', frames', at', HELD, c, m) && |frames'| == |frames| + 1
    ensures tables'[0] == tables[0] && tables'[|frames'|] == Staircase(base, k, a)
    ensures forall i | 0 <= i < |frames'| :: IsStep(tables'[i], frames'[i], at'[i], tables'[i + 1], c, m)
  {
    var n, table := |frames|, tables[|frames|];
    FrameBuilds(table, base, k, a, c);
    tables', frames', at' := tables + [Staircase(base, k, a)], frames + [Looks(base, k)], at + [k];
    assert StepsWith(table, Looks(base, k), k, Staircase(base, k, a), c, m, base, k, a);
    forall i | 0 <= i < |frames'|
      ensures |frames'[i]| <= m && tables'[i + 1] == AfterFrame(tables'[i], frames'[i])
      ensures HeldBack(tables'[i], frames'[i], at'[i], HELD, c)
      ensures IsStep(tables'[i], frames'[i], at'[i], tables'[i + 1], c, m)
    {
      if i < n {
        assert tables'[i] == tables[i] && tables'[i + 1] == tables[i + 1] && frames'[i] == frames[i] && at'[i] == at[i];
        assert IsStep(tables[i], frames[i], at[i], tables[i + 1], c, m);
      }
    }
  }

  /** The bound is attained. */
  lemma BoundIsAttained(c: nat, m: nat) returns (tables: seq<Table>, frames: seq<seq<Touch>>, at: seq<nat>)
    requires 1 <= c <= 16 && 1 <= m <= TABLE
    ensures HeldBackRun(tables, frames, at, HELD, c, m) && |frames| == m * (c - 1) && tables[0] == seq(TABLE, _ => NONE)
    ensures forall i | 0 <= i < |frames| :: IsStep(tables[i], frames[i], at[i], tables[i + 1], c, m)
  {
    if c == 1 {
      tables, frames, at := [seq(TABLE, _ => NONE)], [], [];
      assert m * (c - 1) == 0;
    } else {
      var base;
      tables, frames, at, base := Climb(c, m, m - 1, c - 1);
      FramesGrow(m, 1, c);
    }
  }

  /** No competitor is held back for more than n frames in a row. */
  ghost predicate NeverLongerThan(c: nat, m: nat, n: nat) {
    forall tables: seq<Table>, frames, at, q: u8 | q != 0 && HeldBackRun(tables, frames, at, q, c, m) :: |frames| <= n
  }

  /** With at most m competitors a frame, n frames are enough for all of them exactly from
      m * (c - 1) on. */
  lemma LongestHolding(c: nat, m: nat, n: nat)
    requires 1 <= c <= 16 && 1 <= m <= TABLE
    ensures NeverLongerThan(c, m, n) <==> n >= m * (c - 1)
  {
    var tables, frames, at := BoundIsAttained(c, m);
    if n >= m * (c - 1) {
      forall tables: seq<Table>, frames, at, q: u8 | q != 0 && HeldBackRun(tables, frames, at, q, c, m)
        ensures |frames| <= n
      {
        HoldingIsBounded(tables, frames, at, q, c, m);
      }
    } else {
      assert HeldBackRun(tables, frames, at, HELD, c, m) && |frames| > n;
    }
  }

  /** Every second contact gets through in one confirmation period exactly when no other one
      competes, or nothing has to be confirmed. */
  lemma OnePeriodExactlyWhenAlone(c: nat, m: nat)
    requires 1 <= c <= 16 && 1 <= m <= TABLE
    ensures NeverLongerThan(c, m, c - 1) <==> m == 1 || c == 1
  {
    LongestHolding(c, m, c - 1);
    if m > 1 && c > 1 {
      assert m * (c - 1) == (c - 1) + (m - 1) * (c - 1) && (m - 1) * (c - 1) >= 1;
    } else {
      assert m * (c - 1) == c - 1;
    }
  }
}
