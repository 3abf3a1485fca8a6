/** Persistent peak identities: greedy inheritance from the previous frame, then cyclic allocation. */
module PeakIdentity {
  import opened Machine
  import opened Peaks
  import opened Pigeonhole
  import opened Sealing

  type Pairs = seq<(nat, nat)>

  /** Some chosen pair takes i or j at no higher a score. */
  ghost predicate Covered(cur: seq<Peak>, prev: seq<Peak>, chosen: Pairs, i: nat, j: nat)
    requires i < |cur| && j < |prev| && InRange(cur, prev, chosen)
  {
    exists k :: 0 <= k < |chosen| && (chosen[k].0 == i || chosen[k].1 == j)
      && Score(cur[chosen[k].0], prev[chosen[k].1]) <= Score(cur[i], prev[j])
  }

  ghost predicate InRange(cur: seq<Peak>, prev: seq<Peak>, chosen: Pairs) {
    forall k | 0 <= k < |chosen| :: chosen[k].0 < |cur| && chosen[k].1 < |prev|
  }

  ghost predicate Untouched(chosen: Pairs, i: nat, j: nat) {
    forall k | 0 <= k < |chosen| :: chosen[k].0 != i && chosen[k].1 != j
  }

  /** A one-to-one choice of gated pairs in order of rising score. */
  ghost predicate GreedyPrefix(cur: seq<Peak>, prev: seq<Peak>, chosen: Pairs) {
    && InRange(cur, prev, chosen)
    && (forall k | 0 <= k < |chosen| :: Gated(cur[chosen[k].0], prev[chosen[k].1]))
    && (forall a, b | 0 <= a < b < |chosen| :: chosen[a].0 != chosen[b].0 && chosen[a].1 != chosen[b].1)
    && (forall a, b | 0 <= a < b < |chosen| ::
          Score(cur[chosen[a].0], prev[chosen[a].1]) <= Score(cur[chosen[b].0], prev[chosen[b].1]))
    && (forall i, j | 0 <= i < |cur| && 0 <= j < |prev| && Gated(cur[i], prev[j]) ::
          Covered(cur, prev, chosen, i, j) || Untouched(chosen, i, j))
    && (forall i, j | 0 <= i < |cur| && 0 <= j < |prev| && Gated(cur[i], prev[j]) && Untouched(chosen, i, j) ::
          forall k | 0 <= k < |chosen| :: Score(cur[chosen[k].0], prev[chosen[k].1]) <= Score(cur[i], prev[j]))
  }

  /** A stable choice: every gated pair left out lost to a chosen pair of no higher score that
      shares its current or its previous peak. */
  ghost predicate Stable(cur: seq<Peak>, prev: seq<Peak>, chosen: Pairs) {
    && GreedyPrefix(cur, prev, chosen)
    && forall i, j | 0 <= i < |cur| && 0 <= j < |prev| && Gated(cur[i], prev[j]) ::
         Covered(cur, prev, chosen, i, j)
  }

  /** No gated pair of unused peaks is cheaper than (i, j). */
  ghost predicate CheapestLeft(now: seq<Peak>, prev: seq<Peak>, chosen: Pairs, i: nat, j: nat) {
    && i < |now| && j < |prev| && Gated(now[i], prev[j]) && Untouched(chosen, i, j)
    && forall x, y | 0 <= x < |now| && 0 <= y < |prev| && Gated(now[x], prev[y]) && Untouched(chosen, x, y) ::
         Score(now[i], prev[j]) <= Score(now[x], prev[y])
  }

  lemma CoveredGrows(cur: seq<Peak>, prev: seq<Peak>, chosen: Pairs, i: nat, j: nat, x: nat, y: nat)
    requires GreedyPrefix(cur, prev, chosen) && CheapestLeft(cur, prev, chosen, i, j)
    requires x < |cur| && y < |prev| && Gated(cur[x], prev[y])
    ensures Covered(cur, prev, chosen + [(i, j)], x, y) || Untouched(chosen + [(i, j)], x, y)
  {
    var more := chosen + [(i, j)];
    if Untouched(chosen, x, y) {
      if x == i || y == j {
        assert more[|chosen|] == (i, j);
      }
    } else {
      var k :| 0 <= k < |chosen| && (chosen[k].0 == x || chosen[k].1 == y)
        && Score(cur[chosen[k].0], prev[chosen[k].1]) <= Score(cur[x], prev[y]);
      assert more[k] == chosen[k];
    }
  }

  lemma UntouchedBefore(chosen: Pairs, i: nat, j: nat, x: nat, y: nat)
    requires Untouched(chosen + [(i, j)], x, y)
    ensures Untouched(chosen, x, y)
  {
    forall k | 0 <= k < |chosen| ensures chosen[k].0 != x && chosen[k].1 != y {
      assert (chosen + [(i, j)])[k] == chosen[k];
    }
  }

  /** Taking the cheapest untouched pair extends the choice. */
  lemma GreedyGrows(cur: seq<Peak>, prev: seq<Peak>, chosen: Pairs, i: nat, j: nat)
    requires GreedyPrefix(cur, prev, chosen) && CheapestLeft(cur, prev, chosen, i, j)
    ensures GreedyPrefix(cur, prev, chosen + [(i, j)])
  {
    var more := chosen + [(i, j)];
    forall x, y | 0 <= x < |cur| && 0 <= y < |prev| && Gated(cur[x], prev[y])
      ensures Covered(cur, prev, more, x, y) || Untouched(more, x, y)
    {
      CoveredGrows(cur, prev, chosen, i, j, x, y);
    }
    forall x, y | 0 <= x < |cur| && 0 <= y < |prev| && Gated(cur[x], prev[y]) && Untouched(more, x, y)
      ensures forall k | 0 <= k < |more| :: Score(cur[more[k].0], prev[more[k].1]) <= Score(cur[x], prev[y])
    {
      UntouchedBefore(chosen, i, j, x, y);
    }
  }

  /** Choices are bounded by the number of current peaks, so the greedy loop ends. */
  lemma ChosenBounded(cur: seq<Peak>, prev: seq<Peak>, chosen: Pairs)
    requires GreedyPrefix(cur, prev, chosen)
    ensures |chosen| <= |cur|
  {
    var firsts := seq(|chosen|, k requires 0 <= k < |chosen| => chosen[k].0);
    DistinctBounded(firsts, |cur|);
  }

  function Clamp8(x: int): s8 {
    if x < -128 then -128 else if x > 127 then 127 else x
  }

  /** The current peak after it takes over a previous identity. */
  function Heir(cur: Peak, prev: Peak): Peak {
    cur.(id := prev.id, age := if prev.age < 0xff then prev.age + 1 else 0xff,
         vr := Clamp8(cur.r - prev.r), vc := Clamp8(cur.c - prev.c))
  }

  ghost predicate SameSpot(a: Peak, b: Peak) { a.r == b.r && a.c == b.c && a.z == b.z }

  lemma ScoreIgnoresIdentity(a: Peak, b: Peak, prev: Peak)
    requires SameSpot(a, b)
    ensures Score(a, prev) == Score(b, prev) && Gated(a, prev) == Gated(b, prev)
  {
  }

  /** `now` is `cur` with the identities of `chosen` handed over. */
  ghost predicate Inherits(cur: seq<Peak>, prev: seq<Peak>, chosen: Pairs, now: seq<Peak>) {
    && |now| == |cur| && InRange(cur, prev, chosen)
    && (forall k | 0 <= k < |chosen| :: now[chosen[k].0] == Heir(cur[chosen[k].0], prev[chosen[k].1]))
    && (forall i | 0 <= i < |cur| && (forall k | 0 <= k < |chosen| :: chosen[k].0 != i) :: now[i] == cur[i])
  }

  lemma InheritsSameSpot(cur: seq<Peak>, prev: seq<Peak>, chosen: Pairs, now: seq<Peak>, i: nat)
    requires Inherits(cur, prev, chosen, now) && i < |cur|
    ensures SameSpot(now[i], cur[i])
  {
    if k :| 0 <= k < |chosen| && chosen[k].0 == i {
      assert now[i] == Heir(cur[i], prev[chosen[k].1]);
    }
  }

  ghost predicate DistinctIds(s: seq<Peak>) {
    && (forall i | 0 <= i < |s| :: s[i].id != 0)
    && (forall i, j | 0 <= i < j < |s| :: s[i].id != s[j].id)
  }

  /** A peak carries an identity exactly when it was chosen. */
  lemma InheritedId(cur: seq<Peak>, prev: seq<Peak>, chosen: Pairs, now: seq<Peak>, i: nat) returns (k: nat)
    requires Inherits(cur, prev, chosen, now) && DistinctIds(prev)
    requires i < |now| && cur[i].id == 0 && now[i].id != 0
    ensures k < |chosen| && chosen[k].0 == i && now[i].id == prev[chosen[k].1].id
  {
    k :| 0 <= k < |chosen| && chosen[k].0 == i;
    assert now[chosen[k].0] == Heir(cur[i], prev[chosen[k].1]);
  }

  /** Identities taken over stay distinct, because no previous peak is chosen twice. */
  lemma InheritedDistinct(cur: seq<Peak>, prev: seq<Peak>, chosen: Pairs, now: seq<Peak>)
    requires GreedyPrefix(cur, prev, chosen) && Inherits(cur, prev, chosen, now) && DistinctIds(prev)
    requires forall i | 0 <= i < |cur| :: cur[i].id == 0
    ensures KnownDistinct(now)
  {
    forall i, j | 0 <= i < j < |now| && now[i].id != 0 && now[j].id != 0 ensures now[i].id != now[j].id {
      var a := InheritedId(cur, prev, chosen, now, i);
      var b := InheritedId(cur, prev, chosen, now, j);
    }
  }

  /** Distinct among the peaks that already have an identity. */
  ghost predicate KnownDistinct(s: seq<Peak>) {
    forall i, j | 0 <= i < j < |s| && s[i].id != 0 && s[j].id != 0 :: s[i].id != s[j].id
  }

  function NextId(id: u8): u8 { if id == 0xff then 1 else id + 1 }

  /** The id reached after k steps of the cycle 1..255. */
  function Cycle(start: u8, k: nat): (id: u8)
    requires start != 0 && k <= 255
    ensures id != 0
  {
    if start + k <= 255 then start + k else start + k - 255
  }

  ghost predicate IdUsed(s: seq<Peak>, id: int) {
    exists i :: 0 <= i < |s| && s[i].id == id
  }

  /** Fewer than 255 peaks cannot use up the cycle: after k refused attempts, k ids are taken. */
  lemma {:induction false} RefusalsBounded(s: seq<Peak>, start: u8, k: nat)
    requires start != 0 && k <= 255 && |s| <= MAX_PEAKS
    requires forall a | 0 <= a < k :: IdUsed(s, Cycle(start, a))
    ensures k <= |s|
  {
    var at := seq(k, a requires 0 <= a < k => FirstWith(s, Cycle(start, a)));
    forall a, b | 0 <= a < b < k ensures at[a] != at[b] {
      assert Cycle(start, a) != Cycle(start, b);
    }
    DistinctBounded(at, |s|);
  }

  /** `id` is the first free one of the cycle, found after k refusals. */
  ghost predicate IsFirstFree(s: seq<Peak>, start: u8, id: u8, k: nat)
    requires start != 0 && k <= 255
  {
    id == Cycle(start, k) && !IdUsed(s, id) && forall a | 0 <= a < k :: IdUsed(s, Cycle(start, a))
  }

  /** One identity handed out: the peaks at that moment, where the search started, and what it found. */
  datatype Given = Given(peaks: seq<Peak>, start: u8, id: u8)

  ghost predicate FoundFree(g: Given) {
    g.start != 0 && g.id != 0 && exists k :: 0 <= k <= 255 && IsFirstFree(g.peaks, g.start, g.id, k)
  }

  /** Identities handed out one after the other, each search starting behind what the one before found. */
  ghost predicate InTurn(given: seq<Given>, from: u8, to: u8) {
    && (forall k | 0 <= k < |given| :: FoundFree(given[k]))
    && (forall k | 0 < k < |given| :: given[k].start == NextId(given[k - 1].id))
    && if given == [] then from == to else given[0].start == from && to == NextId(given[|given| - 1].id)
  }

  /** The first i of the peaks, where they had none, got these identities in order. */
  ghost predicate NamedUpTo(now: seq<Peak>, done: seq<Peak>, given: seq<Given>, i: nat)
    requires i <= |now| && i <= |done|
  {
    if i == 0 then given == []
    else if now[i - 1].id != 0 then NamedUpTo(now, done, given, i - 1)
    else
      && given != [] && given[|given| - 1].id == done[i - 1].id
      && given[|given| - 1].peaks == done[..i - 1] + now[i - 1..]
      && NamedUpTo(now, done, given[..|given| - 1], i - 1)
  }

  lemma {:induction false} NamedSame(now: seq<Peak>, a: seq<Peak>, b: seq<Peak>, given: seq<Given>, i: nat)
    requires i <= |now| && i <= |a| && i <= |b| && a[..i] == b[..i] && NamedUpTo(now, a, given, i)
    ensures NamedUpTo(now, b, given, i)
  {
    if i > 0 {
      assert a[..i - 1] == a[..i][..i - 1] && b[..i - 1] == b[..i][..i - 1];
      assert a[i - 1] == a[..i][i - 1] && b[i - 1] == b[..i][i - 1];
      if now[i - 1].id != 0 {
        NamedSame(now, a, b, given, i - 1);
      } else {
        NamedSame(now, a, b, given[..|given| - 1], i - 1);
      }
    }
  }

  /** One more identity handed out, to peak i. */
  lemma OneMoreNamed(now: seq<Peak>, s: seq<Peak>, given: seq<Given>, from: u8, start: u8, i: nat, id: u8)
    requires i < |now| == |s| && now[i].id == 0 && InTurn(given, from, start) && NamedUpTo(now, s, given, i)
    requires s[i..] == now[i..] && FoundFree(Given(s, start, id))
    ensures InTurn(given + [Given(s, start, id)], from, NextId(id))
    ensures NamedUpTo(now, s[i := s[i].(id := id)], given + [Given(s, start, id)], i + 1)
  {
    var more, t := given + [Given(s, start, id)], s[i := s[i].(id := id)];
    assert more[..|more| - 1] == given && t[..i] == s[..i] && s == s[..i] + s[i..];
    NamedSame(now, s, t, given, i);
  }

  /** All of them. Sealed. */
  ghost predicate Named(now: seq<Peak>, done: seq<Peak>, given: seq<Given>, from: u8, to: u8) {
    |now| == |done| && forall o {:trigger Open(o)} :: Open(o) ==>
      InTurn(given, from, to) && NamedUpTo(now, done, given, |now|)
  }

  /** The first i are named, the others as they were. */
  ghost predicate Partly(now: seq<Peak>, s: seq<Peak>, i: nat) {
    && |s| == |now| && KnownDistinct(s)
    && (forall k | 0 <= k < |s| && (k >= i || now[k].id != 0) :: s[k] == now[k])
    && (forall k | 0 <= k < |s| && k < i :: s[k].id != 0 && (now[k].id == 0 ==> s[k] == now[k].(id := s[k].id)))
  }

  /** Sealed. */
  ghost predicate Naming(now: seq<Peak>, s: seq<Peak>, given: seq<Given>, from: u8, to: u8, i: nat) {
    && i <= |now| == |s|
    && forall o {:trigger Open(o)} :: Open(o) ==>
         Partly(now, s, i) && InTurn(given, from, to) && NamedUpTo(now, s, given, i)
  }

  lemma NamingStarts(now: seq<Peak>, from: u8)
    requires KnownDistinct(now)
    ensures Naming(now, now, [], from, from, 0)
  {
  }

  lemma NamingSkips(now: seq<Peak>, s: seq<Peak>, given: seq<Given>, from: u8, to: u8, i: nat)
    requires Naming(now, s, given, from, to, i) && i < |s| && s[i].id != 0
    ensures Naming(now, s, given, from, to, i + 1)
  {
    assert Open(0);
  }

  lemma NamingStep(now: seq<Peak>, s: seq<Peak>, given: seq<Given>, from: u8, start: u8, i: nat, id: u8)
    requires Naming(now, s, given, from, start, i) && i < |s| && s[i].id == 0
    requires FoundFree(Given(s, start, id)) && !IdUsed(s, id)
    ensures Naming(now, s[i := s[i].(id := id)], given + [Given(s, start, id)], from, NextId(id), i + 1)
  {
    assert Open(0);
    OneMoreNamed(now, s, given, from, start, i, id);
    FreshKeepsDistinct(s, i, id);
  }

  lemma NamingEnds(now: seq<Peak>, s: seq<Peak>, given: seq<Given>, from: u8, to: u8)
    requires Naming(now, s, given, from, to, |s|)
    ensures Completes(now, s) && Named(now, s, given, from, to)
  {
    assert Open(0);
  }

  /** The peaks before those that inherited nothing were named. */
  ghost function Unnamed(done: seq<Peak>, chosen: Pairs): (r: seq<Peak>)
    ensures |r| == |done|
  {
    seq(|done|, i requires 0 <= i < |done| =>
      if exists k :: 0 <= k < |chosen| && chosen[k].0 == i then done[i] else done[i].(id := 0))
  }

  ghost function FirstWith(s: seq<Peak>, id: int): (i: nat)
    requires IdUsed(s, id)
    ensures i < |s| && s[i].id == id
  {
    var i :| 0 <= i < |s| && s[i].id == id; i
  }

  /** The greedy loop so far. Sealed. */
  ghost predicate Progress(cur: seq<Peak>, prev: seq<Peak>, chosen: Pairs, now: seq<Peak>) {
    && |now| == |cur| && InRange(cur, prev, chosen)
    && forall o {:trigger Open(o)} :: Open(o) ==> GreedyPrefix(cur, prev, chosen) && Inherits(cur, prev, chosen, now)
  }

  lemma ProgressStarts(cur: seq<Peak>, prev: seq<Peak>)
    ensures Progress(cur, prev, [], cur)
  {
  }

  lemma CheapestLeftBefore(cur: seq<Peak>, prev: seq<Peak>, chosen: Pairs, now: seq<Peak>, i: nat, j: nat)
    requires Inherits(cur, prev, chosen, now) && CheapestLeft(now, prev, chosen, i, j)
    ensures CheapestLeft(cur, prev, chosen, i, j)
  {
    forall x | 0 <= x < |now| ensures SameSpot(now[x], cur[x]) {
      InheritsSameSpot(cur, prev, chosen, now, x);
    }
    ScoreIgnoresIdentity(now[i], cur[i], prev[j]);
    forall x, y | 0 <= x < |cur| && 0 <= y < |prev| && Gated(cur[x], prev[y]) && Untouched(chosen, x, y)
      ensures Score(cur[i], prev[j]) <= Score(cur[x], prev[y])
    {
      ScoreIgnoresIdentity(now[x], cur[x], prev[y]);
    }
  }

  lemma InheritsGrows(cur: seq<Peak>, prev: seq<Peak>, chosen: Pairs, now: seq<Peak>, i: nat, j: nat)
    requires Inherits(cur, prev, chosen, now) && i < |cur| && j < |prev| && Untouched(chosen, i, j)
    ensures Inherits(cur, prev, chosen + [(i, j)], now[i := Heir(now[i], prev[j])])
  {
    assert now[i] == cur[i];
    var more := chosen + [(i, j)];
    forall x | 0 <= x < |cur| && (forall k | 0 <= k < |more| :: more[k].0 != x)
      ensures x != i && now[x] == cur[x]
    {
      assert more[|chosen|] == (i, j);
      forall k | 0 <= k < |chosen| ensures chosen[k].0 != x { assert more[k] == chosen[k]; }
    }
  }

  lemma ProgressStep(cur: seq<Peak>, prev: seq<Peak>, chosen: Pairs, now: seq<Peak>, i: nat, j: nat)
    requires Progress(cur, prev, chosen, now) && CheapestLeft(now, prev, chosen, i, j)
    ensures Progress(cur, prev, chosen + [(i, j)], now[i := Heir(now[i], prev[j])])
    ensures |chosen| < |cur|
  {
    assert GreedyPrefix(cur, prev, chosen) && Inherits(cur, prev, chosen, now) by { assert Open(0); }
    CheapestLeftBefore(cur, prev, chosen, now, i, j);
    GreedyGrows(cur, prev, chosen, i, j);
    InheritsGrows(cur, prev, chosen, now, i, j);
    ChosenBounded(cur, prev, chosen + [(i, j)]);
  }

  lemma ProgressEnds(cur: seq<Peak>, prev: seq<Peak>, chosen: Pairs, now: seq<Peak>)
    requires Progress(cur, prev, chosen, now)
    requires forall x, y | 0 <= x < |now| && 0 <= y < |prev| && Gated(now[x], prev[y]) :: !Untouched(chosen, x, y)
    ensures Stable(cur, prev, chosen) && Inherits(cur, prev, chosen, now)
  {
    assert GreedyPrefix(cur, prev, chosen) && Inherits(cur, prev, chosen, now) by { assert Open(0); }
    forall i, j | 0 <= i < |cur| && 0 <= j < |prev| && Gated(cur[i], prev[j]) ensures Covered(cur, prev, chosen, i, j) {
      InheritsSameSpot(cur, prev, chosen, now, i);
      ScoreIgnoresIdentity(now[i], cur[i], prev[j]);
    }
  }

  /** The flags say which peaks no chosen pair has touched. */
  ghost predicate Marks(chosen: Pairs, curUsed: seq<bool>, prevUsed: seq<bool>) {
    forall x, y | 0 <= x < |curUsed| && 0 <= y < |prevUsed| :: Untouched(chosen, x, y) <==> !curUsed[x] && !prevUsed[y]
  }

  lemma MarksGrow(chosen: Pairs, curUsed: seq<bool>, prevUsed: seq<bool>, i: nat, j: nat)
    requires Marks(chosen, curUsed, prevUsed) && i < |curUsed| && j < |prevUsed|
    ensures Marks(chosen + [(i, j)], curUsed[i := true], prevUsed[j := true])
  {
    var more := chosen + [(i, j)];
    forall x, y | 0 <= x < |curUsed| && 0 <= y < |prevUsed|
      ensures Untouched(more, x, y) <==> Untouched(chosen, x, y) && x != i && y != j
    {
      assert more[|chosen|] == (i, j);
      assert forall k | 0 <= k < |chosen| :: more[k] == chosen[k];
    }
  }

  lemma FreshKeepsDistinct(s: seq<Peak>, i: nat, id: u8)
    requires KnownDistinct(s) && i < |s| && id != 0 && !IdUsed(s, id)
    ensures KnownDistinct(s[i := s[i].(id := id)])
  {
    forall k | 0 <= k < |s| ensures s[k].id != id {
    }
  }

  /** The frame's peaks before any identity is known. */
  ghost function Cleared(s: seq<Peak>): (r: seq<Peak>)
    ensures |r| == |s| && forall i | 0 <= i < |s| :: r[i] == s[i].(id := 0, age := 0)
  {
    seq(|s|, i requires 0 <= i < |s| => s[i].(id := 0, age := 0))
  }

  /** The outcome of a frame: a stable one-to-one inheritance, every heir ages and learns its
      velocity, everything else is new with age 0, and all identities are distinct and non-zero. */
  ghost predicate Tracked(start: seq<Peak>, before: seq<Peak>, chosen: Pairs, done: seq<Peak>) {
    && |done| == |start| && DistinctIds(done) && Stable(Cleared(start), before, chosen)
    && (forall k | 0 <= k < |chosen| :: done[chosen[k].0] == Heir(start[chosen[k].0], before[chosen[k].1]))
    && (forall i | 0 <= i < |start| && (forall k | 0 <= k < |chosen| :: chosen[k].0 != i) ::
          done[i] == start[i].(id := done[i].id, age := 0))
  }

  /** Identity tracking changes nothing else about a peak. */
  lemma TrackedKeepsPlaces(start: seq<Peak>, before: seq<Peak>, chosen: Pairs, done: seq<Peak>)
    requires Tracked(start, before, chosen, done)
    ensures forall i | 0 <= i < |start| :: SameSpot(done[i], start[i]) && done[i].zoneIndex == start[i].zoneIndex
  {
    forall i | 0 <= i < |start| ensures SameSpot(done[i], start[i]) && done[i].zoneIndex == start[i].zoneIndex {
      if k :| 0 <= k < |chosen| && chosen[k].0 == i {
        assert done[chosen[k].0] == Heir(start[chosen[k].0], before[chosen[k].1]);
      }
    }
  }

  /** `done` completes `now`: known identities stay, the others are filled in. */
  ghost predicate Completes(now: seq<Peak>, done: seq<Peak>) {
    && |done| == |now| && DistinctIds(done)
    && (forall i | 0 <= i < |now| && now[i].id != 0 :: done[i] == now[i])
    && (forall i | 0 <= i < |now| && now[i].id == 0 :: done[i] == now[i].(id := done[i].id))
  }

  lemma InheritedIsUnnamed(start: seq<Peak>, before: seq<Peak>, chosen: Pairs, now: seq<Peak>, done: seq<Peak>)
    requires Inherits(Cleared(start), before, chosen, now) && DistinctIds(before) && Completes(now, done)
    ensures now == Unnamed(done, chosen)
  {
    forall i | 0 <= i < |now| ensures now[i] == Unnamed(done, chosen)[i] {
      if k :| 0 <= k < |chosen| && chosen[k].0 == i {
        assert now[chosen[k].0] == Heir(Cleared(start)[chosen[k].0], before[chosen[k].1]);
      }
    }
  }

  lemma TrackedFrom(start: seq<Peak>, before: seq<Peak>, chosen: Pairs, now: seq<Peak>, done: seq<Peak>)
    requires Stable(Cleared(start), before, chosen) && Inherits(Cleared(start), before, chosen, now)
    requires DistinctIds(before) && Completes(now, done)
    ensures Tracked(start, before, chosen, done)
  {
    forall k | 0 <= k < |chosen| ensures done[chosen[k].0] == Heir(start[chosen[k].0], before[chosen[k].1]) {
      assert now[chosen[k].0] == Heir(Cleared(start)[chosen[k].0], before[chosen[k].1]);
    }
  }

  class PeakTracker {
    const peaks: array<Peak>
    const prev: array<Peak>
    var count: nat
    var prevCount: nat
    var nextId: u8

    /** Over the table the detection leaves its peaks in. */
    constructor (table: array<Peak>)
      requires table.Length == MAX_PEAKS
      ensures Valid() && Steady() && count == prevCount == 0 && peaks == table && fresh(prev)
    {
      var none := Peak(0, 0, 0, 0, 0, 0, 0, 0, 0, 0, false, false, false, -1);
      peaks := table;
      prev := new Peak[MAX_PEAKS](_ => none);
      count, prevCount, nextId := 0, 0, 1;
    }

    ghost predicate Valid()
      reads this, peaks, prev
    {
      && peaks.Length == prev.Length == MAX_PEAKS && peaks != prev
      && count <= MAX_PEAKS && prevCount <= MAX_PEAKS && nextId != 0
      && (forall i | 0 <= i < count :: OnGrid(peaks[i]))
      && (forall i | 0 <= i < prevCount :: OnGrid(prev[i]))
    }

    /** What every frame leaves behind for the next one. */
    ghost predicate Steady()
      reads this, prev
      requires prevCount <= prev.Length
    {
      DistinctIds(prev[..prevCount])
    }

    /** Looks for a cheaper pair in the row of current peak a. */
    method SearchRow(a: nat, curUsed: array<bool>, prevUsed: array<bool>, best0: nat, i0: nat, j0: nat)
      returns (best: nat, i: nat, j: nat)
      requires Valid() && curUsed.Length == prevUsed.Length == MAX_PEAKS && a < count && !curUsed[a]
      requires best0 <= INT_MAX && (best0 < INT_MAX ==> IsCandidate(curUsed, prevUsed, i0, j0, best0))
      ensures best <= best0 && (best < INT_MAX ==> IsCandidate(curUsed, prevUsed, i, j, best))
      ensures forall y | 0 <= y < prevCount && !prevUsed[y] && Gated(peaks[a], prev[y]) ::
        best <= Score(peaks[a], prev[y]) < INT_MAX
    {
      best, i, j := best0, i0, j0;
      for b := 0 to prevCount
        invariant best <= best0 && (best < INT_MAX ==> IsCandidate(curUsed, prevUsed, i, j, best))
        invariant forall y | 0 <= y < b && !prevUsed[y] && Gated(peaks[a], prev[y]) ::
          best <= Score(peaks[a], prev[y]) < INT_MAX
      {
        if prevUsed[b] || !Gated(peaks[a], prev[b]) {
          continue;
        }
        ScoreFitsInt(peaks[a], prev[b]);
        if Score(peaks[a], prev[b]) < best {
          best, i, j := Score(peaks[a], prev[b]), a, b;
        }
      }
    }

    ghost predicate IsCandidate(curUsed: array<bool>, prevUsed: array<bool>, i: nat, j: nat, score: nat)
      reads this, peaks, prev, curUsed, prevUsed
    {
      && i < count <= peaks.Length && j < prevCount <= prev.Length && i < curUsed.Length && j < prevUsed.Length
      && !curUsed[i] && !prevUsed[j] && Gated(peaks[i], prev[j]) && score == Score(peaks[i], prev[j])
    }

    /** The cheapest pair of a free current and a free previous peak, first one on ties. */
    method FindBest(ghost chosen: Pairs, curUsed: array<bool>, prevUsed: array<bool>)
      returns (found: bool, i: nat, j: nat)
      requires Valid() && curUsed.Length == prevUsed.Length == MAX_PEAKS
      requires Marks(chosen, curUsed[..], prevUsed[..])
      ensures found ==> CheapestLeft(peaks[..count], prev[..prevCount], chosen, i, j)
      ensures !found ==>
        forall x, y | 0 <= x < count && 0 <= y < prevCount && Gated(peaks[x], prev[y]) :: !Untouched(chosen, x, y)
    {
      var best: nat := INT_MAX;
      i, j := 0, 0;
      for a := 0 to count
        invariant best <= INT_MAX && (best < INT_MAX ==> IsCandidate(curUsed, prevUsed, i, j, best))
        invariant forall x, y |
          0 <= x < a && 0 <= y < prevCount && Gated(peaks[x], prev[y]) && Untouched(chosen, x, y) ::
          best <= Score(peaks[x], prev[y]) < INT_MAX
      {
        if !curUsed[a] {
          best, i, j := SearchRow(a, curUsed, prevUsed, best, i, j);
        }
      }
      found := best < INT_MAX;
    }

    /** Hands identities over, cheapest pair first, until no gated pair is left. */
    method Inherit() returns (ghost chosen: Pairs)
      requires Valid()
      modifies peaks
      ensures Valid()
      ensures Stable(old(peaks[..count]), prev[..prevCount], chosen)
      ensures Inherits(old(peaks[..count]), prev[..prevCount], chosen, peaks[..count])
    {
      ghost var cur, before := peaks[..count], prev[..prevCount];
      var curUsed := new bool[MAX_PEAKS](_ => false);
      var prevUsed := new bool[MAX_PEAKS](_ => false);
      chosen := [];
      ProgressStarts(cur, before);
      var more, i, j := FindBest(chosen, curUsed, prevUsed);
      while more
        invariant Valid() && prev[..prevCount] == before && Progress(cur, before, chosen, peaks[..count])
        invariant Marks(chosen, curUsed[..], prevUsed[..])
        invariant more ==> CheapestLeft(peaks[..count], before, chosen, i, j)
        invariant !more ==>
          forall x, y | 0 <= x < count && 0 <= y < prevCount && Gated(peaks[x], prev[y]) :: !Untouched(chosen, x, y)
        decreases count - |chosen|, more
      {
        Give(cur, before, chosen, i, j, curUsed, prevUsed);
        chosen := chosen + [(i, j)];
        more, i, j := FindBest(chosen, curUsed, prevUsed);
      }
      ProgressEnds(cur, before, chosen, peaks[..count]);
    }

    method Give(ghost cur: seq<Peak>, ghost before: seq<Peak>, ghost chosen: Pairs, i: nat, j: nat,
                curUsed: array<bool>, prevUsed: array<bool>)
      requires Valid() && curUsed.Length == prevUsed.Length == MAX_PEAKS && curUsed != prevUsed
      requires prev[..prevCount] == before && Progress(cur, before, chosen, peaks[..count])
      requires Marks(chosen, curUsed[..], prevUsed[..])
      requires CheapestLeft(peaks[..count], before, chosen, i, j)
      modifies peaks, curUsed, prevUsed
      ensures Valid() && |chosen| < count && Progress(cur, before, chosen + [(i, j)], peaks[..count])
      ensures Marks(chosen + [(i, j)], curUsed[..], prevUsed[..])
    {
      MarksGrow(chosen, curUsed[..], prevUsed[..], i, j);
      ghost var now := peaks[..count];
      ProgressStep(cur, before, chosen, now, i, j);
      peaks[i] := Heir(peaks[i], prev[j]);
      assert peaks[..count] == now[i := Heir(now[i], before[j])];
      ghost var marks, prevMarks := curUsed[..], prevUsed[..];
      curUsed[i], prevUsed[j] := true, true;
      assert curUsed[..] == marks[i := true] && prevUsed[..] == prevMarks[j := true];
    }

    method IsUsed(id: u8) returns (used: bool)
      requires Valid()
      ensures used <==> IdUsed(peaks[..count], id)
    {
      used := false;
      ghost var s := peaks[..count];
      for i := 0 to count
        invariant !used ==> forall k | 0 <= k < i :: s[k].id != id
        invariant used ==> IdUsed(s, id)
      {
        if peaks[i].id == id {
          assert s[i].id == id;
          used := true;
          break;
        }
      }
    }

    /** The next identity of the cycle no current peak carries; 255 attempts always suffice, so the
        fallback identity 1 is never returned for want of a free one. */
    method AllocateId() returns (id: u8)
      requires Valid()
      modifies this`nextId
      ensures Valid() && id != 0 && !IdUsed(peaks[..count], id)
      ensures exists k :: 0 <= k <= count && IsFirstFree(peaks[..count], old(nextId), id, k)
      ensures nextId == NextId(id)
    {
      ghost var start, s := nextId, peaks[..count];
      var attempt, used := 0, true;
      id := 1;
      while attempt < 255 && used
        invariant attempt <= 255 && Valid() && nextId == Cycle(start, attempt)
        invariant used ==> forall a | 0 <= a < attempt :: IdUsed(s, Cycle(start, a))
        invariant !used ==> 0 < attempt && IsFirstFree(s, start, id, attempt - 1) && nextId == NextId(id)
      {
        id := nextId;
        nextId := NextId(nextId);
        used := IsUsed(id);
        attempt := attempt + 1;
      }
      if used {
        RefusalsBounded(s, start, attempt);
        assert false;
      }
      RefusalsBounded(s, start, attempt - 1);
    }

    /** Gives every peak without an identity a fresh one. */
    method AllocateAll() returns (ghost given: seq<Given>)
      requires Valid() && KnownDistinct(peaks[..count])
      modifies this`nextId, peaks
      ensures Valid() && Completes(old(peaks[..count]), peaks[..count])
      ensures Named(old(peaks[..count]), peaks[..count], given, old(nextId), nextId)
    {
      given := [];
      ghost var now := peaks[..count];
      NamingStarts(now, nextId);
      for i := 0 to count
        invariant Valid() && Naming(now, peaks[..count], given, old(nextId), nextId, i)
      {
        ghost var s := peaks[..count];
        if peaks[i].id == 0 {
          given := NameOne(now, given, old(nextId), i);
        } else {
          NamingSkips(now, s, given, old(nextId), nextId, i);
        }
      }
      NamingEnds(now, peaks[..count], given, old(nextId), nextId);
    }

    /** Names peak i. */
    method NameOne(ghost now: seq<Peak>, ghost given0: seq<Given>, ghost from: u8, i: nat)
      returns (ghost given: seq<Given>)
      requires Valid() && i < count && peaks[i].id == 0 && Naming(now, peaks[..count], given0, from, nextId, i)
      modifies this`nextId, peaks
      ensures Valid() && Naming(now, peaks[..count], given, from, nextId, i + 1)
    {
      ghost var s, start := peaks[..count], nextId;
      var id := AllocateId();
      given := given0 + [Given(s, start, id)];
      assert FoundFree(Given(s, start, id));
      NamingStep(now, s, given0, from, start, i, id);
      peaks[i] := peaks[i].(id := id);
      assert peaks[..count] == s[i := s[i].(id := id)];
    }

    method ClearIds()
      requires Valid()
      modifies peaks
      ensures Valid() && peaks[..count] == Cleared(old(peaks[..count]))
    {
      for i := 0 to count
        invariant Valid()
        invariant forall k | 0 <= k < i :: peaks[k] == old(peaks[k]).(id := 0, age := 0)
        invariant forall k | i <= k < count :: peaks[k] == old(peaks[k])
      {
        peaks[i] := peaks[i].(id := 0, age := 0);
      }
    }

    method Remember()
      requires Valid()
      modifies this`prevCount, prev
      ensures Valid() && prev[..prevCount] == peaks[..count]
    {
      for i := 0 to count
        invariant forall k | 0 <= k < i :: prev[k] == peaks[k]
      {
        prev[i] := peaks[i];
      }
      prevCount := count;
    }

    /** Forgets every peak; numbering starts over. */
    method Clear()
      requires Valid()
      modifies this`count, this`prevCount, this`nextId
      ensures Valid() && Steady() && count == prevCount == 0 && nextId == 1
    {
      count, prevCount, nextId := 0, 0, 1;
    }

    /** One frame of identity tracking. Peaks that continue none get the next free identities in turn. */
    method TrackIds() returns (ghost chosen: Pairs, ghost given: seq<Given>)
      requires Valid() && Steady()
      modifies this`nextId, this`prevCount, peaks, prev
      ensures Valid() && Steady() && prev[..prevCount] == peaks[..count]
      ensures Tracked(old(peaks[..count]), old(prev[..prevCount]), chosen, peaks[..count])
      ensures Named(Unnamed(peaks[..count], chosen), peaks[..count], given, old(nextId), nextId)
    {
      ghost var start, before := peaks[..count], prev[..prevCount];
      ClearIds();
      chosen := Inherit();
      ghost var now := peaks[..count];
      InheritedDistinct(Cleared(start), before, chosen, now);
      given := AllocateAll();
      TrackedFrom(start, before, chosen, now, peaks[..count]);
      InheritedIsUnnamed(start, before, chosen, now, peaks[..count]);
      Remember();
    }
  }
}
