/** How identities follow moving peaks: in rows, columns and signals. */
module PeakMotion {
  import opened Arithmetic
  import opened Peaks
  import opened PeakIdentity

  /** Steps on the grid between two cells. */
  function Apart(r: int, c: int, r': int, c': int): nat { Abs(r - r') + Abs(c - c') }

  /** From where the previous peak stood, and from where it was heading. */
  function Moved(cur: Peak, prev: Peak): nat { Apart(cur.r, cur.c, prev.r, prev.c) }

  function Missed(cur: Peak, prev: Peak): nat { Apart(cur.r, cur.c, prev.r + prev.vr, prev.c + prev.vc) }

  /** Going on where the previous one was moving would mean to turn back, or to the side. */
  predicate TurnsBack(cur: Peak, prev: Peak) {
    && (prev.vr != 0 || prev.vc != 0) && Moved(cur, prev) >= 2
    && prev.vr * (cur.r - prev.r) + prev.vc * (cur.c - prev.c) <= 0
  }

  /** What speaks against a pair: above all missing the prediction, then the way, the change of signal, and
      turning back. */
  function Penalty(cur: Peak, prev: Peak): nat {
    16 * Missed(cur, prev) + 2 * Moved(cur, prev) + Min(Abs(cur.z - prev.z) / 64, 32)
    + if TurnsBack(cur, prev) then 48 else 0
  }

  /** Only near pairs count: at most ten steps apart, or six from the prediction. */
  predicate NearPair(cur: Peak, prev: Peak) { Moved(cur, prev) <= 10 || Missed(cur, prev) <= 6 }

  lemma ScoreIsPenalty(cur: Peak, prev: Peak)
    ensures Gated(cur, prev) <==> NearPair(cur, prev)
    ensures Score(cur, prev) == Penalty(cur, prev)
  {
    assert (cur.r - prev.r) * prev.vr == prev.vr * (cur.r - prev.r);
    assert (cur.c - prev.c) * prev.vc == prev.vc * (cur.c - prev.c);
  }

  /** No other pair takes peak i of this frame or peak j of the last one at a lower penalty, or the same. */
  ghost predicate Beaten(cur: seq<Peak>, prev: seq<Peak>, chosen: Pairs, i: nat, j: nat)
    requires i < |cur| && j < |prev| && InRange(cur, prev, chosen)
  {
    exists k :: 0 <= k < |chosen| && (chosen[k].0 == i || chosen[k].1 == j)
      && Penalty(cur[chosen[k].0], prev[chosen[k].1]) <= Penalty(cur[i], prev[j])
  }

  /** Identities go to near pairs, and every near pair goes without only for one with no higher penalty. */
  lemma ChosenByPenalty(cur: seq<Peak>, prev: seq<Peak>, chosen: Pairs, i: nat, j: nat)
    requires Stable(cur, prev, chosen) && i < |cur| && j < |prev|
    ensures (i, j) in chosen ==> NearPair(cur[i], prev[j])
    ensures NearPair(cur[i], prev[j]) ==> Beaten(cur, prev, chosen, i, j)
  {
    forall a, b | 0 <= a < |cur| && 0 <= b < |prev|
      ensures Gated(cur[a], prev[b]) <==> NearPair(cur[a], prev[b])
      ensures Score(cur[a], prev[b]) == Penalty(cur[a], prev[b])
    {
      ScoreIsPenalty(cur[a], prev[b]);
    }
    if NearPair(cur[i], prev[j]) {
      assert Covered(cur, prev, chosen, i, j);
    }
  }

  /** An heir takes the name, ages, and heads on as far as it came; a new peak starts with age 0 and
      keeps what motion it was given. */
  lemma HeirHeadsOn(start: seq<Peak>, before: seq<Peak>, chosen: Pairs, done: seq<Peak>, k: nat)
    requires Tracked(start, before, chosen, done) && k < |chosen|
    requires (forall i | 0 <= i < |start| :: OnGrid(start[i])) && forall j | 0 <= j < |before| :: OnGrid(before[j])
    ensures chosen[k].0 < |start| && chosen[k].1 < |before|
    ensures var a, b, heir := start[chosen[k].0], before[chosen[k].1], done[chosen[k].0];
      && heir.id == b.id && heir.age == Min(b.age + 1, 255) && heir.r == a.r && heir.c == a.c && heir.z == a.z
      && heir.r + heir.vr == 2 * a.r - b.r && heir.c + heir.vc == 2 * a.c - b.c
  {
    assert InRange(Cleared(start), before, chosen);
    assert done[chosen[k].0] == Heir(start[chosen[k].0], before[chosen[k].1]);
    assert OnGrid(start[chosen[k].0]) && OnGrid(before[chosen[k].1]);
  }

  lemma NewStartsOver(start: seq<Peak>, before: seq<Peak>, chosen: Pairs, done: seq<Peak>, i: nat)
    requires Tracked(start, before, chosen, done) && i < |start| && forall k | 0 <= k < |chosen| :: chosen[k].0 != i
    ensures done[i].age == 0 && done[i].vr == start[i].vr && done[i].vc == start[i].vc && done[i].id != 0
  {
  }

  // ----- fingers that keep moving

  /** Peak i of this frame stands exactly where peak i of the last one was heading, at nearly the same
      strength. */
  ghost predicate MovesOn(cur: Peak, prev: Peak) {
    cur.r == prev.r + prev.vr && cur.c == prev.c + prev.vc && -63 <= cur.z - prev.z <= 63
  }

  /** A peak that moves on as before is missed by the others' predictions by more than an eighth of its way. */
  ghost predicate KeepApart(cur: seq<Peak>, prev: seq<Peak>)
    requires |cur| == |prev|
  {
    forall i, k | 0 <= i < |cur| && 0 <= k < |cur| && i != k ::
      8 * Missed(cur[i], prev[k]) > Moved(cur[i], prev[i]) && 8 * Missed(cur[i], prev[k]) > Moved(cur[k], prev[k])
  }

  lemma MovingOnCosts(cur: Peak, prev: Peak)
    requires MovesOn(cur, prev)
    ensures NearPair(cur, prev) && Penalty(cur, prev) == 2 * Moved(cur, prev)
  {
    if prev.vr != 0 || prev.vc != 0 {
      SquaresPositive(prev.vr, prev.vc);
    }
  }

  lemma SquaresPositive(a: int, b: int)
    requires a != 0 || b != 0
    ensures a * a + b * b > 0
  {
    assert a != 0 ==> a * a > 0;
    assert b != 0 ==> b * b > 0;
  }

  lemma OtherCostsMore(cur: seq<Peak>, prev: seq<Peak>, a: nat, b: nat, i: nat)
    requires |cur| == |prev| && a < |cur| && b < |cur| && (a == i || b == i) && a != b
    requires KeepApart(cur, prev) && MovesOn(cur[i], prev[i])
    ensures Penalty(cur[a], prev[b]) > Penalty(cur[i], prev[i])
  {
    MovingOnCosts(cur[i], prev[i]);
    assert 8 * Missed(cur[a], prev[b]) > Moved(cur[i], prev[i]);
  }

  lemma OwnPairChosen(cur: seq<Peak>, prev: seq<Peak>, chosen: Pairs, i: nat)
    requires Stable(cur, prev, chosen) && i < |cur| == |prev| && KeepApart(cur, prev) && MovesOn(cur[i], prev[i])
    ensures (i, i) in chosen
  {
    MovingOnCosts(cur[i], prev[i]);
    ChosenByPenalty(cur, prev, chosen, i, i);
    var k :| 0 <= k < |chosen| && (chosen[k].0 == i || chosen[k].1 == i)
      && Penalty(cur[chosen[k].0], prev[chosen[k].1]) <= Penalty(cur[i], prev[i]);
    if chosen[k].0 != chosen[k].1 {
      OtherCostsMore(cur, prev, chosen[k].0, chosen[k].1, i);
    }
    assert chosen[k] == (i, i);
  }

  /** Fingers that all keep their motion keep their identities, however close they come, as long as the
      predictions tell them apart. */
  lemma SteadyMotionKeepsIdentity(start: seq<Peak>, before: seq<Peak>, chosen: Pairs, done: seq<Peak>, i: nat)
    requires Tracked(start, before, chosen, done) && i < |start| == |before| && KeepApart(start, before)
    requires MovesOn(start[i], before[i])
    ensures done[i].id == before[i].id && (i, i) in chosen
  {
    StillApart(start, before);
    OwnPairChosen(Cleared(start), before, chosen, i);
    var k :| 0 <= k < |chosen| && chosen[k] == (i, i);
    assert done[chosen[k].0] == Heir(start[chosen[k].0], before[chosen[k].1]);
  }

  lemma StillApart(start: seq<Peak>, before: seq<Peak>)
    requires |start| == |before| && KeepApart(start, before)
    ensures KeepApart(Cleared(start), before)
  {
    var cur := Cleared(start);
    forall i, k | 0 <= i < |cur| && 0 <= k < |cur| && i != k
      ensures 8 * Missed(cur[i], before[k]) > Moved(cur[i], before[i])
      ensures 8 * Missed(cur[i], before[k]) > Moved(cur[k], before[k])
    {
      assert 8 * Missed(start[i], before[k]) > Moved(start[i], before[i]);
    }
  }
}
