/** Peak records and the greedy frame-to-frame identity score. */
module Peaks {
  import opened Machine
  import opened Arithmetic

  const MAX_PEAKS := 20

  datatype Peak = Peak(
    r: nat, c: nat, z: s16, nbrSum: int, zoneArea: nat, zoneIndex: nat,
    id: u8, age: u8, vr: s8, vc: s8,
    onEdge: bool, fastStart: bool, continuationOnly: bool, slot: int)

  predicate OnGrid(p: Peak) { p.r < 40 && p.c < 60 }

  // Distances and scores of a current peak at (r, c) with signal z against a previous peak.

  function RawAt(r: nat, c: nat, prev: Peak): nat {
    Abs(r - prev.r) + Abs(c - prev.c)
  }

  /** Distance from where the previous peak was heading. */
  function PredictedAt(r: nat, c: nat, prev: Peak): nat {
    Abs(r - (prev.r + prev.vr)) + Abs(c - (prev.c + prev.vc))
  }

  predicate GatedAt(r: nat, c: nat, prev: Peak) {
    RawAt(r, c, prev) <= 10 || PredictedAt(r, c, prev) <= 6
  }

  function SignalTerm(z: int, prev: Peak): nat {
    var d := Abs(z - prev.z) / 64;
    if d < 32 then d else 32
  }

  predicate ReversesAt(r: nat, c: nat, prev: Peak) {
    && (prev.vr != 0 || prev.vc != 0)
    && (r - prev.r) * prev.vr + (c - prev.c) * prev.vc <= 0
    && RawAt(r, c, prev) > 1
  }

  function ScoreAt(r: nat, c: nat, z: int, prev: Peak): nat {
    PredictedAt(r, c, prev) * 16 + RawAt(r, c, prev) * 2 + SignalTerm(z, prev)
      + if ReversesAt(r, c, prev) then 48 else 0
  }

  /** Only near pairs compete for an identity. */
  predicate Gated(cur: Peak, prev: Peak) { GatedAt(cur.r, cur.c, prev) }

  function Score(cur: Peak, prev: Peak): nat { ScoreAt(cur.r, cur.c, cur.z, prev) }

  const INT_MAX := 0x7fff_ffff

  lemma DistancesFit(cur: Peak, prev: Peak)
    requires OnGrid(cur) && OnGrid(prev)
    ensures RawAt(cur.r, cur.c, prev) <= 98 && PredictedAt(cur.r, cur.c, prev) <= 354
  {
  }

  /** No pair of grid cells scores near the C integer limit the search starts from. */
  lemma ScoreFitsInt(cur: Peak, prev: Peak)
    requires OnGrid(cur) && OnGrid(prev)
    ensures Score(cur, prev) < INT_MAX
  {
    DistancesFit(cur, prev);
    assert Score(cur, prev) <= PredictedAt(cur.r, cur.c, prev) * 16 + RawAt(cur.r, cur.c, prev) * 2 + 80;
  }
}
