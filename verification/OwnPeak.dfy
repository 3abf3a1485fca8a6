/** Which detection a track follows, in distances: its own peak before a stranger, the nearer before the
    farther, and never none while one of them is free. */
module OwnPeak {
  import opened Arithmetic
  import opened Tracks
  import opened Hungarian
  import M = MatchCosts
  import opened SlotCycle
  import opened Tracker

  /** Squared distance from where the track is expected k frames on. */
  function AwayAfter(t: Track, p: Pos, k: nat): int {
    var dx, dy := p.x - t.x - k * t.vx, p.y - t.y - k * t.vy;
    dx * dx + dy * dy
  }

  /** From where it is expected now, one frame on for each it missed. */
  function Away(t: Track, p: Pos): int { AwayAfter(t, p, t.missed as int + 1) }

  /** From the nearest point of its way over the next frames. */
  function AwayFromRay(t: Track, p: Pos): int {
    Min(Away(t, p), Min(AwayAfter(t, p, 2), Min(AwayAfter(t, p, 3), AwayAfter(t, p, 4))))
  }

  /** How far a track looks: further after missed frames, up to fourfold. */
  function Reach(cfg: Config, t: Track): int {
    Max(cfg.dist2Max, 1) * if t.missed == 0 then 1 else if t.missed >= 3 then 4 else t.missed as int + 1
  }

  /** What it takes to leave the own peak: more for an older one. */
  function Loyalty(cfg: Config, t: Track): int {
    cfg.peakIdPenalty * if t.peakAge < 10 then 1 else if t.peakAge < 20 then 2 else 3
  }

  /** Detection j comes from another peak than the track. */
  predicate Stranger(f: Frame, t: Track, j: nat) {
    j < |f.contacts| && t.peakId != 0 && f.contacts[j].peakId != 0 && f.contacts[j].peakId != t.peakId
  }

  predicate Ordinary(f: Frame, j: nat) { j < |f.contacts| ==> !f.contacts[j].continuationOnly }

  /** A detection of the track's own peak is in reach. */
  ghost predicate OwnInReach(f: Frame, t: Track) {
    exists j: nat :: j < |f.det| && j < |f.contacts| && Ordinary(f, j) && Away(t, f.det[j]) <= Reach(f.cfg, t)
      && t.peakId != 0 && f.contacts[j].peakId == t.peakId
  }

  /** How far detection j counts as being, for track t. */
  ghost function Apart(f: Frame, t: Track, j: nat): int
    requires j < |f.det|
  {
    if !Stranger(f, t, j) then Away(t, f.det[j])
    else (if OwnInReach(f, t) then AwayFromRay(t, f.det[j]) else Away(t, f.det[j])) + Loyalty(f.cfg, t)
  }

  // ----- prices are these distances

  lemma SameDistance(t: Track, p: Pos, k: nat)
    ensures Dist2After(p, t, k) == AwayAfter(t, p, k)
  {
    assert t.vx * k == k * t.vx && t.vy * k == k * t.vy;
  }

  lemma AwayIsPredicted(t: Track, p: Pos)
    ensures Dist2Predicted(p, t) == Away(t, p)
  {
    SameDistance(t, p, t.missed as int + 1);
  }

  lemma RayIsNearest(t: Track, p: Pos)
    ensures Ray(p, t) == AwayFromRay(t, p)
  {
    AwayIsPredicted(t, p);
    SameDistance(t, p, 2);
    SameDistance(t, p, 3);
    SameDistance(t, p, 4);
    if t.vx == 0 && t.vy == 0 {
      StillIsStill(t, p, t.missed as int + 1);
      StillIsStill(t, p, 2);
      StillIsStill(t, p, 3);
      StillIsStill(t, p, 4);
    } else {
      assert RayUpTo(p, t, 1) == Dist2Predicted(p, t);
      assert RayUpTo(p, t, 2) == Min(RayUpTo(p, t, 1), Dist2After(p, t, 2));
      assert RayUpTo(p, t, 3) == Min(RayUpTo(p, t, 2), Dist2After(p, t, 3));
      assert RayUpTo(p, t, 4) == Min(RayUpTo(p, t, 3), Dist2After(p, t, 4));
    }
  }

  lemma StillIsStill(t: Track, p: Pos, k: nat)
    requires t.vx == 0 && t.vy == 0
    ensures AwayAfter(t, p, k) == AwayAfter(t, p, 0)
  {
  }

  lemma ReachIsGate(f: Frame, t: Track, j: nat)
    requires j < |f.det|
    ensures M.InGate(f.cfg, t, f.det[j]) <==> Away(t, f.det[j]) <= Reach(f.cfg, t)
  {
    AwayIsPredicted(t, f.det[j]);
  }

  lemma OwnIsOwn(f: Frame, t: Track)
    ensures OwnInReach(f, t) <==> M.OwnPeakInGate(f.cfg, t, f.det, f.contacts, |f.det|)
  {
    forall j: nat | j < |f.det|
      ensures M.InGate(f.cfg, t, f.det[j]) <==> Away(t, f.det[j]) <= Reach(f.cfg, t)
    {
      ReachIsGate(f, t, j);
    }
  }

  /** An ordinary detection in reach costs its distance. */
  lemma PriceIsDistance(f: Frame, ti: nat, t: Track, j: nat)
    requires f.Valid() && j < |f.det| && Ordinary(f, j) && Away(t, f.det[j]) <= Reach(f.cfg, t)
    ensures M.PairPrice(f.cfg, ti, t, f.det, f.contacts, j) == Apart(f, t, j) < INF
  {
    AwayIsPredicted(t, f.det[j]);
    RayIsNearest(t, f.det[j]);
    OwnIsOwn(f, t);
    ReachIsGate(f, t, j);
    M.PriceIsSmallExactlyWhenAllowed(f.cfg, ti, t, f.det, f.contacts, j);
    assert M.AgeWeight(t) == if t.peakAge < 10 then 1 else if t.peakAge < 20 then 2 else 3;
  }

  /** And every allowed detection does. */
  lemma PriceIsNoLess(f: Frame, ti: nat, t: Track, j: nat)
    requires f.Valid() && j < |f.det|
    ensures M.PairPrice(f.cfg, ti, t, f.det, f.contacts, j) == INF
      || M.PairPrice(f.cfg, ti, t, f.det, f.contacts, j) == Apart(f, t, j)
  {
    AwayIsPredicted(t, f.det[j]);
    RayIsNearest(t, f.det[j]);
    OwnIsOwn(f, t);
    ReachIsGate(f, t, j);
    assert M.AgeWeight(t) == if t.peakAge < 10 then 1 else if t.peakAge < 20 then 2 else 3;
  }

  // ----- exchanging one choice

  lemma {:induction false} SwapPrice(c: Costs, unmatched: int, g: seq<int>, r: nat, a: int, k: nat)
    requires r < |g| && k <= |c| && k <= |g| && (forall i | 0 <= i < k :: -1 <= g[i] < |c[i]|)
    requires r < |c| && 0 <= a < |c[r]|
    ensures k <= r ==> TotalPrice(c, unmatched, g[r := a], k) == TotalPrice(c, unmatched, g, k)
    ensures k > r ==>
      TotalPrice(c, unmatched, g[r := a], k)
        == TotalPrice(c, unmatched, g, k) + c[r][a] - if g[r] < 0 then unmatched else c[r][g[r]]
  {
    if k > 0 {
      SwapPrice(c, unmatched, g, r, a, k - 1);
    }
  }

  /** No other row has chosen detection a. */
  ghost predicate FreeFor(g: seq<int>, r: nat, a: nat) {
    forall k | 0 <= k < |g| && k != r :: g[k] != a
  }

  /** A matcher's result: the matches g of the active slots. */
  ghost predicate Matched(f: Frame, s: seq<Track>, active: seq<nat>, g: seq<int>) {
    && f.Valid() && ActiveList(s, active) && M.Sound(f.cfg, s, active, f.det, f.contacts, g)
    && BestOrGreedy(f, s, active, g)
  }

  /** A free detection is never cheaper than what the row got, or than nothing. */
  lemma FreeIsNoCheaper(f: Frame, s: seq<Track>, active: seq<nat>, g: seq<int>, r: nat, a: nat)
    requires Matched(f, s, active, g) && r < |active| && a < |f.det| && FreeFor(g, r, a)
    ensures var price := M.PairPrice(f.cfg, active[r], s[active[r]], f.det, f.contacts, a);
      && (g[r] >= 0 && price < INF ==>
            M.PairPrice(f.cfg, active[r], s[active[r]], f.det, f.contacts, g[r]) <= price)
      && (g[r] < 0 ==> price >= if f.cfg.hungarian then 16 * Max(f.cfg.dist2Max, 1) else INF)
  {
    var c := M.Table(f.cfg, s, active, f.det, f.contacts);
    M.PriceIsSmallExactlyWhenAllowed(f.cfg, active[r], s[active[r]], f.det, f.contacts, a);
    if f.cfg.hungarian {
      var other := g[r := a];
      assert OneToOne(other, |active|, |f.det|);
      SwapPrice(c, M.Unmatched(f.cfg), g, r, a, |active|);
    } else {
      assert GreedyFree(c, g, |f.det|, r, a);
    }
  }

  ghost predicate GreedyFree(c: Costs, g: seq<int>, d: nat, r: nat, a: nat)
    requires r < |c| && r < |g| && d <= |c[r]|
  {
    M.GreedyChoice(c, g, d, r) && !M.Taken(g, r, a)
  }

  // ----- what a track follows

  /** Of two ordinary detections in reach, a track never takes the one that counts as farther while the
      other is free. A stranger counts as farther by the loyalty to the own peak. */
  lemma NearerWins(f: Frame, s: seq<Track>, active: seq<nat>, g: seq<int>, r: nat, near: nat, far: nat)
    requires Matched(f, s, active, g) && r < |active| && near < |f.det| && far < |f.det| && FreeFor(g, r, near)
    requires var t := s[active[r]];
      Ordinary(f, near) && Away(t, f.det[near]) <= Reach(f.cfg, t) && Apart(f, t, near) < Apart(f, t, far)
    ensures g[r] != far
  {
    var t := s[active[r]];
    FreeIsNoCheaper(f, s, active, g, r, near);
    PriceIsDistance(f, active[r], t, near);
    PriceIsNoLess(f, active[r], t, far);
  }

  /** A finger keeps its own peak: a stranger gets the track only if it is nearer to its way by at least
      the penalty, which doubles and trebles with the age of the peak. */
  lemma OwnPeakWins(f: Frame, s: seq<Track>, active: seq<nat>, g: seq<int>, r: nat, own: nat, other: nat)
    requires Matched(f, s, active, g) && r < |active| && own < |f.det| && other < |f.det| && FreeFor(g, r, own)
    requires own < |f.contacts| && other < |f.contacts| && !f.contacts[own].continuationOnly
    requires var t := s[active[r]];
      && t.peakId != 0 && f.contacts[own].peakId == t.peakId && Away(t, f.det[own]) <= Reach(f.cfg, t)
      && f.contacts[other].peakId != 0 && f.contacts[other].peakId != t.peakId
      && Away(t, f.det[own]) < AwayFromRay(t, f.det[other])
           + f.cfg.peakIdPenalty * if t.peakAge < 10 then 1 else if t.peakAge < 20 then 2 else 3
    ensures g[r] != other
  {
    assert OwnInReach(f, s[active[r]]);
    NearerWins(f, s, active, g, r, own, other);
  }

  /** No track goes without while an ordinary detection in reach is free that counts as less than sixteen
      times the match distance away; so not while one of its own peak is. */
  lemma NotLeftOut(f: Frame, s: seq<Track>, active: seq<nat>, g: seq<int>, r: nat, a: nat)
    requires Matched(f, s, active, g) && r < |active| && a < |f.det| && FreeFor(g, r, a)
    requires Ordinary(f, a) && Away(s[active[r]], f.det[a]) <= Reach(f.cfg, s[active[r]])
    ensures Apart(f, s[active[r]], a) < 16 * Max(f.cfg.dist2Max, 1) || !f.cfg.hungarian ==> g[r] >= 0
    ensures !Stranger(f, s[active[r]], a) ==> g[r] >= 0
  {
    FreeIsNoCheaper(f, s, active, g, r, a);
    PriceIsDistance(f, active[r], s[active[r]], a);
  }

  /** Nothing out of reach is followed; a contact that may only continue a slot continues no other, and
      that one only when no ordinary detection is in its reach. */
  lemma OnlyInReach(f: Frame, s: seq<Track>, active: seq<nat>, g: seq<int>, r: nat)
    requires Matched(f, s, active, g) && r < |active| && g[r] >= 0
    ensures g[r] < |f.det| && Away(s[active[r]], f.det[g[r]]) <= Reach(f.cfg, s[active[r]])
    ensures !Ordinary(f, g[r]) ==>
      f.contacts[g[r]].slot == active[r]
      && forall j: nat | j < |f.det| && Ordinary(f, j) :: Away(s[active[r]], f.det[j]) > Reach(f.cfg, s[active[r]])
  {
    var t := s[active[r]];
    ReachIsGate(f, t, g[r]);
    assert M.MayContinue(f.cfg, active[r], t, f.det, f.contacts, g[r]);
    if !Ordinary(f, g[r]) {
      forall j: nat | j < |f.det| && Ordinary(f, j) ensures Away(t, f.det[j]) > Reach(f.cfg, t) {
        ReachIsGate(f, t, j);
      }
    }
  }
}
