/** Which detection may continue which slot, and at what price. */
module MatchCosts {
  import opened Arithmetic
  import opened Tracks
  import opened Hungarian
  import opened Assigner

  /** Squared match distance, widened for a track that missed frames. */
  function Gate2(cfg: Config, t: Track): int {
    Max(cfg.dist2Max, 1) * if t.missed > 0 then Min(t.missed as int + 1, 4) else 1
  }

  function Unmatched(cfg: Config): int { Max(cfg.dist2Max, 1) * 16 }

  predicate InGate(cfg: Config, t: Track, p: Pos) {
    Dist2Predicted(p, t) <= Gate2(cfg, t)
  }

  /** Not a continuation-only contact. */
  predicate Regular(contacts: seq<Contact>, j: nat) {
    j < |contacts| ==> !contacts[j].continuationOnly
  }

  predicate SamePeak(t: Track, contacts: seq<Contact>, j: nat) {
    j < |contacts| && t.peakId != 0 && contacts[j].peakId == t.peakId
  }

  predicate DifferentPeak(t: Track, contacts: seq<Contact>, j: nat) {
    j < |contacts| && t.peakId != 0 && contacts[j].peakId != 0 && t.peakId != contacts[j].peakId
  }

  /** Among the first k detections, some regular one lies in the track's gate. */
  ghost predicate RegularInGate(cfg: Config, t: Track, det: seq<Pos>, contacts: seq<Contact>, k: nat)
    requires k <= |det|
  {
    exists j :: 0 <= j < k && Regular(contacts, j) && InGate(cfg, t, det[j])
  }

  /** Among them, some regular one with the track's own peak lies in its gate. */
  ghost predicate OwnPeakInGate(cfg: Config, t: Track, det: seq<Pos>, contacts: seq<Contact>, k: nat)
    requires k <= |det|
  {
    exists j :: 0 <= j < k && Regular(contacts, j) && InGate(cfg, t, det[j]) && SamePeak(t, contacts, j)
  }

  function AgeWeight(t: Track): int {
    1 + Min(t.peakAge as int, 20) / 10
  }

  /** Price of continuing track t, in slot ti, with detection j. */
  function PriceOf(cfg: Config, ti: nat, t: Track, p: Pos, contacts: seq<Contact>, j: nat, regular: bool,
                   own: bool): int {
    if j < |contacts| && contacts[j].continuationOnly && (contacts[j].slot != ti || regular) then INF
    else if !InGate(cfg, t, p) then INF
    else if DifferentPeak(t, contacts, j) then
      (if own then Ray(p, t) else Dist2Predicted(p, t)) + cfg.peakIdPenalty * AgeWeight(t)
    else Dist2Predicted(p, t)
  }

  ghost function PairPrice(cfg: Config, ti: nat, t: Track, det: seq<Pos>, contacts: seq<Contact>, j: nat): int
    requires j < |det|
  {
    PriceOf(cfg, ti, t, det[j], contacts, j,
            RegularInGate(cfg, t, det, contacts, |det|), OwnPeakInGate(cfg, t, det, contacts, |det|))
  }

  /** Detection j may continue the track in slot ti: it is within the gate, and a continuation-only
      contact only continues the slot it is bound to, and only if no regular contact could. */
  ghost predicate MayContinue(cfg: Config, ti: nat, t: Track, det: seq<Pos>, contacts: seq<Contact>, j: nat)
    requires j < |det|
  {
    && InGate(cfg, t, det[j])
    && (!Regular(contacts, j) ==> contacts[j].slot == ti && !RegularInGate(cfg, t, det, contacts, |det|))
  }

  /** Within the tunables' ranges, a price is either a small number or the sentinel, and the
      sentinel marks exactly the forbidden pairs. */
  lemma PriceIsSmallExactlyWhenAllowed(cfg: Config, ti: nat, t: Track, det: seq<Pos>, contacts: seq<Contact>, j: nat)
    requires cfg.Valid() && j < |det|
    ensures MayContinue(cfg, ti, t, det, contacts, j) ==> 0 <= PairPrice(cfg, ti, t, det, contacts, j) <= 7 * 16777216
    ensures !MayContinue(cfg, ti, t, det, contacts, j) ==> PairPrice(cfg, ti, t, det, contacts, j) == INF
  {
    ProductBound(cfg.peakIdPenalty, AgeWeight(t), 16777216);
    ProductBound(Max(cfg.dist2Max, 1), if t.missed > 0 then Min(t.missed as int + 1, 4) else 1, 16777216);
    if cfg.peakIdPenalty * AgeWeight(t) < 0 {
      assert false;
    }
  }

  /** The whole table: one dummy column per track behind the detections. */
  ghost function Table(cfg: Config, tracks: seq<Track>, active: seq<nat>, det: seq<Pos>,
                       contacts: seq<Contact>): (c: Costs)
    requires forall r | 0 <= r < |active| :: active[r] < |tracks|
    ensures |c| == |active| && forall r | 0 <= r < |active| :: |c[r]| == |det| + |active|
    ensures forall r, j | 0 <= r < |active| && 0 <= j < |det| ::
      c[r][j] == PairPrice(cfg, active[r], tracks[active[r]], det, contacts, j)
    ensures forall r, j | 0 <= r < |active| && |det| <= j < |det| + |active| :: c[r][j] == Unmatched(cfg)
  {
    seq(|active|, r requires 0 <= r < |active| =>
      seq(|det| + |active|, j requires 0 <= j < |det| + |active| =>
        if j < |det| then PairPrice(cfg, active[r], tracks[active[r]], det, contacts, j) else Unmatched(cfg)))
  }

  lemma TableIsProblem(cfg: Config, tracks: seq<Track>, active: seq<nat>, det: seq<Pos>, contacts: seq<Contact>)
    requires cfg.Valid() && forall r | 0 <= r < |active| :: active[r] < |tracks|
    ensures IsProblem(Table(cfg, tracks, active, det, contacts), |active|, |det|, Unmatched(cfg))
  {
    var c := Table(cfg, tracks, active, det, contacts);
    forall r, j | 0 <= r < |active| && 0 <= j < |det| ensures 0 <= c[r][j] <= INF {
      PriceIsSmallExactlyWhenAllowed(cfg, active[r], tracks[active[r]], det, contacts, j);
    }
  }

  // ----- the greedy matcher

  /** Track by track, the cheapest detection nobody took before, first one on ties; none when all are
      forbidden. */
  ghost predicate GreedyChoice(c: Costs, f: seq<int>, d: nat, r: nat)
    requires r < |c| && r < |f| && d <= |c[r]|
  {
    && -1 <= f[r] < d
    && (f[r] >= 0 ==> c[r][f[r]] < INF && !Taken(f, r, f[r]))
    && (forall j | 0 <= j < d && !Taken(f, r, j) && c[r][j] < INF ::
          f[r] >= 0 && (c[r][f[r]] < c[r][j] || (c[r][f[r]] == c[r][j] && f[r] <= j)))
  }

  ghost predicate Taken(f: seq<int>, r: nat, j: int)
    requires r <= |f|
  {
    exists s :: 0 <= s < r && f[s] == j
  }

  ghost predicate IsGreedy(c: Costs, f: seq<int>, n: nat, d: nat) {
    |c| == n && |f| == n && (forall r | 0 <= r < n :: |c[r]| >= d) && forall r | 0 <= r < n :: GreedyChoice(c, f, d, r)
  }

  lemma GreedyIsOneToOne(c: Costs, f: seq<int>, n: nat, d: nat)
    requires IsGreedy(c, f, n, d)
    ensures OneToOne(f, n, d)
  {
    forall r | 0 <= r < n ensures -1 <= f[r] < d {
      assert GreedyChoice(c, f, d, r);
    }
    forall r, s | 0 <= r < s < n && f[r] >= 0 ensures f[r] != f[s] {
      assert GreedyChoice(c, f, d, s);
      if f[r] == f[s] {
        assert Taken(f, s, f[s]);
      }
    }
  }

  /** The optimal matcher never pays more than the greedy one, whatever the greedy one picks. */
  lemma OptimalNeverDearerThanGreedy(c: Costs, n: nat, d: nat, unmatched: int, best: seq<int>, greedy: seq<int>)
    requires IsProblem(c, n, d, unmatched) && IsCheapest(c, n, d, unmatched, best) && IsGreedy(c, greedy, n, d)
    ensures OneToOne(greedy, n, d)
    ensures TotalPrice(c, unmatched, best, n) <= TotalPrice(c, unmatched, greedy, n)
  {
    GreedyIsOneToOne(c, greedy, n, d);
  }

  /** What either matcher promises. */
  ghost predicate Sound(cfg: Config, tracks: seq<Track>, active: seq<nat>, det: seq<Pos>, contacts: seq<Contact>,
                        f: seq<int>)
    requires forall r | 0 <= r < |active| :: active[r] < |tracks|
  {
    && OneToOne(f, |active|, |det|)
    && forall r | 0 <= r < |active| && f[r] >= 0 ::
         MayContinue(cfg, active[r], tracks[active[r]], det, contacts, f[r])
  }

  /** Prices below the sentinel are what soundness needs. */
  lemma PricedIsSound(cfg: Config, tracks: seq<Track>, active: seq<nat>, det: seq<Pos>, contacts: seq<Contact>,
                      f: seq<int>)
    requires cfg.Valid() && forall r | 0 <= r < |active| :: active[r] < |tracks|
    requires OneToOne(f, |active|, |det|)
    requires forall r | 0 <= r < |active| && f[r] >= 0 :: Table(cfg, tracks, active, det, contacts)[r][f[r]] < INF
    ensures Sound(cfg, tracks, active, det, contacts, f)
  {
    forall r | 0 <= r < |active| && f[r] >= 0
      ensures MayContinue(cfg, active[r], tracks[active[r]], det, contacts, f[r])
    {
      PriceIsSmallExactlyWhenAllowed(cfg, active[r], tracks[active[r]], det, contacts, f[r]);
    }
  }
}
