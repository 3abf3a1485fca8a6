/** Which peaks the detector ends up with, in samples of the frame. */
module FingerPeaks {
  import opened Arithmetic
  import opened Sealing
  import opened Grid
  import opened Components
  import opened Zones
  import opened Tables
  import opened Peaks
  import opened LocalMaxima
  import opened PeakFilters
  import opened PeakFinder
  import Tracks
  import SlotCycle

  /** The sample at (r, c) as far as it is positive; nothing off the grid. */
  function Signal(f: Frame, r: int, c: int): nat {
    if 0 <= r < 40 && 0 <= c < 60 && f[r * 60 + c] > 0 then f[r * 60 + c] else 0
  }

  /** What the eight cells around (r, c) add up to. */
  function EightAround(f: Frame, r: int, c: int): nat {
    Signal(f, r - 1, c - 1) + Signal(f, r - 1, c) + Signal(f, r - 1, c + 1) + Signal(f, r, c - 1)
    + Signal(f, r, c + 1) + Signal(f, r + 1, c - 1) + Signal(f, r + 1, c) + Signal(f, r + 1, c + 1)
  }

  /** One more term of the sum, row by row. */
  lemma NextTerm(f: Frame, r: int, c: int, dr: int, dc: int)
    requires -1 <= dr <= 1 && -1 <= dc <= 1
    ensures NeighbourSum(f, r, c, 3 * (dr + 1) + dc + 2)
      == NeighbourSum(f, r, c, 3 * (dr + 1) + dc + 1) + if dr == 0 && dc == 0 then 0 else Signal(f, r + dr, c + dc)
  {
    var k := 3 * (dr + 1) + dc + 1;
    assert k / 3 == dr + 1 && k % 3 == dc + 1;
  }

  lemma ThreeTerms(f: Frame, r: int, c: int, dr: int, k: nat)
    requires -1 <= dr <= 1 && k == 3 * (dr + 1)
    ensures NeighbourSum(f, r, c, k + 3) == NeighbourSum(f, r, c, k)
      + Signal(f, r + dr, c - 1) + (if dr == 0 then 0 else Signal(f, r + dr, c)) + Signal(f, r + dr, c + 1)
  {
    NextTerm(f, r, c, dr, -1);
    NextTerm(f, r, c, dr, 0);
    NextTerm(f, r, c, dr, 1);
  }

  lemma SumIsEightAround(f: Frame, r: int, c: int, k: nat)
    requires k == 0
    ensures NeighbourSum(f, r, c, k + 9) == EightAround(f, r, c)
  {
    ThreeTerms(f, r, c, -1, k);
    ThreeTerms(f, r, c, 0, k + 3);
    ThreeTerms(f, r, c, 1, k + 6);
  }

  // ----- candidates

  /** The threshold is another one next to the left and right edge and in the last row. */
  function Demanded(cfg: Config, r: nat, c: nat): int {
    if c in {1, 58} || r == 39 then cfg.edgeThreshold else cfg.threshold
  }

  /** Cell (r', c') does not exceed cell (r, c), and equals it only if it comes later. */
  predicate NotAbove(f: Frame, r: nat, c: nat, r': nat, c': nat)
    requires r < 40 && c < 60 && r' < 40 && c' < 60
  {
    f[r' * 60 + c'] < f[r * 60 + c] || (f[r' * 60 + c'] == f[r * 60 + c] && (r' > r || (r' == r && c' >= c)))
  }

  /** So it is of every cell of the window. */
  ghost predicate Tops(f: Frame, radius: int, r: nat, c: nat)
    requires r < 40 && c < 60
  {
    forall r': nat, c': nat | r' < 40 && c' < 60 && -radius <= r' - r <= radius && -radius <= c' - c <= radius ::
      NotAbove(f, r, c, r', c')
  }

  lemma PeakTops(f: Frame, radius: int, r: nat, c: nat)
    requires r < 40 && c < 60 && radius >= 0 && IsPeak(f, radius, Cell(r, c))
    ensures Tops(f, radius, r, c)
  {
    var a := Cell(r, c);
    forall r': nat, c': nat | r' < 40 && c' < 60 && -radius <= r' - r <= radius && -radius <= c' - c <= radius
      ensures NotAbove(f, r, c, r', c')
    {
      var b := Cell(r', c');
      assert Row(a) == r && Col(a) == c && Row(b) == r' && Col(b) == c';
      assert b != a ==> Beats(f, a, b);
    }
  }

  lemma ToppingBeats(f: Frame, radius: int, r: nat, c: nat, b: nat)
    requires r < 40 && c < 60 && Tops(f, radius, r, c) && b < PIXELS && b != Cell(r, c) && Near(Cell(r, c), b, radius)
    ensures Beats(f, Cell(r, c), b)
  {
    assert b == Row(b) * 60 + Col(b) && Row(b) < 40 && Col(b) < 60;
    assert NotAbove(f, r, c, Row(b), Col(b));
  }

  lemma ToppingIsPeak(f: Frame, radius: int, r: nat, c: nat)
    requires r < 40 && c < 60 && radius >= 0 && Tops(f, radius, r, c)
    ensures IsPeak(f, radius, Cell(r, c))
  {
    var a := Cell(r, c);
    forall b | 0 <= b < PIXELS && b != a && Near(a, b, radius) ensures Beats(f, a, b) {
      ToppingBeats(f, radius, r, c, b);
    }
  }

  /** The peak record of cell (r, c) of zone zi. */
  ghost predicate RecordOf(f: Frame, z: Zone, zi: nat, p: Peak) {
    && OnGrid(p) && p.z == f[p.r * 60 + p.c] && p.nbrSum == EightAround(f, p.r, p.c)
    && p.zoneArea == z.area && p.zoneIndex == zi && p.id == 0 && p.slot == -1
    && (p.onEdge <==> p.r in {0, 39} || p.c in {0, 59})
  }

  /** The scan finds exactly the zone cells that reach their threshold, top their window and are no drift. */
  lemma CandidatesInSamples(cfg: Config, f: Frame, drifts: set<nat>, arena: seq<nat>, zones: seq<Zone>, p: Peak)
    requires Samples(f) && forall i | 0 <= i < |zones| :: ZoneFits(arena, zones[i])
    requires p in Candidates(cfg, f, drifts, arena, zones, |zones|)
    ensures p.zoneIndex < |zones| && RecordOf(f, zones[p.zoneIndex], p.zoneIndex, p)
    ensures p.r * 60 + p.c in Slice(arena, zones[p.zoneIndex]) && p.r * 60 + p.c !in drifts
    ensures p.z >= Demanded(cfg, p.r, p.c) && Tops(f, Max(cfg.localRadius, 1), p.r, p.c)
  {
    CandidatesExact(cfg, f, drifts, arena, zones, |zones|, p);
    var zi :| 0 <= zi < |zones| && FromCells(cfg, f, drifts, zones[zi], zi, Slice(arena, zones[zi]), p);
    RecordIsOf(cfg, f, drifts, zones[zi], zi, Slice(arena, zones[zi]), p);
  }

  lemma RecordIsOf(cfg: Config, f: Frame, drifts: set<nat>, z: Zone, zi: nat, cells: seq<nat>, p: Peak)
    requires Samples(f) && FromCells(cfg, f, drifts, z, zi, cells, p)
    ensures RecordOf(f, z, zi, p) && p.r * 60 + p.c in cells && p.r * 60 + p.c !in drifts
    ensures p.z >= Demanded(cfg, p.r, p.c) && Tops(f, Max(cfg.localRadius, 1), p.r, p.c)
  {
    PeakAtCell(f, z, zi, CellOf(p));
    CellOfRowCol(CellOf(p));
    SumIsEightAround(f, p.r, p.c, 0);
    PeakTops(f, cfg.Radius(), p.r, p.c);
  }

  lemma CellIsCandidate(cfg: Config, f: Frame, drifts: set<nat>, arena: seq<nat>, zones: seq<Zone>, zi: nat, r: nat,
                        c: nat)
    returns (p: Peak)
    requires Samples(f) && (forall i | 0 <= i < |zones| :: ZoneFits(arena, zones[i])) && zi < |zones|
    requires r < 40 && c < 60 && r * 60 + c in Slice(arena, zones[zi]) && r * 60 + c !in drifts
    requires f[r * 60 + c] >= Demanded(cfg, r, c) && Tops(f, Max(cfg.localRadius, 1), r, c)
    ensures p in Candidates(cfg, f, drifts, arena, zones, |zones|) && p.r == r && p.c == c && p.zoneIndex == zi
  {
    p := PeakAt(f, zones[zi], zi, Cell(r, c));
    ToppingIsPeak(f, cfg.Radius(), r, c);
    CandidatesExact(cfg, f, drifts, arena, zones, |zones|, p);
  }

  // ----- saddles

  /** Cells on the way from one peak to another: as many steps as the longer side has. */
  function StepsBetween(a: Peak, b: Peak): nat { Max(Abs(a.r - b.r), Abs(a.c - b.c)) }

  /** x is nearest to the point s / n of the way from one coordinate to another. */
  predicate Nearest(x: int, from: int, to: int, s: nat, n: nat) {
    2 * Abs(n * (x - from) - s * (to - from)) <= n
  }

  lemma RoundedIsNearest(from: int, to: int, s: nat, n: nat)
    requires n > 0
    ensures Nearest(Between(from, to, s, n), from, to, s, n)
  {
    RoundedDiv((to - from) * s, n, Between(from, to, s, n) - from);
    Commutes(to - from, s);
  }

  lemma Commutes(a: int, b: int)
    ensures a * b == b * a
  {
  }

  lemma RoundedDiv(num: int, n: nat, d: int)
    requires n > 0 && d == if num >= 0 then Div(num + n / 2, n) else Div(num - n / 2, n)
    ensures 2 * Abs(n * d - num) <= n
  {
    if num >= 0 {
      RoundedUp(num, n);
    } else {
      RoundedUp(-num, n);
      assert d == -((-num + n / 2) / n);
      assert n * d == -(n * ((-num + n / 2) / n));
    }
  }

  lemma RoundedUp(num: nat, n: nat)
    requires n > 0
    ensures 2 * Abs(n * ((num + n / 2) / n) - num) <= n
  {
    var q := (num + n / 2) / n;
    assert num + n / 2 == n * q + (num + n / 2) % n;
  }

  /** The sample at step s of the straight way from a to b. */
  function OnTheWay(f: Frame, a: Peak, b: Peak, s: nat): nat
    requires StepsBetween(a, b) > 0
  {
    var n := StepsBetween(a, b);
    Signal(f, Between(a.r, b.r, s, n), Between(a.c, b.c, s, n))
  }

  lemma SaddleStep(f: Frame, a: Peak, b: Peak, k: nat)
    requires StepsBetween(a, b) > 0 && k > 1
    ensures SaddleUpTo(f, a, b, k) == Max(SaddleUpTo(f, a, b, k - 1), OnTheWay(f, a, b, k - 1))
  {
    assert Steps(a, b) == StepsBetween(a, b);
  }

  ghost predicate WayBelow(f: Frame, a: Peak, b: Peak, k: nat, bound: int)
    requires StepsBetween(a, b) > 0
  {
    forall s | 1 <= s < k :: OnTheWay(f, a, b, s) <= bound
  }

  lemma WayBelowStep(f: Frame, a: Peak, b: Peak, k: nat, bound: int)
    requires StepsBetween(a, b) > 0 && k > 1
    ensures WayBelow(f, a, b, k, bound) <==> WayBelow(f, a, b, k - 1, bound) && OnTheWay(f, a, b, k - 1) <= bound
  {
  }

  lemma {:induction false} SaddleBelow(f: Frame, a: Peak, b: Peak, k: nat, bound: int)
    requires StepsBetween(a, b) > 0 && k >= 1
    ensures SaddleUpTo(f, a, b, k) <= bound <==> 0 <= bound && WayBelow(f, a, b, k, bound)
  {
    if k > 1 {
      SaddleBelow(f, a, b, k - 1, bound);
      SaddleStep(f, a, b, k);
      WayBelowStep(f, a, b, k, bound);
    }
  }

  /** How far a dip must go below the weaker of two peaks: a fixed drop, or eight per cent. */
  function RequiredDrop(cfg: Config, weaker: nat): int { Max(cfg.saddleDrop, weaker * 8 / 100) }

  /** A real dip: every sample on the way, and the ground, is that far below the weaker one. */
  ghost predicate Dips(cfg: Config, f: Frame, a: Peak, b: Peak)
    requires StepsBetween(a, b) > 0 && a.z >= 0 && b.z >= 0
  {
    var weaker := Min(a.z, b.z);
    && RequiredDrop(cfg, weaker) <= weaker
    && WayBelow(f, a, b, StepsBetween(a, b), weaker - RequiredDrop(cfg, weaker))
  }

  /** Two peaks cannot both stay exactly when they lie in one zone within the saddle radius, without a real
      dip between them. */
  lemma ShallowExactlyWhen(cfg: Config, f: Frame, a: Peak, b: Peak)
    requires a.z >= 0 && b.z >= 0
    ensures Shallow(cfg, f, a, b) <==>
      a.zoneIndex == b.zoneIndex && 1 <= StepsBetween(a, b) <= cfg.saddleRadius && !Dips(cfg, f, a, b)
  {
    assert Steps(a, b) == StepsBetween(a, b);
    if StepsBetween(a, b) > 0 {
      var weaker := Min(a.z, b.z);
      SaddleBelow(f, a, b, StepsBetween(a, b), weaker - RequiredDrop(cfg, weaker));
    }
  }

  // ----- from the scanned candidates to the final table

  /** What the peak stage reports about one frame: its inputs, the candidates with those a full table
      dropped, and the table after each stage. */
  datatype Detection = Detection(
    cfg: Config, f: Frame, drifts: set<nat>, arena: seq<nat>, zones: seq<Zone>, x: Context, boxes: seq<PalmBox>,
    seen: seq<Peak>, dropped: multiset<Peak>, w: Trace)
  {
    /** Sealed. */
    ghost predicate Holds() { forall o {:trigger Open(o)} :: Open(o) ==> Facts() }

    ghost predicate Facts() {
      && Samples(f) && ZonesApart(arena, zones) && cfg.threshold >= 0 && cfg.edgeThreshold >= 0 && x.cfg == cfg
      && seen == Candidates(cfg, f, drifts, arena, zones, |zones|)
      && KeepsStrongest(StrengthOf, multiset(seen), w.kept, dropped) && Staged(cfg, f, x, boxes, w)
    }
  }

  lemma KeptAreCandidates(d: Detection)
    requires d.Holds()
    ensures forall k | 0 <= k < |d.w.kept| :: d.w.kept[k] in d.seen && d.w.kept[k].z >= 0
    ensures Rooted(d.f, d.cfg.Radius(), d.w.kept) && Valued(d.f, d.w.kept)
  {
    assert Open(0);
    CandidatesRooted(d.cfg, d.f, d.drifts, d.arena, d.zones, |d.zones|);
    KeptRooted(d.f, d.cfg.Radius(), d.seen, d.w.kept, d.dropped);
    KeptOutrankDropped(StrengthOf, multiset(d.seen), d.w.kept, d.dropped);
    forall k | 0 <= k < |d.w.kept| ensures d.w.kept[k] in d.seen && d.w.kept[k].z >= 0 {
      assert d.w.kept[k] in multiset(d.w.kept);
      assert d.w.kept[k] in multiset(d.seen);
      CandidatesInSamples(d.cfg, d.f, d.drifts, d.arena, d.zones, d.w.kept[k]);
    }
  }

  /** A peak that the saddle stage left is a candidate, unchanged. */
  lemma DippedAreKept(d: Detection)
    requires d.Holds()
    ensures forall p | p in d.w.dipped :: p in d.w.kept
    ensures CellsDiffer(d.w.dipped)
  {
    assert Open(0);
    KeptAreCandidates(d);
    if d.cfg.saddleEnabled {
      AliveRooted(d.cfg, d.f, d.cfg.Radius(), d.w.kept, d.w.struck);
      AliveSeparated(d.cfg, d.f, d.w.kept, d.w.struck);
      forall p | p in d.w.dipped ensures p in d.w.kept {
        var k :| 0 <= k < |d.w.dipped| && d.w.dipped[k] == p;
        assert p == d.w.kept[Origin(d.w.struck, Alive(), k)];
      }
    }
  }

  /** It carries the signal of its cell and of the eight cells around. */
  lemma DippedInSamples(d: Detection, p: Peak)
    requires d.Holds() && p in d.w.dipped
    ensures p.zoneIndex < |d.zones| && RecordOf(d.f, d.zones[p.zoneIndex], p.zoneIndex, p) && p.z >= 0
  {
    assert Open(0);
    KeptAreCandidates(d);
    DippedAreKept(d);
    CandidatesInSamples(d.cfg, d.f, d.drifts, d.arena, d.zones, p);
  }

  /** Of two peaks of one zone within the saddle radius both stay only with a real dip between them. */
  lemma SurvivorsDip(d: Detection, i: nat, j: nat)
    requires d.Holds() && d.cfg.saddleEnabled && i < j < |d.w.dipped|
    requires d.w.dipped[i].zoneIndex == d.w.dipped[j].zoneIndex
    ensures d.w.dipped[i].z >= 0 && d.w.dipped[j].z >= 0
    ensures 1 <= StepsBetween(d.w.dipped[i], d.w.dipped[j]) <= d.cfg.saddleRadius ==>
      Dips(d.cfg, d.f, d.w.dipped[i], d.w.dipped[j])
  {
    assert Open(0);
    KeptAreCandidates(d);
    DippedAreKept(d);
    AliveSeparated(d.cfg, d.f, d.w.kept, d.w.struck);
    ShallowExactlyWhen(d.cfg, d.f, d.w.dipped[i], d.w.dipped[j]);
  }

  /** No real dip, seen from at least one of the two ends. */
  ghost predicate Merge(cfg: Config, f: Frame, p: Peak, q: Peak) {
    && p.zoneIndex == q.zoneIndex && 1 <= StepsBetween(p, q) <= cfg.saddleRadius && p.z >= 0 && q.z >= 0
    && !(Dips(cfg, f, p, q) && Dips(cfg, f, q, p))
  }

  lemma ShallowMerges(cfg: Config, f: Frame, p: Peak, q: Peak)
    requires p.z >= 0 && q.z >= 0 && (Shallow(cfg, f, p, q) || Shallow(cfg, f, q, p))
    ensures Merge(cfg, f, p, q)
  {
    ShallowExactlyWhen(cfg, f, p, q);
    ShallowExactlyWhen(cfg, f, q, p);
  }

  lemma SaddleEquations(d: Detection)
    requires d.Holds()
    ensures if d.cfg.saddleEnabled then
              Struck(d.cfg, d.f, d.w.kept, d.w.struck) && d.w.dipped == Filter(d.w.struck, Alive())
            else d.w.dipped == d.w.kept
  {
    assert Open(0);
  }

  /** And a candidate of the table goes only if one at least as strong lies that close without a dip. */
  lemma GoneWithoutDip(d: Detection, p: Peak)
    requires d.Holds() && p in d.w.kept && p !in d.w.dipped
    ensures d.cfg.saddleEnabled && exists q | q in d.w.kept :: q.z >= p.z && Merge(d.cfg, d.f, p, q)
  {
    KeptAreCandidates(d);
    SaddleEquations(d);
    var k :| 0 <= k < |d.w.kept| && d.w.kept[k] == p;
    var m := StruckFor(d.cfg, d.f, d.w.kept, d.w.struck, k);
    ShallowMerges(d.cfg, d.f, p, d.w.kept[m]);
  }

  lemma StruckFor(cfg: Config, f: Frame, s: seq<Peak>, t: seq<Peak>, k: nat) returns (m: nat)
    requires Struck(cfg, f, s, t) && k < |s| && s[k].z >= 0 && s[k] !in Filter(t, Alive())
    ensures m < |s| && s[k].z <= s[m].z && (Shallow(cfg, f, s[k], s[m]) || Shallow(cfg, f, s[m], s[k]))
  {
    FilterIsSubsequence(t, Alive());
    assert SameOrStruck(s[k], t[k]);
    assert t[k] in t;
    assert Justified(cfg, f, s, k);
    m :| 0 <= m < |s| && m != k && s[k].z <= s[m].z && (Shallow(cfg, f, s[k], s[m]) || Shallow(cfg, f, s[m], s[k]));
  }

  /** With the filter on, a peak passes the isolation stage exactly when the eight cells around it add up to
      at least a thirty-second of it. */
  lemma PassesIsolationExactlyWhen(d: Detection, p: Peak)
    requires d.Holds() && p in d.w.dipped
    ensures p in d.w.dense <==> !d.cfg.z8Enabled || EightAround(d.f, p.r, p.c) >= p.z / 32
  {
    assert Open(0);
    DippedInSamples(d, p);
    FilterIsSubsequence(d.w.dipped, NotIsolated(d.cfg));
    assert NotIsolated(d.cfg)(p) <==> !d.cfg.z8Enabled || p.z / 32 <= p.nbrSum;
  }

  /** So one neighbour of that size is enough. */
  lemma OneNeighbourIsEnough(d: Detection, p: Peak, r: int, c: int)
    requires d.Holds() && p in d.w.dipped && (r != p.r || c != p.c)
    requires p.r - 1 <= r <= p.r + 1 && p.c - 1 <= c <= p.c + 1 && Signal(d.f, r, c) >= p.z / 32
    ensures p in d.w.dense
  {
    PassesIsolationExactlyWhen(d, p);
    PartOfEight(d.f, p.r, p.c, r, c);
  }

  lemma PartOfEight(f: Frame, r0: int, c0: int, r: int, c: int)
    requires (r != r0 || c != c0) && r0 - 1 <= r <= r0 + 1 && c0 - 1 <= c <= c0 + 1
    ensures EightAround(f, r0, c0) >= Signal(f, r, c)
  {
  }

  // ----- small peaks, palms and edges

  /** Where the peak's cell lies on the screen. */
  function OnScreenAt(p: Peak): Tracks.Pos { Tracks.Pos((p.c * 256 + 128) / 6, (p.r * 256 + 128) * 5 / 32) }

  /** Slot ti is a reported touch expected within the continuation distance of the peak. */
  ghost predicate Expects(x: Context, p: Peak, ti: nat)
    requires ti < |x.tracks|
  {
    var t, q := x.tracks[ti], OnScreenAt(p);
    var dx, dy := q.x - t.x - (t.missed as int + 1) * t.vx, q.y - t.y - (t.missed as int + 1) * t.vy;
    t.active && t.reported && dx * dx + dy * dy <= Max(x.cfg.continueDist2, 1)
  }

  /** Exactly one reported touch does. */
  ghost predicate ExpectedByOne(x: Context, p: Peak, ti: nat) {
    ti < |x.tracks| && Expects(x, p, ti) && forall k | 0 <= k < |x.tracks| && Expects(x, p, k) :: k == ti
  }

  lemma ExpectsIsInReach(x: Context, p: Peak, ti: nat)
    requires ti < |x.tracks|
    ensures InReach(x, p, ti) <==> Expects(x, p, ti)
  {
    var t := x.tracks[ti];
    assert t.vx * (t.missed as int + 1) == (t.missed as int + 1) * t.vx;
    assert t.vy * (t.missed as int + 1) == (t.missed as int + 1) * t.vy;
    assert Approx(p) == OnScreenAt(p);
  }

  lemma {:induction false} OnceReached(x: Context, p: Peak, k: nat, ti: nat)
    requires k <= |x.tracks| && forall m | 0 <= m < k :: InReach(x, p, m) <==> m == ti
    ensures Reached(x, p, k) == (if ti < k then 1 else 0) && LastReached(x, p, k) == if ti < k then ti else -1
  {
    if k > 0 {
      OnceReached(x, p, k - 1, ti);
    }
  }

  /** One touch expects the peak exactly when it may continue that one. */
  lemma OneReachedExactlyWhen(x: Context, p: Peak)
    ensures Reached(x, p, |x.tracks|) == 1 <==> exists ti :: ExpectedByOne(x, p, ti)
    ensures forall ti | ExpectedByOne(x, p, ti) :: LastReached(x, p, |x.tracks|) == ti
  {
    forall ti | 0 <= ti < |x.tracks| ensures InReach(x, p, ti) <==> Expects(x, p, ti) {
      ExpectsIsInReach(x, p, ti);
    }
    if Reached(x, p, |x.tracks|) == 1 {
      SoleReached(x, p, |x.tracks|);
      assert ExpectedByOne(x, p, LastReached(x, p, |x.tracks|));
    }
    forall ti | ExpectedByOne(x, p, ti)
      ensures Reached(x, p, |x.tracks|) == 1 && LastReached(x, p, |x.tracks|) == ti
    {
      OnceReached(x, p, |x.tracks|, ti);
    }
  }

  /** Large enough for the rules about small peaks, and not for a finger of its own. */
  predicate Small(cfg: Config, p: Peak) { cfg.continueMinArea <= p.zoneArea < cfg.macroMinArea }

  /** A lone strong small peak close to a border, right after a finger landed. */
  predicate StartsFast(x: Context, p: Peak, peaks: nat) {
    && x.fastPending && x.zoneCount == 1 && peaks == 1 && Small(x.cfg, p) && p.z >= x.cfg.fastMinSignal
    && Min(Min(p.r, 39 - p.r), Min(p.c, 59 - p.c)) < x.cfg.fastEdgeCells
  }

  /** A small peak off the border that one reported touch expects: strong, or the only thing there is. */
  ghost predicate OnlyContinues(x: Context, p: Peak) {
    && Small(x.cfg, p) && p.r !in {0, 39} && p.c !in {0, 59} && (exists ti :: ExpectedByOne(x, p, ti))
    && (p.z >= x.cfg.continueMinSignal
        || (SlotCycle.ReportedSlots(x.tracks, |x.tracks|) == 1 && x.zoneCount == 1 && x.fingerPresent
            && p.z >= x.cfg.singleTrackMinSignal))
  }

  /** Peaks that are large enough or on the border stay; small ones only to start fast or to continue. */
  ghost predicate LargeEnough(x: Context, p: Peak, peaks: nat) {
    || p.zoneArea >= x.cfg.macroMinArea || p.r in {0, 39} || p.c in {0, 59}
    || StartsFast(x, p, peaks) || OnlyContinues(x, p)
  }

  predicate InPalm(boxes: seq<PalmBox>, p: Peak) {
    exists i | 0 <= i < |boxes| :: boxes[i].minR <= p.r <= boxes[i].maxR && boxes[i].minC <= p.c <= boxes[i].maxC
  }

  /** Weak next to the strongest peak of the same border column. */
  predicate WeakOnEdge(w: Trace, p: Peak) {
    || (p.c == 0 && p.z < w.leftMax / 8 * 5)
    || (p.c == 59 && p.z < w.rightMax / 8 * 5)
  }

  lemma StaysExactlyWhen(x: Context, p: Peak)
    requires OnGrid(p) && (p.onEdge <==> p.r in {0, 39} || p.c in {0, 59})
    ensures Stays(x, p) <==> LargeEnough(x, p, x.peakCount)
    ensures Bound(x, p).continuationOnly <==> OnlyContinues(x, p)
    ensures Bound(x, p).fastStart <==> StartsFast(x, p, x.peakCount)
    ensures forall ti | OnlyContinues(x, p) && ExpectedByOne(x, p, ti) :: Bound(x, p).slot == ti
  {
    OneReachedExactlyWhen(x, p);
  }

  /** Binding tells no two peaks together, since no two share a cell. */
  lemma BoundExactlyWhen(x: Context, all: seq<Peak>, dense: seq<Peak>, p: Peak)
    requires CellsDiffer(all) && p in all && forall q | q in dense :: q in all
    ensures Bound(x, p) in AllBound(x, Filter(dense, StaysIn(x))) <==> p in dense && Stays(x, p)
  {
    FilterIsSubsequence(dense, StaysIn(x));
    var s := Filter(dense, StaysIn(x));
    assert p in s <==> p in dense && Stays(x, p) by {
      assert StaysIn(x)(p) == Stays(x, p);
    }
    if Bound(x, p) in AllBound(x, s) {
      var k :| 0 <= k < |s| && Bound(x, s[k]) == Bound(x, p);
      SameCellSamePeak(all, s[k], p);
    }
    if k :| 0 <= k < |s| && s[k] == p {
      assert AllBound(x, s)[k] == Bound(x, p);
    }
  }

  lemma SameCellSamePeak(s: seq<Peak>, p: Peak, q: Peak)
    requires CellsDiffer(s) && p in s && q in s && p.r == q.r && p.c == q.c
    ensures p == q
  {
    var i :| 0 <= i < |s| && s[i] == p;
    var j :| 0 <= j < |s| && s[j] == q;
  }

  lemma ClearedExactlyWhen(w: Trace, boxes: seq<PalmBox>, b: Peak)
    requires w.clear == Filter(w.bound, OutsideAll(boxes))
    requires w.left == Trimmed(w.clear, 0, w.leftMax) && w.right == Trimmed(w.left, 59, w.rightMax)
    requires b.z >= 0
    ensures b in w.right <==> b in w.bound && !InPalm(boxes, b) && !WeakOnEdge(w, b)
  {
    FilterIsSubsequence(w.bound, OutsideAll(boxes));
    FilterIsSubsequence(w.clear, EdgeKeeps(0, w.leftMax));
    FilterIsSubsequence(w.left, EdgeKeeps(59, w.rightMax));
    assert OutsideAll(boxes)(b) <==> !InPalm(boxes, b);
    assert EdgeKeeps(0, w.leftMax)(b) <==> !(b.c == 0 && b.z < w.leftMax / 8 * 5);
    assert EdgeKeeps(59, w.rightMax)(b) <==> !(b.c == 59 && b.z < w.rightMax / 8 * 5);
  }

  /** The final table holds exactly the peaks left by the saddle stage that are no lone spikes, are large
      enough, lie in no palm box, and are not weak on an edge column. */
  lemma FinalExactlyWhen(d: Detection, p: Peak)
    requires d.Holds() && p in d.w.dipped
    ensures var x := d.x.(peakCount := |d.w.dense|);
      Bound(x, p) in d.w.right <==>
        (d.cfg.z8Enabled ==> EightAround(d.f, p.r, p.c) >= p.z / 32) && LargeEnough(d.x, p, |d.w.dense|)
        && !InPalm(d.boxes, p) && !WeakOnEdge(d.w, p)
  {
    var x := d.x.(peakCount := |d.w.dense|);
    DippedInSamples(d, p);
    PassesIsolationExactlyWhen(d, p);
    StaysExactlyWhen(x, p);
    BoundInFinal(d, x, p);
    SameLargeEnough(d.x, x, p);
  }

  /** Nothing else gets in, and no stage changes what a peak says about its cell. */
  lemma FinalComesFrom(d: Detection, q: Peak) returns (p: Peak)
    requires d.Holds() && q in d.w.right
    ensures p in d.w.dipped && q == Bound(d.x.(peakCount := |d.w.dense|), p) && q.r < 40 && q.c < 60
    ensures q.r == p.r && q.c == p.c && q.z == p.z == d.f[q.r * 60 + q.c] >= 0
  {
    var x := d.x.(peakCount := |d.w.dense|);
    StageEquations(d, x);
    DenseAreDipped(d.w, d.cfg);
    RightAreBound(d.w, d.boxes, q);
    p := BoundComesFrom(x, d.w.dense, q);
    DippedInSamples(d, p);
  }

  lemma RightAreBound(w: Trace, boxes: seq<PalmBox>, q: Peak)
    requires w.clear == Filter(w.bound, OutsideAll(boxes))
    requires w.left == Trimmed(w.clear, 0, w.leftMax) && w.right == Trimmed(w.left, 59, w.rightMax) && q in w.right
    ensures q in w.bound
  {
    FilterIsSubsequence(w.left, EdgeKeeps(59, w.rightMax));
    FilterIsSubsequence(w.clear, EdgeKeeps(0, w.leftMax));
    FilterIsSubsequence(w.bound, OutsideAll(boxes));
  }

  lemma BoundComesFrom(x: Context, dense: seq<Peak>, q: Peak) returns (p: Peak)
    requires q in AllBound(x, Filter(dense, StaysIn(x)))
    ensures p in dense && q == Bound(x, p)
  {
    FilterIsSubsequence(dense, StaysIn(x));
    var s := Filter(dense, StaysIn(x));
    var k :| 0 <= k < |s| && AllBound(x, s)[k] == q;
    p := s[k];
  }

  /** A spike of 32 or more among silent cells never ends up in the table while the filter is on. */
  lemma NoLoneSpike(d: Detection, q: Peak)
    requires d.Holds() && q in d.w.right && d.cfg.z8Enabled
    ensures 0 <= q.r < 40 && 0 <= q.c < 60 && EightAround(d.f, q.r, q.c) >= d.f[q.r * 60 + q.c] / 32
  {
    var p := FinalComesFrom(d, q);
    DippedInSamples(d, p);
    FinalExactlyWhen(d, p);
  }

  lemma BoundInFinal(d: Detection, x: Context, p: Peak)
    requires d.Holds() && p in d.w.dipped && x == d.x.(peakCount := |d.w.dense|) && p.z >= 0
    ensures Bound(x, p) in d.w.right <==>
      p in d.w.dense && Stays(x, p) && !InPalm(d.boxes, p) && !WeakOnEdge(d.w, p)
  {
    StageEquations(d, x);
    DippedAreKept(d);
    DenseAreDipped(d.w, d.cfg);
    BoundExactlyWhen(x, d.w.dipped, d.w.dense, p);
    ClearedExactlyWhen(d.w, d.boxes, Bound(x, p));
  }

  lemma DenseAreDipped(w: Trace, cfg: Config)
    requires w.dense == Filter(w.dipped, NotIsolated(cfg))
    ensures forall q | q in w.dense :: q in w.dipped
  {
    FilterIsSubsequence(w.dipped, NotIsolated(cfg));
  }

  lemma StageEquations(d: Detection, x: Context)
    requires d.Holds() && x == d.x.(peakCount := |d.w.dense|)
    ensures d.w.dense == Filter(d.w.dipped, NotIsolated(d.cfg))
    ensures d.w.bound == AllBound(x, Filter(d.w.dense, StaysIn(x)))
    ensures d.w.clear == Filter(d.w.bound, OutsideAll(d.boxes))
    ensures d.w.left == Trimmed(d.w.clear, 0, d.w.leftMax) && d.w.right == Trimmed(d.w.left, 59, d.w.rightMax)
    ensures IsColumnMax(d.w.clear, 0, d.w.leftMax) && IsColumnMax(d.w.left, 59, d.w.rightMax)
  {
    assert Open(0);
  }

  /** The number of peaks matters to a fast start only. */
  lemma SameLargeEnough(x: Context, y: Context, p: Peak)
    requires y == x.(peakCount := y.peakCount)
    ensures LargeEnough(x, p, y.peakCount) <==> LargeEnough(y, p, y.peakCount)
  {
    forall ti ensures ExpectedByOne(x, p, ti) <==> ExpectedByOne(y, p, ti) {
      forall k | 0 <= k < |x.tracks| ensures Expects(x, p, k) <==> Expects(y, p, k) {
      }
    }
  }
}
