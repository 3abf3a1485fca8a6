/** The peak stage over its fixed table: scan, saddles, isolation, small peaks, palms, edges, order. */
module PeakFinder {
  import opened Grid
  import opened Pigeonhole
  import opened Sealing
  import opened Components
  import opened Peaks
  import opened LocalMaxima
  import opened PeakFilters
  import opened Zones
  import opened Tables
  import Z = ZoneDetector

  // ----- which cells are scanned

  predicate ZoneFits(arena: seq<nat>, z: Zone) {
    z.start + z.area <= |arena| && forall x | z.start <= x < z.start + z.area :: arena[x] < PIXELS
  }

  function Slice(arena: seq<nat>, z: Zone): (cells: seq<nat>)
    requires ZoneFits(arena, z)
    ensures |cells| == z.area && forall x | 0 <= x < |cells| :: cells[x] < PIXELS
  {
    arena[z.start..z.start + z.area]
  }

  /** The zones list cells of the grid, and no cell twice. */
  ghost predicate ZonesApart(arena: seq<nat>, zones: seq<Zone>) {
    && (forall k | 0 <= k < |zones| :: ZoneFits(arena, zones[k]) && Distinct(Slice(arena, zones[k])))
    && (forall k, m, c | 0 <= k < m < |zones| && c in Slice(arena, zones[k]) :: c !in Slice(arena, zones[m]))
  }

  ghost predicate Samples(f: Frame) { forall i | 0 <= i < PIXELS :: -0x8000 <= f[i] < 0x8000 }

  /** Entry p is the candidate of one of these cells of zone zi. */
  ghost predicate FromCells(cfg: Config, f: Frame, drifts: set<nat>, z: Zone, zi: nat, cells: seq<nat>, p: Peak)
    requires Samples(f)
  {
    OnGrid(p) && CellOf(p) in cells && IsCandidate(cfg, f, drifts, CellOf(p)) && p == PeakAt(f, z, zi, CellOf(p))
  }

  ghost function CandidateOf(cfg: Config, f: Frame, drifts: set<nat>, z: Zone, zi: nat, cell: nat): seq<Peak>
    requires Samples(f) && cell < PIXELS
  {
    if IsCandidate(cfg, f, drifts, cell) then [PeakAt(f, z, zi, cell)] else []
  }

  /** Candidates among the cells of zone zi, in order. */
  ghost function ZoneCandidates(cfg: Config, f: Frame, drifts: set<nat>, z: Zone, zi: nat,
                                cells: seq<nat>): (r: seq<Peak>)
    requires Samples(f) && forall x | 0 <= x < |cells| :: cells[x] < PIXELS
  {
    if cells == [] then []
    else
      ZoneCandidates(cfg, f, drifts, z, zi, cells[..|cells| - 1])
      + CandidateOf(cfg, f, drifts, z, zi, cells[|cells| - 1])
  }

  lemma NextCell(cfg: Config, f: Frame, drifts: set<nat>, z: Zone, zi: nat, cells: seq<nat>, k: nat)
    requires Samples(f) && k < |cells| && forall x | 0 <= x < |cells| :: cells[x] < PIXELS
    ensures ZoneCandidates(cfg, f, drifts, z, zi, cells[..k + 1])
      == ZoneCandidates(cfg, f, drifts, z, zi, cells[..k]) + CandidateOf(cfg, f, drifts, z, zi, cells[k])
  {
    assert cells[..k + 1][..k] == cells[..k];
  }

  /** Candidates of the first k zones. */
  ghost function Candidates(cfg: Config, f: Frame, drifts: set<nat>, arena: seq<nat>, zones: seq<Zone>,
                            k: nat): (r: seq<Peak>)
    requires Samples(f) && k <= |zones| && forall i | 0 <= i < |zones| :: ZoneFits(arena, zones[i])
  {
    if k == 0 then []
    else
      Candidates(cfg, f, drifts, arena, zones, k - 1)
      + ZoneCandidates(cfg, f, drifts, zones[k - 1], k - 1, Slice(arena, zones[k - 1]))
  }

  /** Entry p is the candidate of some cell of its zone, one of the first k. */
  ghost predicate FromZones(cfg: Config, f: Frame, drifts: set<nat>, arena: seq<nat>, zones: seq<Zone>, k: nat, p: Peak)
    requires Samples(f) && k <= |zones| && forall i | 0 <= i < |zones| :: ZoneFits(arena, zones[i])
  {
    p.zoneIndex < k && FromCells(cfg, f, drifts, zones[p.zoneIndex], p.zoneIndex, Slice(arena, zones[p.zoneIndex]), p)
  }

  lemma PeakAtCell(f: Frame, z: Zone, zi: nat, cell: nat)
    requires Samples(f) && cell < PIXELS
    ensures OnGrid(PeakAt(f, z, zi, cell)) && CellOf(PeakAt(f, z, zi, cell)) == cell
    ensures PeakAt(f, z, zi, cell).zoneIndex == zi
  {
    CellOfRowCol(cell);
  }

  lemma CandidateOfExact(cfg: Config, f: Frame, drifts: set<nat>, z: Zone, zi: nat, cell: nat, p: Peak)
    requires Samples(f) && cell < PIXELS
    ensures p in CandidateOf(cfg, f, drifts, z, zi, cell) <==> FromCells(cfg, f, drifts, z, zi, [cell], p)
  {
    PeakAtCell(f, z, zi, cell);
  }

  lemma FromOneMore(cfg: Config, f: Frame, drifts: set<nat>, z: Zone, zi: nat, cells: seq<nat>, cell: nat, p: Peak)
    requires Samples(f)
    ensures FromCells(cfg, f, drifts, z, zi, cells + [cell], p)
      <==> FromCells(cfg, f, drifts, z, zi, cells, p) || FromCells(cfg, f, drifts, z, zi, [cell], p)
  {
  }

  lemma {:induction false} ZoneCandidatesExact(cfg: Config, f: Frame, drifts: set<nat>, z: Zone, zi: nat,
      cells: seq<nat>, p: Peak)
    requires Samples(f) && forall x | 0 <= x < |cells| :: cells[x] < PIXELS
    ensures p in ZoneCandidates(cfg, f, drifts, z, zi, cells) <==> FromCells(cfg, f, drifts, z, zi, cells, p)
  {
    if cells != [] {
      var n := |cells| - 1;
      ZoneCandidatesExact(cfg, f, drifts, z, zi, cells[..n], p);
      CandidateOfExact(cfg, f, drifts, z, zi, cells[n], p);
      FromOneMore(cfg, f, drifts, z, zi, cells[..n], cells[n], p);
      assert cells == cells[..n] + [cells[n]];
    }
  }

  /** One candidate per cell. */
  lemma {:induction false} ZoneRooted(cfg: Config, f: Frame, drifts: set<nat>, z: Zone, zi: nat, cells: seq<nat>)
    requires Samples(f) && Distinct(cells) && forall x | 0 <= x < |cells| :: cells[x] < PIXELS
    ensures Rooted(f, cfg.Radius(), ZoneCandidates(cfg, f, drifts, z, zi, cells))
    ensures Valued(f, ZoneCandidates(cfg, f, drifts, z, zi, cells))
  {
    if cells != [] {
      var init, cell := cells[..|cells| - 1], cells[|cells| - 1];
      ZoneRooted(cfg, f, drifts, z, zi, init);
      if IsCandidate(cfg, f, drifts, cell) {
        var before := ZoneCandidates(cfg, f, drifts, z, zi, init);
        PeakAtCell(f, z, zi, cell);
        forall i | 0 <= i < |before| ensures before[i].r != Row(cell) || before[i].c != Col(cell) {
          assert before[i] in before;
          ZoneCandidatesExact(cfg, f, drifts, z, zi, init, before[i]);
          assert CellOf(before[i]) != cell;
        }
        JoinedRooted(f, cfg.Radius(), before, [PeakAt(f, z, zi, cell)]);
      }
    }
  }

  lemma FromNextZone(cfg: Config, f: Frame, drifts: set<nat>, arena: seq<nat>, zones: seq<Zone>, zi: nat, k: nat,
                     p: Peak)
    requires Samples(f) && k == zi + 1 <= |zones| && forall i | 0 <= i < |zones| :: ZoneFits(arena, zones[i])
    ensures FromZones(cfg, f, drifts, arena, zones, k, p) <==>
      || FromZones(cfg, f, drifts, arena, zones, zi, p)
      || FromCells(cfg, f, drifts, zones[zi], zi, Slice(arena, zones[zi]), p)
  {
    if FromCells(cfg, f, drifts, zones[zi], zi, Slice(arena, zones[zi]), p) {
      FromCellsOfZone(cfg, f, drifts, zones[zi], zi, Slice(arena, zones[zi]), p);
    }
  }

  lemma InNextZone(cfg: Config, f: Frame, drifts: set<nat>, arena: seq<nat>, zones: seq<Zone>, zi: nat, k: nat, p: Peak)
    requires Samples(f) && k == zi + 1 <= |zones| && forall i | 0 <= i < |zones| :: ZoneFits(arena, zones[i])
    ensures p in Candidates(cfg, f, drifts, arena, zones, k) <==>
      || p in Candidates(cfg, f, drifts, arena, zones, zi)
      || FromCells(cfg, f, drifts, zones[zi], zi, Slice(arena, zones[zi]), p)
  {
    ZoneCandidatesExact(cfg, f, drifts, zones[zi], zi, Slice(arena, zones[zi]), p);
  }

  /** The scan's candidates are exactly the accepted zone cells. */
  lemma {:induction false} CandidatesExact(cfg: Config, f: Frame, drifts: set<nat>, arena: seq<nat>, zones: seq<Zone>,
      k: nat, p: Peak)
    requires Samples(f) && k <= |zones| && forall i | 0 <= i < |zones| :: ZoneFits(arena, zones[i])
    ensures p in Candidates(cfg, f, drifts, arena, zones, k) <==> FromZones(cfg, f, drifts, arena, zones, k, p)
  {
    if k > 0 {
      CandidatesExact(cfg, f, drifts, arena, zones, k - 1, p);
      FromNextZone(cfg, f, drifts, arena, zones, k - 1, k, p);
      InNextZone(cfg, f, drifts, arena, zones, k - 1, k, p);
    }
  }

  lemma FromCellsOfZone(cfg: Config, f: Frame, drifts: set<nat>, z: Zone, zi: nat, cells: seq<nat>, p: Peak)
    requires Samples(f) && FromCells(cfg, f, drifts, z, zi, cells, p)
    ensures p.zoneIndex == zi
  {
    PeakAtCell(f, z, zi, CellOf(p));
  }

  /** Each sits on its own cell, and carries that cell's signal. */
  lemma {:induction false} CandidatesRooted(cfg: Config, f: Frame, drifts: set<nat>, arena: seq<nat>, zones: seq<Zone>,
      k: nat)
    requires Samples(f) && k <= |zones| && ZonesApart(arena, zones)
    ensures Rooted(f, cfg.Radius(), Candidates(cfg, f, drifts, arena, zones, k))
    ensures Valued(f, Candidates(cfg, f, drifts, arena, zones, k))
  {
    if k > 0 {
      var zi, cells := k - 1, Slice(arena, zones[k - 1]);
      CandidatesRooted(cfg, f, drifts, arena, zones, zi);
      ZoneRooted(cfg, f, drifts, zones[zi], zi, cells);
      var before := Candidates(cfg, f, drifts, arena, zones, zi);
      var last := ZoneCandidates(cfg, f, drifts, zones[zi], zi, cells);
      forall i, j | 0 <= i < |before| && 0 <= j < |last| ensures before[i].r != last[j].r || before[i].c != last[j].c {
        assert before[i] in before && last[j] in last;
        CandidatesExact(cfg, f, drifts, arena, zones, zi, before[i]);
        ZoneCandidatesExact(cfg, f, drifts, zones[zi], zi, cells, last[j]);
        assert CellOf(before[i]) != CellOf(last[j]);
      }
      JoinedRooted(f, cfg.Radius(), before, last);
    }
  }

  lemma JoinedRooted(f: Frame, radius: int, a: seq<Peak>, b: seq<Peak>)
    requires Rooted(f, radius, a) && Valued(f, a) && Rooted(f, radius, b) && Valued(f, b)
    requires forall i, j | 0 <= i < |a| && 0 <= j < |b| :: a[i].r != b[j].r || a[i].c != b[j].c
    ensures Rooted(f, radius, a + b) && Valued(f, a + b)
  {
  }

  // ----- what fits into the table

  function CellNumber(): Peak -> int { (p: Peak) => p.r * 60 + p.c }

  /** Part of a rooted table is rooted. */
  lemma PartRooted(f: Frame, radius: int, s: seq<Peak>, t: seq<Peak>)
    requires Rooted(f, radius, s) && Valued(f, s) && multiset(t) <= multiset(s)
    ensures Rooted(f, radius, t) && Valued(f, t)
  {
    PartKeysApart(CellNumber(), s, t);
    forall i, j | 0 <= i < j < |t| ensures t[i].r != t[j].r || t[i].c != t[j].c {
      assert CellNumber()(t[i]) != CellNumber()(t[j]);
    }
  }

  /** Reordering a rooted table leaves it rooted. */
  lemma KeptRooted(f: Frame, radius: int, s: seq<Peak>, kept: seq<Peak>, dropped: multiset<Peak>)
    requires Rooted(f, radius, s) && Valued(f, s) && KeepsStrongest(StrengthOf, multiset(s), kept, dropped)
    ensures Rooted(f, radius, kept) && Valued(f, kept)
  {
    KeptOutrankDropped(StrengthOf, multiset(s), kept, dropped);
    PartRooted(f, radius, s, kept);
  }

  // ----- saddles in place

  /** Every pair before (i, j) in scan order was decided. */
  ghost predicate DecidedUpTo(cfg: Config, f: Frame, s: seq<Peak>, t: seq<Peak>, i: nat, j: nat)
    requires |s| == |t|
  {
    forall a, b | 0 <= a < b < |s| && (a < i || (a == i && b < j)) :: Decided(cfg, f, s, t, a, b)
  }

  lemma NothingStruck(cfg: Config, f: Frame, s: seq<Peak>)
    requires forall k | 0 <= k < |s| :: s[k].z >= 0
    ensures Struck(cfg, f, s, s)
  {
    forall k | 0 <= k < |s| ensures ZoneAlive(s, s, s[k].zoneIndex) {
      var best := StrongestOf(s, s[k].zoneIndex, k);
    }
  }

  lemma StrongestOf(s: seq<Peak>, zi: nat, k: nat) returns (best: nat)
    requires k < |s| && s[k].zoneIndex == zi
    ensures best < |s| && s[best].zoneIndex == zi
    ensures forall m | 0 <= m < |s| && s[m].zoneIndex == zi :: s[m].z <= s[best].z
  {
    best := k;
    for m := 0 to |s|
      invariant best < |s| && s[best].zoneIndex == zi
      invariant forall q | 0 <= q < m && s[q].zoneIndex == zi :: s[q].z <= s[best].z
    {
      if s[m].zoneIndex == zi && s[m].z > s[best].z {
        best := m;
      }
    }
  }

  /** Striking out the weaker of a shallow pair, the earlier one on a tie. */
  lemma StrikeKeeps(cfg: Config, f: Frame, s: seq<Peak>, t: seq<Peak>, i: nat, j: nat, w: nat)
    requires Struck(cfg, f, s, t) && i < j < |s| && (forall k | 0 <= k < |s| :: s[k].z >= 0)
    requires Shallow(cfg, f, t[i], t[j]) && w == if t[i].z <= t[j].z then i else j
    ensures Struck(cfg, f, s, t[w := t[w].(z := -1)])
  {
    var t' := t[w := t[w].(z := -1)];
    if t[i].z >= 0 && t[j].z >= 0 {
      var m := if w == i then j else i;
      assert s[w].z <= s[m].z && m != w;
      assert Justified(cfg, f, s, w);
      forall k | 0 <= k < |s| ensures ZoneAlive(s, t', s[k].zoneIndex) {
        AliveAfterStrike(s, t, s[k].zoneIndex, w, m);
      }
    } else {
      assert t' == t;
    }
  }

  lemma AliveAfterStrike(s: seq<Peak>, t: seq<Peak>, zi: nat, w: nat, m: nat)
    requires |s| == |t| && w < |s| && m < |s| && w != m && ZoneAlive(s, t, zi)
    requires s[w].zoneIndex == s[m].zoneIndex && s[w].z <= s[m].z && t[m] == s[m]
    ensures ZoneAlive(s, t[w := t[w].(z := -1)], zi)
  {
    var k :| 0 <= k < |s| && s[k].zoneIndex == zi && t[k] == s[k]
        && forall q | 0 <= q < |s| && s[q].zoneIndex == zi :: s[q].z <= s[k].z;
    var t' := t[w := t[w].(z := -1)];
    var alive := if k == w then m else k;
    assert t'[alive] == s[alive];
  }

  lemma StrikeDecides(cfg: Config, f: Frame, s: seq<Peak>, t: seq<Peak>, i: nat, j: nat, w: nat)
    requires |s| == |t| && i < j < |s| && DecidedUpTo(cfg, f, s, t, i, j) && (w == i || w == j)
    ensures DecidedUpTo(cfg, f, s, t[w := t[w].(z := -1)], i, j + 1)
  {
    var t' := t[w := t[w].(z := -1)];
    forall a, b | 0 <= a < b < |s| && (a < i || (a == i && b < j + 1)) ensures Decided(cfg, f, s, t', a, b) {
      if a < i || b < j {
        assert Decided(cfg, f, s, t, a, b);
      }
    }
  }

  lemma PassDecides(cfg: Config, f: Frame, s: seq<Peak>, t: seq<Peak>, i: nat, j: nat)
    requires Struck(cfg, f, s, t) && i < j < |s| && DecidedUpTo(cfg, f, s, t, i, j) && !Shallow(cfg, f, t[i], t[j])
    ensures DecidedUpTo(cfg, f, s, t, i, j + 1)
  {
    forall a, b | 0 <= a < b < |s| && (a < i || (a == i && b < j + 1)) ensures Decided(cfg, f, s, t, a, b) {
      if a < i || b < j {
        assert Decided(cfg, f, s, t, a, b);
      }
    }
  }

  /** Any two peaks of the table, close in one zone, have a real dip between them. */
  ghost predicate Separated(cfg: Config, f: Frame, s: seq<Peak>) {
    forall i, j | 0 <= i < j < |s| :: !Shallow(cfg, f, s[i], s[j])
  }

  function Alive(): Peak -> bool { (p: Peak) => p.z >= 0 }

  lemma AliveSeparated(cfg: Config, f: Frame, s: seq<Peak>, t: seq<Peak>)
    requires Struck(cfg, f, s, t) && DecidedUpTo(cfg, f, s, t, |s|, 0) && (forall k | 0 <= k < |s| :: s[k].z >= 0)
    ensures Separated(cfg, f, Filter(t, Alive()))
    ensures forall k | 0 <= k < |Filter(t, Alive())| :: Filter(t, Alive())[k] == s[Origin(t, Alive(), k)]
  {
    var r := Filter(t, Alive());
    FilterIsSubsequence(t, Alive());
    forall k | 0 <= k < |r| ensures r[k] == s[Origin(t, Alive(), k)] {
      assert SameOrStruck(s[Origin(t, Alive(), k)], t[Origin(t, Alive(), k)]);
    }
    forall i, j | 0 <= i < j < |r| ensures !Shallow(cfg, f, r[i], r[j]) {
      assert Decided(cfg, f, s, t, Origin(t, Alive(), i), Origin(t, Alive(), j));
    }
  }

  // ----- the stages together

  datatype PalmBox = PalmBox(minR: nat, maxR: nat, minC: nat, maxC: nat)

  predicate Inside(b: PalmBox, p: Peak) {
    b.minR <= p.r <= b.maxR && b.minC <= p.c <= b.maxC
  }

  function OutsideAll(boxes: seq<PalmBox>): Peak -> bool {
    (p: Peak) => forall i | 0 <= i < |boxes| :: !Inside(boxes[i], p)
  }

  /** A spike far above its neighbourhood is not a finger. */
  function NotIsolated(cfg: Config): Peak -> bool {
    (p: Peak) => !cfg.z8Enabled || p.z / 32 <= p.nbrSum
  }

  function StaysIn(x: Context): Peak -> bool {
    (p: Peak) => Stays(x, p)
  }

  function Trimmed(s: seq<Peak>, col: nat, m: int): seq<Peak> {
    if m == 0 then s else Filter(s, EdgeKeeps(col, m))
  }

  /** The table after each stage. */
  datatype Trace = Trace(
    kept: seq<Peak>, struck: seq<Peak>, dipped: seq<Peak>, dense: seq<Peak>, bound: seq<Peak>, clear: seq<Peak>,
    leftMax: int, left: seq<Peak>, rightMax: int, right: seq<Peak>)

  ghost predicate AfterSaddles(cfg: Config, f: Frame, s: seq<Peak>, struck: seq<Peak>, t: seq<Peak>) {
    if cfg.saddleEnabled then
      Struck(cfg, f, s, struck) && DecidedUpTo(cfg, f, s, struck, |s|, 0) && t == Filter(struck, Alive())
    else t == s
  }

  ghost predicate Staged(cfg: Config, f: Frame, x: Context, boxes: seq<PalmBox>, w: Trace) {
    && AfterSaddles(cfg, f, w.kept, w.struck, w.dipped)
    && w.dense == Filter(w.dipped, NotIsolated(cfg))
    && w.bound == AllBound(x.(peakCount := |w.dense|), Filter(w.dense, StaysIn(x.(peakCount := |w.dense|))))
    && w.clear == Filter(w.bound, OutsideAll(boxes))
    && IsColumnMax(w.clear, 0, w.leftMax) && w.left == Trimmed(w.clear, 0, w.leftMax)
    && IsColumnMax(w.left, 59, w.rightMax) && w.right == Trimmed(w.left, 59, w.rightMax)
  }

  ghost predicate Positive(s: seq<Peak>) { forall k | 0 <= k < |s| :: s[k].z >= 0 }

  lemma AliveRooted(cfg: Config, f: Frame, radius: int, s: seq<Peak>, t: seq<Peak>)
    requires Rooted(f, radius, s) && Valued(f, s) && Positive(s)
    requires Struck(cfg, f, s, t) && DecidedUpTo(cfg, f, s, t, |s|, 0)
    ensures Rooted(f, radius, Filter(t, Alive())) && Valued(f, Filter(t, Alive()))
  {
    AliveSeparated(cfg, f, s, t);
    FilterIsSubsequence(t, Alive());
  }

  lemma BoundRooted(f: Frame, radius: int, x: Context, s: seq<Peak>)
    requires Rooted(f, radius, s) && Valued(f, s)
    ensures Rooted(f, radius, AllBound(x, s)) && Valued(f, AllBound(x, s))
  {
  }

  /** Through every stage the peaks stay on their cells, more than the radius apart. */
  lemma StagesKeepPeaksApart(cfg: Config, f: Frame, x: Context, boxes: seq<PalmBox>, w: Trace)
    requires Staged(cfg, f, x, boxes, w) && Rooted(f, cfg.Radius(), w.kept) && Valued(f, w.kept) && Positive(w.kept)
    ensures Rooted(f, cfg.Radius(), w.right) && Valued(f, w.right) && Apart(cfg.Radius(), w.right)
  {
    var r := cfg.Radius();
    if cfg.saddleEnabled {
      AliveRooted(cfg, f, r, w.kept, w.struck);
    }
    FilterKeeps(f, r, w.dipped, NotIsolated(cfg));
    FilterKeeps(f, r, w.dense, StaysIn(x.(peakCount := |w.dense|)));
    BoundRooted(f, r, x.(peakCount := |w.dense|), Filter(w.dense, StaysIn(x.(peakCount := |w.dense|))));
    FilterKeeps(f, r, w.bound, OutsideAll(boxes));
    FilterKeeps(f, r, w.clear, EdgeKeeps(0, w.leftMax));
    FilterKeeps(f, r, w.left, EdgeKeeps(59, w.rightMax));
    RootedApart(f, r, w.right);
  }

  /** Every peak came from one of the first n zones. */
  ghost predicate InZones(s: seq<Peak>, n: nat) { forall k | 0 <= k < |s| :: s[k].zoneIndex < n }

  lemma FilterInZones(s: seq<Peak>, keep: Peak -> bool, n: nat)
    requires InZones(s, n)
    ensures InZones(Filter(s, keep), n)
  {
    FilterIsSubsequence(s, keep);
  }

  /** No stage changes the zone a peak came from. */
  lemma StagesKeepZones(cfg: Config, f: Frame, x: Context, boxes: seq<PalmBox>, w: Trace, n: nat)
    requires Staged(cfg, f, x, boxes, w) && InZones(w.kept, n)
    ensures InZones(w.right, n)
  {
    if cfg.saddleEnabled {
      assert InZones(w.struck, n);
      FilterInZones(w.struck, Alive(), n);
    }
    FilterInZones(w.dipped, NotIsolated(cfg), n);
    FilterInZones(w.dense, StaysIn(x.(peakCount := |w.dense|)), n);
    FilterInZones(w.bound, OutsideAll(boxes), n);
    FilterInZones(w.clear, EdgeKeeps(0, w.leftMax), n);
    FilterInZones(w.left, EdgeKeeps(59, w.rightMax), n);
  }

  /** A reordered table still keeps its peaks apart. */
  lemma ReorderedApart(f: Frame, radius: int, s: seq<Peak>, t: seq<Peak>)
    requires Rooted(f, radius, s) && Valued(f, s) && multiset(t) == multiset(s)
    ensures Rooted(f, radius, t) && Valued(f, t) && Apart(radius, t)
  {
    PartRooted(f, radius, s, t);
    RootedApart(f, radius, t);
  }

  /** With radius 1 the first highest cell of a zone is among the candidates, if it reaches its
      threshold and is no pressure drift. */
  lemma FirstHighestIsCandidate(cfg: Config, f: Frame, drifts: set<nat>, t: int, arena: seq<nat>, zones: seq<Zone>,
                                zi: nat, a: nat)
    requires Samples(f) && ZonesApart(arena, zones) && zi < |zones| && cfg.Radius() == 1 && zones[zi].area > 0
    requires Z.IsZone(f, t, arena, zones[zi]) && FirstHighest(f, Slice(arena, zones[zi]), a)
    requires f[a] >= t && f[a] >= ThresholdAt(cfg, Row(a), Col(a)) && a !in drifts
    ensures PeakAt(f, zones[zi], zi, a) in Candidates(cfg, f, drifts, arena, zones, |zones|)
  {
    var z := zones[zi];
    assert IsComponent(f, t, Slice(arena, z), arena[z.start]) by {
      assert Open(0);
    }
    FirstHighestIsPeak(f, t, Slice(arena, z), arena[z.start], a);
    PeakAtCell(f, z, zi, a);
    CandidatesExact(cfg, f, drifts, arena, zones, |zones|, PeakAt(f, z, zi, a));
  }

  // ----- where the zones come from

  /** The zones kept by the detector, in any order and after dropping any, list no cell twice. */
  lemma KeptZonesApart(f: Frame, t: int, arena: seq<nat>, found: seq<Zone>, used: nat, kept: seq<Zone>)
    requires Z.Complete(f, t, arena, found, used) && multiset(kept) <= multiset(found)
    ensures ZonesApart(arena, kept)
  {
    FoundDistinct(f, t, arena, found, used);
    forall k | 0 <= k < |kept| ensures ZoneFits(arena, kept[k]) && Distinct(Slice(arena, kept[k])) {
      var m := FoundAt(found, kept, k);
      FoundFits(f, t, arena, found, used, m);
    }
    forall k, m, c | 0 <= k < m < |kept| && c in Slice(arena, kept[k]) ensures c !in Slice(arena, kept[m]) {
      var a := FoundAt(found, kept, k);
      var b := FoundAt(found, kept, m);
      KeptDistinct(found, kept, k, m);
      Z.InZoneIsMember(arena, found[a], c);
      Z.InZoneIsMember(arena, found[b], c);
      if a < b {
        Z.ZonesDisjoint(f, t, arena, found, used, a, b, c);
      } else {
        Z.ZonesDisjoint(f, t, arena, found, used, b, a, c);
      }
    }
  }

  lemma FoundAt(found: seq<Zone>, kept: seq<Zone>, k: nat) returns (m: nat)
    requires multiset(kept) <= multiset(found) && k < |kept|
    ensures m < |found| && found[m] == kept[k]
  {
    assert kept[k] in multiset(kept);
    assert kept[k] in found;
    m :| 0 <= m < |found| && found[m] == kept[k];
  }

  lemma KeptDistinct(found: seq<Zone>, kept: seq<Zone>, k: nat, m: nat)
    requires multiset(kept) <= multiset(found) && k < m < |kept|
    requires forall i, j | 0 <= i < j < |found| :: found[i] != found[j]
    ensures kept[k] != kept[m]
  {
    CountOnce(found, kept[k]);
    if kept[k] == kept[m] {
      CountTwice(kept, k, m);
    }
  }

  lemma FoundDistinct(f: Frame, t: int, arena: seq<nat>, found: seq<Zone>, used: nat)
    requires Z.Complete(f, t, arena, found, used)
    ensures forall i, j | 0 <= i < j < |found| :: found[i] != found[j]
  {
    forall i, j | 0 <= i < j < |found| ensures found[i] != found[j] {
      Z.TilesOrdered(f, t, arena, found, used, i, j);
      assert Z.IsZone(f, t, arena, found[i]);
    }
  }

  lemma FoundFits(f: Frame, t: int, arena: seq<nat>, found: seq<Zone>, used: nat, m: nat)
    requires Z.Complete(f, t, arena, found, used) && m < |found|
    ensures ZoneFits(arena, found[m]) && Distinct(Slice(arena, found[m]))
  {
    var z := found[m];
    Z.TileBefore(f, t, arena, found, used, m);
    Z.ZoneSum(f, t, arena, z);
    var cells := arena[z.start..z.start + z.area];
    forall x | z.start <= x < z.start + z.area ensures arena[x] < PIXELS {
      assert cells[x - z.start] == arena[x];
    }
  }

  /** Palm rejection moves the surviving zones up, whatever its verdicts are: what is left is still
      sorted, and every zone is still a whole component of the frame. */
  method RejectPalms(zones: array<Zone>, count: nat, keep: Zone -> bool,
                     ghost f: Frame, ghost t: int, ghost arena: seq<nat>, ghost found: seq<Zone>, ghost used: nat)
    returns (dst: nat)
    requires count <= zones.Length && Z.Complete(f, t, arena, found, used)
    requires multiset(zones[..count]) <= multiset(found) && Descending(Z.SumOf, zones[..count])
    modifies zones
    ensures dst <= count && zones[..dst] == Filter(old(zones[..count]), keep)
    ensures Descending(Z.SumOf, zones[..dst]) && ZonesApart(arena, zones[..dst])
    ensures forall k | 0 <= k < dst :: Z.IsZone(f, t, arena, zones[k])
  {
    ghost var was := zones[..count];
    dst := Compact(zones, count, keep);
    FilterIsSubsequence(was, keep);
    FilterCounts(was, keep);
    ghost var now := zones[..dst];
    KeptZonesApart(f, t, arena, found, used, now);
    forall k | 0 <= k < dst ensures Z.IsZone(f, t, arena, zones[k]) {
      var m := FoundAt(found, now, k);
      assert zones[k] == found[m];
    }
  }
}
