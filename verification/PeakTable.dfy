/** The peak stage as the driver runs it, in place over its fixed table of peaks. */
module PeakTable {
  import opened Machine
  import opened Arithmetic
  import opened Grid
  import opened Components
  import opened Peaks
  import opened LocalMaxima
  import opened PeakFilters
  import opened PeakFinder
  import opened Zones
  import opened Tables

  function Weakness(): Peak -> int { (p: Peak) => -(p.z as int) }

  class PeakTable {
    const peaks: array<Peak>
    const frame: array<s16>
    var count: nat

    constructor (samples: array<s16>)
      requires samples.Length == PIXELS
      ensures Valid() && count == 0 && fresh(peaks) && frame == samples
    {
      peaks := new Peak[MAX_PEAKS](_ => Peak(0, 0, 0, 0, 0, 0, 0, 0, 0, 0, false, false, false, 0));
      frame := samples;
      count := 0;
    }

    ghost predicate Valid()
      reads this
    {
      peaks.Length == MAX_PEAKS && frame.Length == PIXELS && count <= MAX_PEAKS
    }

    ghost function Table(): seq<Peak>
      requires Valid()
      reads this, peaks
    {
      peaks[..count]
    }

    method SumTriple(r: nat, c: nat, dr: int, above: int) returns (sum: int)
      requires Valid() && -1 <= dr <= 1 && above == NeighbourSum(frame[..], r, c, 3 * (dr + 1))
      ensures sum == NeighbourSum(frame[..], r, c, 3 * (dr + 2))
    {
      sum := above;
      ghost var f := frame[..];
      for dc: int := -1 to 2
        invariant sum == NeighbourSum(f, r, c, 3 * (dr + 1) + dc + 1)
      {
        NextNeighbour(f, r, c, dr, dc);
        if dr != 0 || dc != 0 {
          var v := SampleAt(frame, r + dr, c + dc);
          sum := sum + v;
        }
      }
    }

    method SumNeighbours(r: nat, c: nat) returns (sum: int)
      requires Valid()
      ensures sum == NeighbourSum(frame[..], r, c, 9)
    {
      sum := 0;
      for dr: int := -1 to 2
        invariant sum == NeighbourSum(frame[..], r, c, 3 * (dr + 1))
      {
        sum := SumTriple(r, c, dr, sum);
      }
    }

    /** Adds the cell's peak to the table if the cell is a candidate. */
    method ScanCell(cfg: Config, drifts: set<nat>, z: Zone, zi: nat, cell: nat, ghost seen: seq<Peak>,
                    ghost dropped: multiset<Peak>)
      returns (ghost seen': seq<Peak>, ghost dropped': multiset<Peak>)
      requires Valid() && cell < PIXELS && Samples(frame[..])
      requires KeepsStrongest(StrengthOf, multiset(seen), Table(), dropped)
      requires count < MAX_PEAKS ==> dropped == multiset{}
      modifies peaks, `count
      ensures Valid() && count >= old(count)
      ensures seen' == seen + CandidateOf(cfg, frame[..], drifts, z, zi, cell)
      ensures KeepsStrongest(StrengthOf, multiset(seen'), Table(), dropped')
      ensures count < MAX_PEAKS ==> dropped' == multiset{}
    {
      var r, c := cell / 60, cell % 60;
      var v := frame[cell];
      ghost var f := frame[..];
      seen', dropped' := seen, dropped;
      CellOfRowCol(cell);
      if v < ThresholdAt(cfg, r, c) {
        return;
      }
      var top := IsAsymmetricPeak(frame, f, cfg.Radius(), r, c);
      if !top || cell in drifts {
        return;
      }
      var sum := SumNeighbours(r, c);
      var p := Peak(r, c, v, sum, z.area, zi, 0, 0, 0, 0, r == 0 || r == 39 || c == 0 || c == 59, false, false, -1);
      seen' := seen + [p];
      count, dropped' := Insert(peaks, count, p, StrengthOf, multiset(seen), dropped);
    }

    method ScanZone(cfg: Config, drifts: set<nat>, z: Zone, zi: nat, arena: array<nat>, ghost seen0: seq<Peak>,
                    ghost dropped0: multiset<Peak>)
      returns (ghost seen: seq<Peak>, ghost dropped: multiset<Peak>)
      requires Valid() && Samples(frame[..]) && ZoneFits(arena[..], z)
      requires KeepsStrongest(StrengthOf, multiset(seen0), Table(), dropped0)
      requires count < MAX_PEAKS ==> dropped0 == multiset{}
      modifies peaks, `count
      ensures Valid() && seen == seen0 + ZoneCandidates(cfg, frame[..], drifts, z, zi, Slice(arena[..], z))
      ensures KeepsStrongest(StrengthOf, multiset(seen), Table(), dropped)
      ensures count < MAX_PEAKS ==> dropped == multiset{}
    {
      seen, dropped := seen0, dropped0;
      ghost var f, listed := frame[..], arena[..];
      ghost var cells := Slice(listed, z);
      for pi := 0 to z.area
        invariant Valid() && frame[..] == f && arena[..] == listed
        invariant seen == seen0 + ZoneCandidates(cfg, f, drifts, z, zi, cells[..pi])
        invariant KeepsStrongest(StrengthOf, multiset(seen), Table(), dropped)
        invariant count < MAX_PEAKS ==> dropped == multiset{}
      {
        var cell := arena[z.start + pi];
        assert cells[pi] == listed[z.start + pi] == cell;
        NextCell(cfg, f, drifts, z, zi, cells, pi);
        Regroup(seen0, ZoneCandidates(cfg, f, drifts, z, zi, cells[..pi]), CandidateOf(cfg, f, drifts, z, zi, cell));
        seen, dropped := ScanCell(cfg, drifts, z, zi, cell, seen, dropped);
      }
      assert cells[..z.area] == cells;
    }

    /** Every candidate of every zone, the strongest kept. */
    method Scan(cfg: Config, drifts: set<nat>, zones: seq<Zone>, arena: array<nat>)
      returns (ghost seen: seq<Peak>, ghost dropped: multiset<Peak>)
      requires Valid() && Samples(frame[..]) && ZonesApart(arena[..], zones)
      modifies peaks, `count
      ensures Valid() && seen == Candidates(cfg, frame[..], drifts, arena[..], zones, |zones|)
      ensures KeepsStrongest(StrengthOf, multiset(seen), Table(), dropped)
      ensures count < MAX_PEAKS ==> dropped == multiset{}
    {
      count := 0;
      seen, dropped := [], multiset{};
      NothingSeen(StrengthOf);
      ghost var f, cells := frame[..], arena[..];
      for zi := 0 to |zones|
        invariant Valid() && frame[..] == f && arena[..] == cells
        invariant seen == Candidates(cfg, f, drifts, cells, zones, zi)
        invariant KeepsStrongest(StrengthOf, multiset(seen), Table(), dropped)
        invariant count < MAX_PEAKS ==> dropped == multiset{}
      {
        seen, dropped := ScanZone(cfg, drifts, zones[zi], zi, arena, seen, dropped);
      }
    }

    method SaddleOf(a: Peak, b: Peak) returns (saddle: int)
      requires Valid() && PeakFilters.Steps(a, b) > 0
      ensures saddle == Saddle(frame[..], a, b)
    {
      var steps := PeakFilters.Steps(a, b);
      saddle := 0;
      for s := 1 to steps
        invariant saddle == SaddleUpTo(frame[..], a, b, s)
      {
        var v := SampleAt(frame, Between(a.r, b.r, s, steps), Between(a.c, b.c, s, steps));
        if v > saddle {
          saddle := v;
        }
      }
    }

    method IsShallow(cfg: Config, a: Peak, b: Peak) returns (shallow: bool)
      requires Valid()
      ensures shallow == Shallow(cfg, frame[..], a, b)
    {
      if a.zoneIndex != b.zoneIndex || PeakFilters.Steps(a, b) == 0 || PeakFilters.Steps(a, b) > cfg.saddleRadius {
        return false;
      }
      var saddle := SaddleOf(a, b);
      var weaker := Min(a.z, b.z);
      shallow := weaker - saddle < Max(cfg.saddleDrop, Div(weaker * 8, 100));
    }

    /** Strikes out the weaker peak of every close pair without a real dip. */
    method Strike(cfg: Config)
      requires Valid() && Positive(Table())
      modifies peaks
      ensures Struck(cfg, frame[..], old(Table()), Table())
      ensures DecidedUpTo(cfg, frame[..], old(Table()), Table(), count, 0)
    {
      ghost var s, f := Table(), frame[..];
      NothingStruck(cfg, f, s);
      for i := 0 to count
        invariant Struck(cfg, f, s, Table()) && DecidedUpTo(cfg, f, s, Table(), i, 0)
      {
        RowDecided(cfg, f, s, Table(), i);
        for j := i + 1 to count
          invariant Struck(cfg, f, s, Table()) && DecidedUpTo(cfg, f, s, Table(), i, j)
        {
          StrikePair(cfg, i, j, s);
        }
        NextRow(cfg, f, s, Table(), i);
      }
    }

    method StrikePair(cfg: Config, i: nat, j: nat, ghost s: seq<Peak>)
      requires Valid() && i < j < count && Positive(s)
      requires Struck(cfg, frame[..], s, Table()) && DecidedUpTo(cfg, frame[..], s, Table(), i, j)
      modifies peaks
      ensures Struck(cfg, frame[..], s, Table()) && DecidedUpTo(cfg, frame[..], s, Table(), i, j + 1)
    {
      ghost var t, f := Table(), frame[..];
      var shallow := IsShallow(cfg, peaks[i], peaks[j]);
      if shallow {
        var weak := if peaks[i].z <= peaks[j].z then i else j;
        StrikeKeeps(cfg, f, s, t, i, j, weak);
        StrikeDecides(cfg, f, s, t, i, j, weak);
        peaks[weak] := peaks[weak].(z := -1);
        assert Table() == t[weak := t[weak].(z := -1)];
      } else {
        PassDecides(cfg, f, s, t, i, j);
      }
    }

    method Keep(keep: Peak -> bool)
      requires Valid()
      modifies peaks, `count
      ensures Valid() && count <= old(count) && Table() == Filter(old(Table()), keep)
    {
      count := Compact(peaks, count, keep);
    }

    /** Reported tracks near the peak, and the last one of them. */
    method CountReached(x: Context, p: Peak) returns (matches: nat, slot: int)
      ensures matches == Reached(x, p, |x.tracks|) && slot == LastReached(x, p, |x.tracks|)
    {
      matches, slot := 0, -1;
      for ti := 0 to |x.tracks|
        invariant matches == Reached(x, p, ti) && slot == LastReached(x, p, ti)
      {
        if InReach(x, p, ti) {
          matches, slot := matches + 1, ti;
        }
      }
    }

    method BindOne(x: Context, p: Peak) returns (stays: bool, bound: Peak)
      ensures stays == StaysIn(x)(p) && bound == Bound(x, p)
    {
      var continuation, slot := false, -1;
      if MayContinueOnly(x, p) {
        var matches, last := CountReached(x, p);
        continuation := matches == 1;
        slot := last;
      }
      stays := p.zoneArea >= x.cfg.macroMinArea || p.onEdge || FastStart(x, p) || continuation;
      bound := p.(fastStart := FastStart(x, p), continuationOnly := continuation,
          slot := if continuation then slot else -1);
    }

    /** Drops small peaks, except those that continue a track or start fast, and marks the rest. */
    method BindSmall(x: Context)
      requires Valid() && x.peakCount == count
      modifies peaks, `count
      ensures Valid() && count <= old(count) && Table() == AllBound(x, Filter(old(Table()), StaysIn(x)))
    {
      ghost var was := Table();
      var n, dst := count, 0;
      for i := 0 to n
        invariant count == n && dst <= i && (forall k | i <= k < n :: peaks[k] == was[k])
        invariant peaks[..dst] == AllBound(x, Filter(was[..i], StaysIn(x)))
      {
        assert was[..i + 1][..i] == was[..i];
        var stays, bound := BindOne(x, peaks[i]);
        if stays {
          peaks[dst] := bound;
          dst := dst + 1;
        }
      }
      assert was[..n] == was;
      count := dst;
    }

    method ColumnMax(col: nat) returns (m: int)
      requires Valid() && Positive(Table())
      ensures IsColumnMax(Table(), col, m)
    {
      m := 0;
      for i := 0 to count
        invariant m >= 0 && forall k | 0 <= k < i && peaks[k].c == col :: peaks[k].z <= m
        invariant m > 0 ==> exists k :: 0 <= k < i && peaks[k].c == col && peaks[k].z == m
      {
        if peaks[i].c == col && peaks[i].z > m {
          m := peaks[i].z;
        }
      }
      if m > 0 {
        var k :| 0 <= k < count && peaks[k].c == col && peaks[k].z == m;
        assert Table()[k].z == m;
      }
    }

    method TrimEdge(col: nat) returns (m: int)
      requires Valid() && Positive(Table())
      modifies peaks, `count
      ensures Valid() && count <= old(count)
      ensures IsColumnMax(old(Table()), col, m) && Table() == Trimmed(old(Table()), col, m)
    {
      m := ColumnMax(col);
      if m != 0 {
        Keep(EdgeKeeps(col, m));
      }
    }

    /** The stages between the scan and the final order. */
    method Reduce(cfg: Config, x: Context, boxes: seq<PalmBox>) returns (ghost w: Trace)
      requires Valid() && Positive(Table())
      modifies peaks, `count
      ensures Valid() && w.kept == old(Table()) && w.right == Table() && Staged(cfg, frame[..], x, boxes, w)
    {
      ghost var kept := Table();
      if cfg.saddleEnabled {
        Strike(cfg);
      }
      ghost var struck := Table();
      if cfg.saddleEnabled {
        Keep(Alive());
      }
      ghost var dipped := Table();
      Keep(NotIsolated(cfg));
      ghost var dense := Table();
      BindSmall(x.(peakCount := count));
      ghost var bound := Table();
      Keep(OutsideAll(boxes));
      ghost var clear := Table();
      StillPositive(cfg, frame[..], x, boxes, kept, struck, dipped, dense, bound, clear);
      var leftMax := TrimEdge(0);
      ghost var left := Table();
      TrimmedPositive(clear, 0, leftMax);
      var rightMax := TrimEdge(59);
      w := Trace(kept, struck, dipped, dense, bound, clear, leftMax, left, rightMax, Table());
    }

    /** The whole stage: the final peaks are what the scan kept, thinned stage by stage, weakest first. */
    method Detect(cfg: Config, drifts: set<nat>, zones: seq<Zone>, arena: array<nat>, x: Context, boxes: seq<PalmBox>)
      returns (ghost seen: seq<Peak>, ghost dropped: multiset<Peak>, ghost w: Trace)
      requires Valid() && Samples(frame[..]) && ZonesApart(arena[..], zones) && cfg.threshold >= 0
      requires cfg.edgeThreshold >= 0
      requires x.zoneCount == |zones|
      modifies peaks, `count
      ensures Valid() && seen == Candidates(cfg, frame[..], drifts, arena[..], zones, |zones|)
      ensures KeepsStrongest(StrengthOf, multiset(seen), w.kept, dropped)
      ensures |w.kept| < MAX_PEAKS ==> dropped == multiset{}
      ensures Staged(cfg, frame[..], x, boxes, w) && multiset(Table()) == multiset(w.right)
      ensures Rooted(frame[..], cfg.Radius(), Table()) && Valued(frame[..], Table()) && Apart(cfg.Radius(), Table())
      ensures InZones(Table(), |zones|) && forall i, j | 0 <= i < j < count :: Table()[i].z <= Table()[j].z
    {
      seen, dropped := Scan(cfg, drifts, zones, arena);
      ghost var f := frame[..];
      CandidatesRooted(cfg, f, drifts, arena[..], zones, |zones|);
      KeptRooted(f, cfg.Radius(), seen, Table(), dropped);
      KeptAsScanned(cfg, f, drifts, arena[..], zones, seen, Table(), dropped);
      w := Reduce(cfg, x, boxes);
      StagesKeepPeaksApart(cfg, f, x, boxes, w);
      StagesKeepZones(cfg, f, x, boxes, w, |zones|);
      SelectionSort(peaks, count, Weakness());
      ReorderedApart(f, cfg.Radius(), w.right, Table());
      ReorderedInZones(w.right, Table(), |zones|);
    }
  }

  lemma Regroup(a: seq<Peak>, b: seq<Peak>, c: seq<Peak>)
    ensures (a + b) + c == a + (b + c)
  {
  }

  lemma NextNeighbour(f: Frame, r: int, c: int, dr: int, dc: int)
    requires -1 <= dr <= 1 && -1 <= dc <= 1
    ensures NeighbourSum(f, r, c, 3 * (dr + 1) + dc + 2)
      == NeighbourSum(f, r, c, 3 * (dr + 1) + dc + 1) + if dr == 0 && dc == 0 then 0 else FrameAt(f, r + dr, c + dc)
  {
    var k := 3 * (dr + 1) + dc + 1;
    assert k / 3 == dr + 1 && k % 3 == dc + 1;
  }

  lemma RowDecided(cfg: Config, f: Frame, s: seq<Peak>, t: seq<Peak>, i: nat)
    requires |s| == |t| && DecidedUpTo(cfg, f, s, t, i, 0)
    ensures DecidedUpTo(cfg, f, s, t, i, i + 1)
  {
  }

  lemma NextRow(cfg: Config, f: Frame, s: seq<Peak>, t: seq<Peak>, i: nat)
    requires |s| == |t| && DecidedUpTo(cfg, f, s, t, i, |s|)
    ensures DecidedUpTo(cfg, f, s, t, i + 1, 0)
  {
    forall a, b | 0 <= a < b < |s| && (a < i + 1 || (a == i + 1 && b < 0)) ensures Decided(cfg, f, s, t, a, b) {
    }
  }

  lemma FilterPositive(s: seq<Peak>, keep: Peak -> bool)
    requires Positive(s)
    ensures Positive(Filter(s, keep))
  {
    FilterIsSubsequence(s, keep);
  }

  lemma TrimmedPositive(s: seq<Peak>, col: nat, m: int)
    requires Positive(s)
    ensures Positive(Trimmed(s, col, m))
  {
    FilterPositive(s, EdgeKeeps(col, m));
  }

  lemma StillPositive(cfg: Config, f: Frame, x: Context, boxes: seq<PalmBox>, kept: seq<Peak>, struck: seq<Peak>,
                      dipped: seq<Peak>, dense: seq<Peak>, bound: seq<Peak>, clear: seq<Peak>)
    requires Positive(kept) && AfterSaddles(cfg, f, kept, struck, dipped) && dense == Filter(dipped, NotIsolated(cfg))
    requires bound == AllBound(x.(peakCount := |dense|), Filter(dense, StaysIn(x.(peakCount := |dense|))))
    requires clear == Filter(bound, OutsideAll(boxes))
    ensures Positive(clear)
  {
    FilterIsSubsequence(struck, Alive());
    FilterPositive(dipped, NotIsolated(cfg));
    FilterPositive(dense, StaysIn(x.(peakCount := |dense|)));
    FilterPositive(bound, OutsideAll(boxes));
  }

  lemma KeptAsScanned(cfg: Config, f: Frame, drifts: set<nat>, arena: seq<nat>, zones: seq<Zone>,
                     seen: seq<Peak>, kept: seq<Peak>, dropped: multiset<Peak>)
    requires Samples(f) && ZonesApart(arena, zones) && seen == Candidates(cfg, f, drifts, arena, zones, |zones|)
    requires KeepsStrongest(StrengthOf, multiset(seen), kept, dropped) && cfg.threshold >= 0 && cfg.edgeThreshold >= 0
    ensures Positive(kept) && InZones(kept, |zones|)
  {
    KeptOutrankDropped(StrengthOf, multiset(seen), kept, dropped);
    forall k | 0 <= k < |kept| ensures kept[k].z >= 0 && kept[k].zoneIndex < |zones| {
      assert kept[k] in multiset(kept);
      assert kept[k] in multiset(seen);
      CandidatesExact(cfg, f, drifts, arena, zones, |zones|, kept[k]);
    }
  }

  lemma ReorderedInZones(s: seq<Peak>, t: seq<Peak>, n: nat)
    requires InZones(s, n) && multiset(t) == multiset(s)
    ensures InZones(t, n)
  {
    forall k | 0 <= k < |t| ensures t[k].zoneIndex < n {
      assert t[k] in multiset(t);
      assert t[k] in multiset(s);
    }
  }
}
