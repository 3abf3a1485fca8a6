/** Which cells a contact is taken over, what it tells the tracker, and which contacts are handed on, in
    samples of the frame. */
module Footprint {
  import opened Arithmetic
  import opened Sealing
  import opened Grid
  import opened Pigeonhole
  import opened Components
  import opened Tables
  import opened Peaks
  import opened PeakFilters
  import opened Centroids
  import opened Regions
  import Zones
  import FingerPeaks

  // ----- cells that join

  function Reaches(f: Frame, r: int, c: int, t: int): nat { if FingerPeaks.Signal(f, r, c) >= t then 1 else 0 }

  /** How many of the eight cells around (r, c) reach the threshold. */
  function Neighbours(f: Frame, r: int, c: int, t: int): nat {
    Reaches(f, r - 1, c - 1, t) + Reaches(f, r - 1, c, t) + Reaches(f, r - 1, c + 1, t) + Reaches(f, r, c - 1, t)
    + Reaches(f, r, c + 1, t) + Reaches(f, r + 1, c - 1, t) + Reaches(f, r + 1, c, t) + Reaches(f, r + 1, c + 1, t)
  }

  lemma SampleIs(f: Frame, r: int, c: int)
    ensures FrameAt(f, r, c) == FingerPeaks.Signal(f, r, c)
  {
  }

  lemma NextNeighbour(f: Frame, r: int, c: int, t: int, dr: int, dc: int, k: nat)
    requires -1 <= dr <= 1 && -1 <= dc <= 1 && k == 3 * (dr + 1) + dc + 1
    ensures Support(f, r, c, t, k + 1)
      == Support(f, r, c, t, k) + if dr == 0 && dc == 0 then 0 else Reaches(f, r + dr, c + dc, t)
  {
    assert k / 3 == dr + 1 && k % 3 == dc + 1;
    NextInSupport(f, r, c, t, k);
    SampleIs(f, r + dr, c + dc);
  }

  lemma NextInSupport(f: Frame, r: int, c: int, t: int, k: nat)
    ensures Support(f, r, c, t, k + 1)
      == Support(f, r, c, t, k) + if k != 4 && FrameAt(f, r + k / 3 - 1, c + k % 3 - 1) >= t then 1 else 0
  {
  }

  lemma ThreeNeighbours(f: Frame, r: int, c: int, t: int, dr: int, k: nat)
    requires -1 <= dr <= 1 && k == 3 * (dr + 1)
    ensures Support(f, r, c, t, k + 3) == Support(f, r, c, t, k)
      + Reaches(f, r + dr, c - 1, t) + (if dr == 0 then 0 else Reaches(f, r + dr, c, t)) + Reaches(f, r + dr, c + 1, t)
  {
    NextNeighbour(f, r, c, t, dr, -1, k);
    NextNeighbour(f, r, c, t, dr, 0, k + 1);
    NextNeighbour(f, r, c, t, dr, 1, k + 2);
  }

  lemma SupportIsNeighbours(f: Frame, r: int, c: int, t: int, k: nat)
    requires k == 0
    ensures Support(f, r, c, t, k + 9) == Neighbours(f, r, c, t)
  {
    ThreeNeighbours(f, r, c, t, -1, k);
    ThreeNeighbours(f, r, c, t, 0, k + 3);
    ThreeNeighbours(f, r, c, t, 1, k + 6);
  }

  /** Cell b is strong enough for the region of p, near enough if there is a limit, and no loner. */
  predicate Fits(cfg: ResolveConfig, f: Frame, p: Peak, t: int, b: nat) {
    && b < PIXELS && FingerPeaks.Signal(f, b / 60, b % 60) >= t
    && (cfg.maxRadius > 0 ==>
          && b / 60 - p.r <= cfg.maxRadius && p.r - b / 60 <= cfg.maxRadius
          && b % 60 - p.c <= cfg.maxRadius && p.c - b % 60 <= cfg.maxRadius)
    && (cfg.cleanup ==> Neighbours(f, b / 60, b % 60, t) >= 2)
  }

  lemma JoinsExactlyWhen(cfg: ResolveConfig, f: Frame, p: Peak, t: int, b: nat)
    requires b < PIXELS
    ensures Joins(cfg, f, p, t, Row(b), Col(b)) <==> Fits(cfg, f, p, t, b)
  {
    SupportIsNeighbours(f, Row(b), Col(b), t, 0);
    CellOfRowCol(b);
  }

  /** The threshold is the given fraction of the peak's signal, or of the peak threshold if that is less;
      rounded down, at least 1. */
  lemma ThresholdScales(cfg: ResolveConfig, p: Peak)
    requires cfg.Valid()
    ensures var base, t := if p.z < cfg.peakThreshold then p.z as int else cfg.peakThreshold, ThresholdFor(cfg, p);
      base * cfg.numer < 0x8000 * Pow2(cfg.shift) ==>
        && t >= 1 && base * cfg.numer < (t + 1) * Pow2(cfg.shift)
        && (t * Pow2(cfg.shift) <= base * cfg.numer || (t == 1 && base * cfg.numer < Pow2(cfg.shift)))
  {
    var base, t, d := Min(cfg.peakThreshold, p.z), ThresholdFor(cfg, p), Pow2(cfg.shift);
    ThresholdKeptExactlyWhen(cfg.peakThreshold, cfg.numer, cfg.shift, p.z);
    if base * cfg.numer < 0x8000 * d {
      DivAtLeast(base * cfg.numer, d, 1);
      DivAtLeast(base * cfg.numer, d, t);
      DivAtLeast(base * cfg.numer, d, t + 1);
    }
  }

  // ----- the region

  /** Cell b may belong to the region of p: its own cell, or a free one that fits. */
  predicate Free(cfg: ResolveConfig, f: Frame, p: Peak, owner: seq<nat>, b: nat)
    requires cfg.Valid() && |owner| == PIXELS
  {
    b == p.r * 60 + p.c || (b < PIXELS && owner[b] == 0 && Fits(cfg, f, p, ThresholdFor(cfg, p), b))
  }

  /** A set of cells with the peak's own that nothing free borders on. */
  ghost predicate Enclosed(cfg: ResolveConfig, f: Frame, p: Peak, owner: seq<nat>, cells: iset<nat>)
    requires cfg.Valid() && |owner| == PIXELS
  {
    && p.r * 60 + p.c in cells
    && forall a: nat, b: nat | a in cells && a < PIXELS && b < PIXELS && Adjacent(a, b) && Free(cfg, f, p, owner, b) ::
         b in cells
  }

  lemma RoomIsFree(cfg: ResolveConfig, f: Frame, p: Peak, owner: seq<nat>, b: nat)
    requires cfg.Valid() && OnGrid(p) && |owner| == PIXELS && b < PIXELS
    ensures Room(cfg, f, p, ThresholdFor(cfg, p), owner)[b] >= 1 <==> Free(cfg, f, p, owner, b)
  {
    JoinsExactlyWhen(cfg, f, p, ThresholdFor(cfg, p), b);
  }

  /** The region consists of free cells, nothing free borders on it, and it is the smallest such set. */
  lemma RegionIsLeast(cfg: ResolveConfig, f: Frame, p: Peak, index: nat, owner: seq<nat>, q: seq<nat>, s: Spot)
    requires cfg.Valid() && OnGrid(p) && p.zoneIndex < 0x100 && |owner| == PIXELS
    requires Resolves(cfg, f, p, index, owner, q, s)
    ensures Distinct(q) && forall b | b in q :: b < PIXELS && Free(cfg, f, p, owner, b)
    ensures Enclosed(cfg, f, p, owner, iset b | b in q)
    ensures forall cells | Enclosed(cfg, f, p, owner, cells) :: forall b | b in q :: b in cells
  {
    RegionIsFree(cfg, f, p, index, owner, q, s);
    RegionIsEnclosed(cfg, f, p, index, owner, q, s);
    forall cells | Enclosed(cfg, f, p, owner, cells) ensures forall b | b in q :: b in cells {
      RegionIsWithin(cfg, f, p, index, owner, q, s, cells);
    }
  }

  lemma RegionIsFree(cfg: ResolveConfig, f: Frame, p: Peak, index: nat, owner: seq<nat>, q: seq<nat>, s: Spot)
    requires cfg.Valid() && OnGrid(p) && p.zoneIndex < 0x100 && |owner| == PIXELS
    requires Resolves(cfg, f, p, index, owner, q, s)
    ensures forall b | b in q :: b < PIXELS && Free(cfg, f, p, owner, b)
  {
    var room, seed := Room(cfg, f, p, ThresholdFor(cfg, p), owner), CellOf(p);
    forall b | b in q ensures b < PIXELS && Free(cfg, f, p, owner, b) {
      var w :| Walk(room, 1, w, seed, b);
      RoomIsFree(cfg, f, p, owner, b);
    }
  }

  lemma RegionIsEnclosed(cfg: ResolveConfig, f: Frame, p: Peak, index: nat, owner: seq<nat>, q: seq<nat>, s: Spot)
    requires cfg.Valid() && OnGrid(p) && p.zoneIndex < 0x100 && |owner| == PIXELS
    requires Resolves(cfg, f, p, index, owner, q, s)
    ensures Enclosed(cfg, f, p, owner, iset b | b in q)
  {
    var room, seed := Room(cfg, f, p, ThresholdFor(cfg, p), owner), CellOf(p);
    ConnectedSelf(room, 1, seed);
    forall a: nat, b: nat | a in q && b < PIXELS && Adjacent(a, b) && Free(cfg, f, p, owner, b) ensures b in q {
      RoomIsFree(cfg, f, p, owner, b);
      ConnectedStep(room, 1, seed, a, b);
    }
  }

  lemma RegionIsWithin(cfg: ResolveConfig, f: Frame, p: Peak, index: nat, owner: seq<nat>, q: seq<nat>, s: Spot,
                       cells: iset<nat>)
    requires cfg.Valid() && OnGrid(p) && p.zoneIndex < 0x100 && |owner| == PIXELS
    requires Resolves(cfg, f, p, index, owner, q, s) && Enclosed(cfg, f, p, owner, cells)
    ensures forall b | b in q :: b in cells
  {
    var room, seed := Room(cfg, f, p, ThresholdFor(cfg, p), owner), CellOf(p);
    forall b | b in q ensures b in cells {
      var w :| Walk(room, 1, w, seed, b);
      WalkStays(cfg, f, p, owner, cells, w, |w|);
    }
  }

  lemma {:induction false} WalkStays(cfg: ResolveConfig, f: Frame, p: Peak, owner: seq<nat>, cells: iset<nat>,
                                     w: seq<nat>, k: nat)
    requires cfg.Valid() && OnGrid(p) && |owner| == PIXELS && Enclosed(cfg, f, p, owner, cells)
    requires Path(Room(cfg, f, p, ThresholdFor(cfg, p), owner), 1, w) && w[0] == CellOf(p) && 1 <= k <= |w|
    ensures w[k - 1] in cells
  {
    if k > 1 {
      WalkStays(cfg, f, p, owner, cells, w, k - 1);
      RoomIsFree(cfg, f, p, owner, w[k - 1]);
      assert Adjacent(w[k - 2], w[k - 2 + 1]);
    }
  }

  // ----- the window

  /** Cells listed in ascending order, all below a bound. */
  ghost predicate Ascending(cells: seq<nat>, bound: int) {
    (forall i, k | 0 <= i < k < |cells| :: cells[i] < cells[k]) && forall i | 0 <= i < |cells| :: cells[i] < bound
  }

  /** Cell b carries signal and is among n cells of row r, from column c - 1 on. */
  predicate InStrip(f: Frame, r: int, c: int, n: nat, b: nat) {
    b < PIXELS && f[b] > 0 && b / 60 == r && c - 1 <= b % 60 < c - 1 + n
  }

  lemma {:induction false} RowAscends(before: seq<nat>, f: Frame, r: int, c: int, n: nat)
    requires (forall i | 0 <= i < |before| :: before[i] < PIXELS) && Ascending(before, 60 * r + c - 1)
    ensures Ascending(WithRow(before, f, r, c, n), 60 * r + c - 1 + n)
  {
    if n > 0 {
      RowAscends(before, f, r, c, n - 1);
      AscendsOn(WithRow(before, f, r, c, n - 1), 60 * r + c + n - 2, PositiveCell(f, r, c + n - 2));
    }
  }

  lemma AscendsOn(cells: seq<nat>, bound: int, more: seq<nat>)
    requires Ascending(cells, bound) && |more| <= 1 && (more != [] ==> more[0] == bound)
    ensures Ascending(cells + more, bound + 1)
  {
  }

  lemma {:induction false} RowHolds(before: seq<nat>, f: Frame, r: int, c: int, n: nat)
    requires forall i | 0 <= i < |before| :: before[i] < PIXELS
    ensures forall b :: b in WithRow(before, f, r, c, n) <==> b in before || InStrip(f, r, c, n, b)
  {
    if n > 0 {
      RowHolds(before, f, r, c, n - 1);
      var col := c + n - 2;
      forall b: nat ensures InStrip(f, r, c, n, b) <==> InStrip(f, r, c, n - 1, b) || b in PositiveCell(f, r, col) {
        OneCell(f, r, col, b);
      }
    }
  }

  lemma OneCell(f: Frame, r: int, c: int, b: nat)
    ensures b in PositiveCell(f, r, c) <==> b < PIXELS && f[b] > 0 && b / 60 == r && b % 60 == c
  {
    if b < PIXELS && b / 60 == r && b % 60 == c {
      CellOfRowCol(b);
    }
  }

  /** Cell b carries signal and is the peak's own cell or next to it. */
  predicate CloseBy(f: Frame, p: Peak, b: nat) {
    b < PIXELS && f[b] > 0 && -1 <= b / 60 - p.r <= 1 && -1 <= b % 60 - p.c <= 1
  }

  /** Cell b carries signal and is among the first m rows of the window. */
  predicate InRows(f: Frame, r: int, c: int, m: nat, b: nat) {
    b < PIXELS && f[b] > 0 && r - 1 <= b / 60 < r - 1 + m && -1 <= b % 60 - c <= 1
  }

  lemma OneMoreRow(f: Frame, r: int, c: int, m: nat, b: nat)
    requires m > 0
    ensures InRows(f, r, c, m, b) <==> InRows(f, r, c, m - 1, b) || InStrip(f, r + m - 2, c, 3, b)
  {
  }

  lemma {:induction false} RowsHold(f: Frame, r: int, c: int, m: nat)
    requires m <= 3 && 0 <= c < 60
    ensures Ascending(Window(f, r, c, m), 60 * (r - 1 + m) + c - 1)
    ensures forall b :: b in Window(f, r, c, m) <==> InRows(f, r, c, m, b)
  {
    if m > 0 {
      RowsHold(f, r, c, m - 1);
      RowAscends(Window(f, r, c, m - 1), f, r + m - 2, c, 3);
      RowHolds(Window(f, r, c, m - 1), f, r + m - 2, c, 3);
      forall b: nat ensures InRows(f, r, c, m, b) <==> InRows(f, r, c, m - 1, b) || InStrip(f, r + m - 2, c, 3, b) {
        OneMoreRow(f, r, c, m, b);
      }
    }
  }

  lemma WindowIsCloseBy(f: Frame, p: Peak)
    requires OnGrid(p)
    ensures Distinct(Window(f, p.r, p.c, 3)) && forall b :: b in Window(f, p.r, p.c, 3) <==> CloseBy(f, p, b)
  {
    RowsHold(f, p.r, p.c, 3);
    forall b: nat ensures InRows(f, p.r, p.c, 3, b) <==> CloseBy(f, p, b) {
    }
  }

  // ----- the contact

  /** The region met no cell of another one, its own start aside. */
  ghost predicate Undisturbed(p: Peak, owner: seq<nat>, q: seq<nat>)
    requires |owner| == PIXELS
  {
    forall a: nat, b: nat | a in q && b < PIXELS && Adjacent(a, b) && b != p.r * 60 + p.c :: owner[b] == 0
  }

  lemma QuietIsUndisturbed(p: Peak, owner: seq<nat>, q: seq<nat>)
    requires OnGrid(p) && |owner| == PIXELS && forall k | 0 <= k < |q| :: q[k] < PIXELS
    ensures QuietUpTo(owner, CellOf(p), q, |q|) <==> Undisturbed(p, owner, q)
  {
    if QuietUpTo(owner, CellOf(p), q, |q|) {
      forall a: nat, b: nat | a in q && b < PIXELS && Adjacent(a, b) && b != CellOf(p) ensures owner[b] == 0 {
        var k :| 0 <= k < |q| && q[k] == a;
        var d := DirectionOf(a, b);
        CellOfRowCol(b);
        assert Quiet(owner, CellOf(p), q[k], d);
      }
    }
    if Undisturbed(p, owner, q) {
      forall k, d | 0 <= k < |q| && 0 <= d < 8 ensures Quiet(owner, CellOf(p), q[k], d) {
        if InGrid(Row(q[k]) + DR[d], Col(q[k]) + DC[d]) {
          NeighbourIsAdjacent(q[k], d);
          assert q[k] in q;
        }
      }
    }
  }

  /** x is the weighted mean of the cells' centres, rounded down; without signal the middle of the peak's cell. */
  ghost predicate IsMean(f: Frame, cells: seq<nat>, column: bool, own: int, x: int)
    requires forall k | 0 <= k < |cells| :: cells[k] < PIXELS
  {
    var total := Zones.Signal(f, cells);
    if total == 0 then x == own * 256 + 128
    else total * x <= 256 * Weighted(f, cells, column) + 128 * total < total * (x + 1)
  }

  /** What the contact over these cells says; at the edge its position is compensated. */
  ghost predicate Says(cfg: ResolveConfig, f: Frame, p: Peak, index: nat, cells: seq<nat>, s: Spot, x: int, y: int)
    requires cfg.Valid() && forall k | 0 <= k < |cells| :: cells[k] < PIXELS
  {
    && IsMean(f, cells, true, p.c, x) && IsMean(f, cells, false, p.r, y)
    && (if p.r in {0, 39} || p.c in {0, 59} then
          s.contact.isEdge && s.x == Compensated(cfg.edge, 59, x) && s.y == Compensated(cfg.edge, 39, y)
        else !s.contact.isEdge && s.x == x && s.y == y)
    && s.area == |cells| && s.peakIndex == index && s.contact.signalSum == Zones.Signal(f, cells)
    && s.contact.peakId == p.id && s.contact.peakAge == p.age && s.contact.zone == p.zoneIndex
    && s.contact.fastStart == p.fastStart && s.contact.continuationOnly == p.continuationOnly
    && s.contact.slot == p.slot
  }

  /** A contact is taken over its region while that met no other; else over the cells with signal right at
      the peak. */
  lemma ContactSays(cfg: ResolveConfig, f: Frame, p: Peak, index: nat, owner: seq<nat>, q: seq<nat>, s: Spot)
    returns (cells: seq<nat>, x: int, y: int)
    requires cfg.Valid() && OnGrid(p) && p.zoneIndex < 0x100 && |owner| == PIXELS
    requires Resolves(cfg, f, p, index, owner, q, s)
    ensures Distinct(cells) && (forall k | 0 <= k < |cells| :: cells[k] < PIXELS)
    ensures if Undisturbed(p, owner, q) then cells == q else forall b :: b in cells <==> CloseBy(f, p, b)
    ensures Says(cfg, f, p, index, cells, s, x, y)
  {
    cells := CellsUsed(f, p, owner, q);
    QuietIsUndisturbed(p, owner, q);
    WindowIsCloseBy(f, p);
    CentroidIsMean(f, cells, true, p.c);
    CentroidIsMean(f, cells, false, p.r);
    x := CentroidOf(128 * Weighted(f, cells, true), Zones.Signal(f, cells), p.c);
    y := CentroidOf(128 * Weighted(f, cells, false), Zones.Signal(f, cells), p.r);
  }

  // ----- what is handed on

  /** The screen position is the grid position scaled from 60 by 40 cells to 2560 by 1600, rounded down. */
  lemma ScreenIsScaled(s: Spot)
    requires OnSensor(s)
    ensures var at := ScreenOf(s);
      60 * 256 * at.x <= 2560 * s.x < 60 * 256 * (at.x + 1) && 40 * 256 * at.y <= 1600 * s.y < 40 * 256 * (at.y + 1)
  {
    SensorOnScreen(s.x, s.y);
  }

  /** A contact is held back exactly when it is too weak and nearer to a border of the screen than the margin. */
  lemma RejectedExactlyWhen(cfg: ResolveConfig, s: Spot)
    requires OnSensor(s)
    ensures var at := ScreenOf(s);
      !Accepted(cfg)(s) <==>
        cfg.rejectEnabled && s.contact.signalSum < cfg.rejectMinSignal
        && Min(Min(at.x, 2560 - at.x), Min(at.y, 1600 - at.y)) < cfg.rejectMargin
  {
  }

  /** Of more contacts than slots those with the most signal stay. */
  lemma StrongestStay(all: seq<Spot>, kept: seq<Spot>, dropped: multiset<Spot>)
    requires KeepsStrongest(SumOf(), multiset(all), kept, dropped)
    ensures multiset(kept) + dropped == multiset(all)
    ensures forall k, x | 0 <= k < |kept| && x in dropped :: x.contact.signalSum <= kept[k].contact.signalSum
  {
    assert Open(0);
    forall k, x | 0 <= k < |kept| && x in dropped ensures x.contact.signalSum <= kept[k].contact.signalSum {
      assert SumOf()(x) <= SumOf()(kept[k]);
    }
  }
}
