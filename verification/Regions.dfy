/** The region a peak's contact is taken over, and the contact itself. */
module Regions {
  import opened Arithmetic
  import opened Grid
  import opened Components
  import opened Zones
  import opened Peaks
  import opened PeakFilters
  import opened Centroids
  import Tracks

  datatype ResolveConfig = ResolveConfig(
    peakThreshold: int, numer: nat, shift: nat, maxRadius: nat, cleanup: bool,
    edge: EdgeConfig, rejectEnabled: bool, rejectMargin: int, rejectMinSignal: int)
  {
    predicate Valid() { edge.Valid() && shift <= 15 }
  }

  /** A contact on the grid: position in Q8, cells, and what the tracker gets to see. */
  datatype Spot = Spot(x: int, y: int, area: nat, peakIndex: nat, contact: Tracks.Contact)

  // ----- which cells join

  /** Cells of the 3 by 3 window around (r, c), the middle left out, that reach the threshold. */
  function Support(f: Frame, r: int, c: int, t: int, k: nat): int {
    if k == 0 then 0
    else
      var counts := k != 5 && FrameAt(f, r + (k - 1) / 3 - 1, c + (k - 1) % 3 - 1) >= t;
      Support(f, r, c, t, k - 1) + if counts then 1 else 0
  }

  predicate WithinRadius(cfg: ResolveConfig, p: Peak, r: int, c: int) {
    cfg.maxRadius == 0 || (Abs(r - p.r) <= cfg.maxRadius && Abs(c - p.c) <= cfg.maxRadius)
  }

  /** A free cell joins the region of peak p. */
  predicate Joins(cfg: ResolveConfig, f: Frame, p: Peak, t: int, r: int, c: int) {
    && FrameAt(f, r, c) >= t
    && WithinRadius(cfg, p, r, c)
    && (!cfg.cleanup || Support(f, r, c, t, 9) >= 2)
  }

  /** Where the region of p may grow: its own cell, and free cells that join. */
  ghost function Room(cfg: ResolveConfig, f: Frame, p: Peak, t: int, owner: seq<nat>): (g: Frame)
    requires OnGrid(p) && |owner| == PIXELS
  {
    seq(PIXELS, i requires 0 <= i < PIXELS =>
      if i == CellOf(p) || (owner[i] == 0 && Joins(cfg, f, p, t, Row(i), Col(i))) then 1 else 0)
  }

  /** The threshold for the region of peak p. */
  function ThresholdFor(cfg: ResolveConfig, p: Peak): int
    requires cfg.Valid()
  {
    Threshold(cfg.peakThreshold, cfg.numer, cfg.shift, p.z)
  }

  lemma {:induction false} EverybodySupports(f: Frame, r: int, c: int, t: int, k: nat)
    requires t <= 0
    ensures Support(f, r, c, t, k) >= if k >= 5 then k - 1 else k
  {
    if k > 0 {
      EverybodySupports(f, r, c, t, k - 1);
    }
  }

  /** A cell without signal never joins a region exactly when the threshold is positive for every
      peak; otherwise, for some peak, every free cell within the radius joins. */
  lemma SilentCellsStayOutExactlyWhen(cfg: ResolveConfig)
    requires cfg.Valid() && 1 <= cfg.peakThreshold <= 4095 && cfg.numer <= 255
    ensures ThresholdFits(cfg.peakThreshold, cfg.numer, cfg.shift) <==>
      forall f: Frame, p: Peak, r, c | FrameAt(f, r, c) == 0 :: !Joins(cfg, f, p, ThresholdFor(cfg, p), r, c)
    ensures !ThresholdFits(cfg.peakThreshold, cfg.numer, cfg.shift) ==>
      exists p: Peak :: OnGrid(p) && p.z >= 1 && TakesAll(cfg, p)
  {
    ThresholdPositiveExactlyWhen(cfg.peakThreshold, cfg.numer, cfg.shift);
    if !ThresholdFits(cfg.peakThreshold, cfg.numer, cfg.shift) {
      var z := SomeSignalWraps(cfg.peakThreshold, cfg.numer, cfg.shift);
      var p := Peak(0, 0, z, 0, 0, 0, 0, 0, 0, 0, true, false, false, -1);
      WrappedTakesAll(cfg, p);
      var f: Frame := seq(PIXELS, _ => 0);
      assert FrameAt(f, 0, 0) == 0 && Joins(cfg, f, p, ThresholdFor(cfg, p), 0, 0);
    }
  }

  /** Whatever the frame shows, every cell within the radius joins the region of p. */
  ghost predicate TakesAll(cfg: ResolveConfig, p: Peak)
    requires cfg.Valid()
  {
    forall f: Frame, r, c | WithinRadius(cfg, p, r, c) :: Joins(cfg, f, p, ThresholdFor(cfg, p), r, c)
  }

  lemma WrappedTakesAll(cfg: ResolveConfig, p: Peak)
    requires cfg.Valid() && ThresholdFor(cfg, p) <= 0
    ensures TakesAll(cfg, p)
  {
    forall f: Frame, r, c | WithinRadius(cfg, p, r, c) ensures Joins(cfg, f, p, ThresholdFor(cfg, p), r, c) {
      EverybodySupports(f, r, c, ThresholdFor(cfg, p), 9);
    }
  }

  /** In direction d from cell a there is no cell of another region; the seed counts as free. */
  ghost predicate Quiet(owner: seq<nat>, seed: nat, a: nat, d: nat)
    requires |owner| == PIXELS && d < 8
  {
    InGrid(Row(a) + DR[d], Col(a) + DC[d]) ==>
      var b := Cell(Row(a) + DR[d], Col(a) + DC[d]); b == seed || owner[b] == 0
  }

  ghost predicate QuietUpTo(owner: seq<nat>, seed: nat, q: seq<nat>, k: nat)
    requires |owner| == PIXELS && k <= |q|
  {
    forall i, d | 0 <= i < k && 0 <= d < 8 :: Quiet(owner, seed, q[i], d)
  }

  /** The owner map once the cells q belong to `id`. */
  ghost predicate OwnedBy(owner: seq<nat>, taken: seq<nat>, q: seq<nat>, id: nat) {
    |owner| == |taken| == PIXELS && forall i | 0 <= i < PIXELS :: taken[i] == if i in q then id else owner[i]
  }

  // ----- contacts

  function ContactOf(p: Peak, sum: int): Tracks.Contact
    requires p.zoneIndex < 0x100
  {
    Tracks.Contact(sum, p.r == 0 || p.r == 39 || p.c == 0 || p.c == 59, p.fastStart, p.id, p.age, p.zoneIndex,
                   p.continuationOnly, p.slot)
  }

  /** The contact over a list of cells. */
  ghost function SpotOver(f: Frame, p: Peak, index: nat, cells: seq<nat>): Spot
    requires p.zoneIndex < 0x100 && (forall k | 0 <= k < |cells| :: cells[k] < PIXELS) && Signal(f, cells) >= 0
  {
    Spot(CentroidOf(128 * Weighted(f, cells, true), Signal(f, cells), p.c),
         CentroidOf(128 * Weighted(f, cells, false), Signal(f, cells), p.r),
         |cells|, index, ContactOf(p, Signal(f, cells)))
  }

  /** The cell at (r, c), if it carries signal. */
  ghost function PositiveCell(f: Frame, r: int, c: int): (cells: seq<nat>)
    ensures forall i | 0 <= i < |cells| :: cells[i] < PIXELS
  {
    if FrameAt(f, r, c) > 0 then [Cell(r, c)] else []
  }

  /** The listed cells, then the positive ones among n cells of row r, from column c - 1 on. */
  ghost function WithRow(before: seq<nat>, f: Frame, r: int, c: int, n: nat): (cells: seq<nat>)
    requires forall i | 0 <= i < |before| :: before[i] < PIXELS
    ensures forall i | 0 <= i < |cells| :: cells[i] < PIXELS
  {
    if n == 0 then before else WithRow(before, f, r, c, n - 1) + PositiveCell(f, r, c + n - 2)
  }

  /** The positive cells of the first m rows of the 3 by 3 window around (r, c). */
  ghost function Window(f: Frame, r: int, c: int, m: nat): (cells: seq<nat>)
    ensures forall i | 0 <= i < |cells| :: cells[i] < PIXELS
  {
    if m == 0 then [] else WithRow(Window(f, r, c, m - 1), f, r + m - 2, c, 3)
  }

  ghost predicate NextTo(cells: seq<nat>, r: int, c: int) {
    Within(cells, true, c - 1, c + 1) && Within(cells, false, r - 1, r + 1)
  }

  lemma {:induction false} RowNextTo(before: seq<nat>, f: Frame, r0: int, r: int, c: int, n: nat)
    requires n <= 3 && r0 - 1 <= r <= r0 + 1 && NextTo(before, r0, c)
    ensures NextTo(WithRow(before, f, r, c, n), r0, c)
  {
    if n > 0 {
      RowNextTo(before, f, r0, r, c, n - 1);
    }
  }

  /** The window's cells are next to (r, c). */
  lemma {:induction false} WindowWithin(f: Frame, r: int, c: int, m: nat)
    requires m <= 3
    ensures NextTo(Window(f, r, c, m), r, c)
  {
    if m > 0 {
      WindowWithin(f, r, c, m - 1);
      RowNextTo(Window(f, r, c, m - 1), f, r, r + m - 2, c, 3);
    }
  }

  ghost predicate OnSensor(s: Spot) {
    0 <= s.x <= 59 * 256 + 256 && 0 <= s.y <= 39 * 256 + 256
  }

  /** Every centroid lies on the sensor, between the centres of its outermost cells. */
  lemma SpotInHull(f: Frame, p: Peak, index: nat, cells: seq<nat>, r0: int, r1: int, c0: int, c1: int)
    requires Within(cells, true, c0, c1) && Within(cells, false, r0, r1) && p.zoneIndex < 0x100
    requires c0 <= p.c <= c1 && r0 <= p.r <= r1
    ensures Signal(f, cells) >= 0
    ensures var s := SpotOver(f, p, index, cells);
      Centre(c0) <= s.x <= Centre(c1) && Centre(r0) <= s.y <= Centre(r1)
  {
    CentroidInHull(f, cells, true, c0, c1, p.c);
    CentroidInHull(f, cells, false, r0, r1, p.r);
  }

  lemma CellsOnGrid(cells: seq<nat>)
    requires forall k | 0 <= k < |cells| :: cells[k] < PIXELS
    ensures Within(cells, true, 0, 59) && Within(cells, false, 0, 39)
  {
    forall k | 0 <= k < |cells| ensures Row(cells[k]) <= 39 && Col(cells[k]) <= 59 {
      CellOfRowCol(cells[k]);
    }
  }

  function Compensate(e: EdgeConfig, s: Spot): Spot
    requires e.Valid()
  {
    if s.contact.isEdge then s.(x := Compensated(e, 59, s.x), y := Compensated(e, 39, s.y)) else s
  }

  lemma CompensatedOnSensor(e: EdgeConfig, s: Spot)
    requires e.Valid() && OnSensor(s)
    ensures OnSensor(Compensate(e, s))
  {
    CompensationMonotone(e, 59, s.x, s.x);
    CompensationMonotone(e, 39, s.y, s.y);
  }

  ghost function CellsUsed(f: Frame, p: Peak, owner: seq<nat>, q: seq<nat>): (cells: seq<nat>)
    requires OnGrid(p) && |owner| == PIXELS && forall k | 0 <= k < |q| :: q[k] < PIXELS
    ensures forall k | 0 <= k < |cells| :: cells[k] < PIXELS
  {
    if QuietUpTo(owner, CellOf(p), q, |q|) then q else Window(f, p.r, p.c, 3)
  }

  /** The contact of peak `index`: over its region if it met no other, else over its window. */
  ghost predicate Resolves(cfg: ResolveConfig, f: Frame, p: Peak, index: nat, owner: seq<nat>, q: seq<nat>, s: Spot)
    requires cfg.Valid() && OnGrid(p) && p.zoneIndex < 0x100 && |owner| == PIXELS
  {
    && (forall k | 0 <= k < |q| :: q[k] < PIXELS)
    && IsComponent(Room(cfg, f, p, ThresholdFor(cfg, p), owner), 1, q, CellOf(p))
    && Signal(f, CellsUsed(f, p, owner, q)) >= 0
    && s == Compensate(cfg.edge, SpotOver(f, p, index, CellsUsed(f, p, owner, q)))
  }

  lemma ResolvedOnSensor(cfg: ResolveConfig, f: Frame, p: Peak, index: nat, owner: seq<nat>, q: seq<nat>, s: Spot)
    requires cfg.Valid() && OnGrid(p) && p.zoneIndex < 0x100 && |owner| == PIXELS
    requires Resolves(cfg, f, p, index, owner, q, s)
    ensures OnSensor(s)
  {
    var cells := CellsUsed(f, p, owner, q);
    CellsOnGrid(cells);
    SpotInHull(f, p, index, cells, 0, 39, 0, 59);
    CompensatedOnSensor(cfg.edge, SpotOver(f, p, index, cells));
  }

  // ----- what is handed on

  function SumOf(): Spot -> int { (s: Spot) => s.contact.signalSum }
  function IndexOf(): Spot -> int { (s: Spot) => s.peakIndex }

  function ScreenOf(s: Spot): Tracks.Pos { Tracks.Pos(ScreenX(s.x), ScreenY(s.y)) }

  predicate NearBorder(cfg: ResolveConfig, p: Tracks.Pos) {
    p.x < cfg.rejectMargin || p.x > 2560 - cfg.rejectMargin || p.y < cfg.rejectMargin || p.y > 1600 - cfg.rejectMargin
  }

  /** Weak contacts right at the border are not reported. */
  function Accepted(cfg: ResolveConfig): Spot -> bool {
    (s: Spot) => !(cfg.rejectEnabled && NearBorder(cfg, ScreenOf(s)) && s.contact.signalSum < cfg.rejectMinSignal)
  }
}
