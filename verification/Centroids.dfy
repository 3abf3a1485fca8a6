/** Weighted centroids in Q8 grid units, edge compensation, and conversion to screen coordinates. */
module Centroids {
  import opened Machine
  import opened Arithmetic
  import opened Grid
  import opened Components
  import opened Zones
  import Tracks

  /** Column or row of a cell. */
  function Coord(cell: nat, column: bool): nat { if column then Col(cell) else Row(cell) }

  /** Signal-weighted sum of coordinates. */
  ghost function Weighted(f: Frame, cells: seq<nat>, column: bool): int
    requires forall k | 0 <= k < |cells| :: cells[k] < PIXELS
  {
    if cells == [] then 0
    else
      Weighted(f, cells[..|cells| - 1], column) + Coord(cells[|cells| - 1], column) * Max(f[cells[|cells| - 1]], 0)
  }

  /** Centre of a cell in Q8. */
  function Centre(coord: int): int { coord * 256 + 128 }

  /** The driver's centroid: sums with the coordinate scaled by 128, doubled, divided, centred. */
  function CentroidOf(weighted: int, total: int, fallback: int): int
    requires total >= 0
  {
    if total > 0 then weighted * 2 / total + 128 else Centre(fallback)
  }

  ghost predicate Within(cells: seq<nat>, column: bool, lo: int, hi: int) {
    forall k | 0 <= k < |cells| :: cells[k] < PIXELS && lo <= Coord(cells[k], column) <= hi
  }

  lemma MulLe(a: int, b: int, d: int)
    requires d >= 0
    ensures a <= b ==> a * d <= b * d
  {
    if a <= b {
      assert (b - a) * d >= 0;
      assert (b - a) * d == b * d - a * d;
    }
  }

  lemma OneMoreWeight(lo: int, hi: int, x: int, w: int, total: int, weighted: int)
    requires lo * total <= weighted <= hi * total && lo <= x <= hi && w >= 0
    ensures lo * (total + w) <= weighted + x * w <= hi * (total + w)
  {
    MulLe(lo, x, w);
    MulLe(x, hi, w);
    assert lo * (total + w) == lo * total + lo * w;
    assert hi * (total + w) == hi * total + hi * w;
  }

  lemma {:induction false} WeightedBetween(f: Frame, cells: seq<nat>, column: bool, lo: int, hi: int)
    requires Within(cells, column, lo, hi)
    ensures Signal(f, cells) >= 0
    ensures lo * Signal(f, cells) <= Weighted(f, cells, column) <= hi * Signal(f, cells)
  {
    if cells != [] {
      var k := |cells| - 1;
      WeightedBetween(f, cells[..k], column, lo, hi);
      OneMoreWeight(lo, hi, Coord(cells[k], column), Max(f[cells[k]], 0), Signal(f, cells[..k]),
          Weighted(f, cells[..k], column));
    }
  }

  lemma DivBetween(n: int, d: int, lo: int, hi: int)
    requires d > 0 && lo * d <= n <= hi * d
    ensures lo <= n / d <= hi
  {
    var q := n / d;
    MulLe(q + 1, lo, d);
    MulLe(hi + 1, q, d);
    assert n == q * d + n % d;
    assert (q + 1) * d == q * d + d && (hi + 1) * d == hi * d + d;
  }

  lemma ScaledBetween(weighted: int, total: int, lo: int, hi: int)
    requires total > 0 && lo * total <= weighted <= hi * total
    ensures 256 * lo <= 128 * weighted * 2 / total <= 256 * hi
  {
    assert (256 * lo) * total == 256 * (lo * total);
    assert (256 * hi) * total == 256 * (hi * total);
    DivBetween(128 * weighted * 2, total, 256 * lo, 256 * hi);
  }

  /** A centroid lies between the centres of the outermost cells it was taken over. */
  lemma CentroidInHull(f: Frame, cells: seq<nat>, column: bool, lo: int, hi: int, fallback: int)
    requires Within(cells, column, lo, hi) && lo <= fallback <= hi
    ensures Signal(f, cells) >= 0
    ensures Centre(lo) <= CentroidOf(128 * Weighted(f, cells, column), Signal(f, cells), fallback) <= Centre(hi)
  {
    WeightedBetween(f, cells, column, lo, hi);
    if Signal(f, cells) > 0 {
      ScaledBetween(Weighted(f, cells, column), Signal(f, cells), lo, hi);
    }
  }

  /** It is the mean of the cells' centres, each weighted by its positive signal, rounded down to one part in
      256 of a cell; without any signal it is the centre of the peak's own cell. */
  lemma CentroidIsMean(f: Frame, cells: seq<nat>, column: bool, fallback: int)
    requires forall k | 0 <= k < |cells| :: cells[k] < PIXELS
    ensures Signal(f, cells) >= 0
    ensures var total, x := Signal(f, cells), CentroidOf(128 * Weighted(f, cells, column), Signal(f, cells), fallback);
      if total == 0 then x == fallback * 256 + 128
      else total * x <= 256 * Weighted(f, cells, column) + 128 * total < total * (x + 1)
  {
    CellsAnywhere(cells, column);
    WeightedBetween(f, cells, column, 0, 60);
    if Signal(f, cells) > 0 {
      MeanBetween(Weighted(f, cells, column), Signal(f, cells));
    }
  }

  lemma MeanBetween(weighted: int, total: int)
    requires total > 0
    ensures var x := 128 * weighted * 2 / total + 128;
      total * x <= 256 * weighted + 128 * total < total * (x + 1)
  {
    var n, q := 128 * weighted * 2, 128 * weighted * 2 / total;
    assert n == total * q + n % total;
    assert total * (q + 128) == total * q + total * 128;
    assert total * (q + 129) == total * q + total * 129;
  }

  lemma CellsAnywhere(cells: seq<nat>, column: bool)
    requires forall k | 0 <= k < |cells| :: cells[k] < PIXELS
    ensures Within(cells, column, 0, 60)
  {
    forall k | 0 <= k < |cells| ensures Row(cells[k]) <= 39 && Col(cells[k]) <= 59 {
      CellOfRowCol(cells[k]);
    }
  }

  // ----- edge compensation

  datatype EdgeConfig = EdgeConfig(enabled: bool, push: int, blend: int)
  {
    predicate Valid() { 0 <= push <= 1280 && 1 <= blend <= 1280 }
  }

  /** How far a point at this distance from an edge is pushed out: most at the edge, fading to none. */
  function Push(e: EdgeConfig, dist: int): int
    requires e.Valid() && dist < e.blend
  {
    e.push * (e.blend - dist) / e.blend
  }

  function PushLow(e: EdgeConfig, x: int): int
    requires e.Valid()
  {
    if x < e.blend then Max(x - Push(e, x), 0) else x
  }

  /** The far edge: `last` is the last grid line, its centre half a cell further, its rim a whole one. */
  function PushHigh(e: EdgeConfig, last: int, x: int): int
    requires e.Valid()
  {
    var dist := last * 256 + 128 - x;
    if dist < e.blend then Min(x + Push(e, dist), last * 256 + 256) else x
  }

  function Compensated(e: EdgeConfig, last: int, x: int): int
    requires e.Valid()
  {
    if !e.enabled || e.push <= 0 then x else PushHigh(e, last, PushLow(e, x))
  }

  lemma DivLe(x: int, y: int, d: int)
    requires d > 0 && 0 <= x <= y
    ensures 0 <= x / d <= y / d
  {
    MulLe(y / d + 1, x / d, d);
    assert x == x / d * d + x % d && y == y / d * d + y % d;
    assert (y / d + 1) * d == y / d * d + d;
  }

  lemma PushGrows(e: EdgeConfig, a: int, b: int)
    requires e.Valid() && a <= b < e.blend
    ensures 0 <= Push(e, b) <= Push(e, a)
  {
    MulLe(e.blend - b, e.blend - a, e.push);
    MulLe(0, e.blend - b, e.push);
    DivLe(e.push * (e.blend - b), e.push * (e.blend - a), e.blend);
  }

  lemma PushLowKeeps(e: EdgeConfig, a: int, b: int)
    requires e.Valid() && 0 <= a <= b
    ensures 0 <= PushLow(e, a) <= PushLow(e, b) && PushLow(e, a) <= a
  {
    if a < e.blend {
      PushGrows(e, a, a);
      if b < e.blend {
        PushGrows(e, a, b);
      }
    }
  }

  lemma PushHighKeeps(e: EdgeConfig, last: nat, a: int, b: int)
    requires e.Valid() && a <= b <= last * 256 + 256
    ensures PushHigh(e, last, a) <= PushHigh(e, last, b) <= last * 256 + 256 && PushHigh(e, last, a) >= a
  {
    var da, db := last * 256 + 128 - a, last * 256 + 128 - b;
    if da < e.blend {
      PushGrows(e, db, da);
    } else if db < e.blend {
      PushGrows(e, db, db);
    }
  }

  /** Edge compensation keeps the order of positions and never leaves the sensor. */
  lemma CompensationMonotone(e: EdgeConfig, last: nat, a: int, b: int)
    requires e.Valid() && 0 <= a <= b <= last * 256 + 256
    ensures 0 <= Compensated(e, last, a) <= Compensated(e, last, b) <= last * 256 + 256
  {
    PushLowKeeps(e, a, b);
    PushLowKeeps(e, b, b);
    PushHighKeeps(e, last, PushLow(e, a), PushLow(e, b));
  }

  /** Compensation acts only within the blend width of an edge. There it pushes outwards: fully at the edge,
      less and less further in, and never past the rim. */
  lemma CompensatesOnlyNearEdges(e: EdgeConfig, last: nat, x: int)
    requires e.Valid() && 0 <= x <= last * 256 + 256
    ensures !e.enabled || e.push == 0 ==> Compensated(e, last, x) == x
    ensures e.blend <= x <= last * 256 + 128 - e.blend ==> Compensated(e, last, x) == x
    ensures e.enabled && x < e.blend && x <= last * 256 + 128 - e.blend ==>
      Compensated(e, last, x) == Max(x - e.push * (e.blend - x) / e.blend, 0)
    ensures var d := last * 256 + 128 - x;
      e.enabled && e.blend <= x && d < e.blend ==>
        Compensated(e, last, x) == Min(x + e.push * (e.blend - d) / e.blend, last * 256 + 256)
  {
    if x < e.blend {
      PushLowKeeps(e, x, x);
    }
    if e.push == 0 {
      assert 0 / e.blend == 0;
    }
  }

  // ----- screen coordinates

  function ScreenX(x: int): int { Clamp(x / 6, 0, 65535) }
  function ScreenY(y: int): int { Clamp(5 * y / 32, 0, 65535) }

  /** Any grid position on the sensor maps onto the screen; the clamps never act. */
  lemma SensorOnScreen(x: int, y: int)
    requires 0 <= x <= 59 * 256 + 256 && 0 <= y <= 39 * 256 + 256
    ensures Tracks.OnScreen(Tracks.Pos(ScreenX(x), ScreenY(y)))
    ensures ScreenX(x) == x / 6 && ScreenY(y) == 5 * y / 32
  {
  }

  // ----- the growth threshold

  /** Conversion to a signed 16 bit value. */
  function ToS16(x: int): int {
    var low := x % 0x10000;
    if low < 0x8000 then low else low - 0x10000
  }

  function RawThreshold(peakThreshold: int, numer: nat, shift: nat, z: int): int
    requires shift <= 15
  {
    var base := Min(peakThreshold, z);
    Max(base * numer / Pow2(shift), 1)
  }

  /** Cells at or above this join a contact. */
  function Threshold(peakThreshold: int, numer: nat, shift: nat, z: int): int
    requires shift <= 15
  {
    ToS16(RawThreshold(peakThreshold, numer, shift, z))
  }

  lemma DivAtLeast(x: int, d: int, q: int)
    requires d > 0
    ensures x / d >= q <==> x >= q * d
  {
    assert x == x / d * d + x % d;
    MulLe(q, x / d, d);
    MulLe(x / d + 1, q, d);
    assert (x / d + 1) * d == x / d * d + d;
  }

  /** The tunables leave room for the largest threshold in a signed 16 bit value. */
  predicate ThresholdFits(base: int, numer: nat, shift: nat) { base * numer < 0x8000 * Pow2(shift) }

  /** For a peak of signal z the threshold survives its narrowing exactly when the smaller of z and
      the peak threshold fits. */
  lemma ThresholdKeptExactlyWhen(peakThreshold: int, numer: nat, shift: nat, z: int)
    requires shift <= 15
    ensures Threshold(peakThreshold, numer, shift, z) == RawThreshold(peakThreshold, numer, shift, z)
      <==> ThresholdFits(Min(peakThreshold, z), numer, shift)
  {
    DivAtLeast(Min(peakThreshold, z) * numer, Pow2(shift), 0x8000);
  }

  /** Some signal wraps the threshold if the peak threshold does not fit: the first that does not fit
      overshoots by less than `numer`. */
  lemma SomeSignalWraps(peakThreshold: int, numer: nat, shift: nat) returns (z: nat)
    requires 1 <= peakThreshold <= 4095 && numer <= 255 && shift <= 15 && !ThresholdFits(peakThreshold, numer, shift)
    ensures 1 <= z <= peakThreshold && Threshold(peakThreshold, numer, shift, z) < 0
  {
    var d := Pow2(shift);
    z := 1;
    while ThresholdFits(z, numer, shift)
      invariant 1 <= z <= peakThreshold && ThresholdFits(z - 1, numer, shift)
      decreases peakThreshold - z
    {
      z := z + 1;
    }
    assert z * numer == (z - 1) * numer + numer;
    DivAtLeast(z * numer, d, 0x8000);
    DivAtLeast(z * numer, d, 0x8000 + 256);
  }

  /** The threshold is positive, and as computed, for peaks of every signal exactly under tunables
      that leave room for it. */
  lemma ThresholdPositiveExactlyWhen(peakThreshold: int, numer: nat, shift: nat)
    requires 1 <= peakThreshold <= 4095 && numer <= 255 && shift <= 15
    ensures (forall z: s16 :: Threshold(peakThreshold, numer, shift, z) > 0) <==>
      ThresholdFits(peakThreshold, numer, shift)
    ensures (forall z: s16 ::
        Threshold(peakThreshold, numer, shift, z) == RawThreshold(peakThreshold, numer, shift, z)) <==>
      ThresholdFits(peakThreshold, numer, shift)
  {
    if ThresholdFits(peakThreshold, numer, shift) {
      forall z: s16
        ensures Threshold(peakThreshold, numer, shift, z) == RawThreshold(peakThreshold, numer, shift, z) >= 1
      {
        MulLe(Min(peakThreshold, z), peakThreshold, numer);
        ThresholdKeptExactlyWhen(peakThreshold, numer, shift, z);
      }
    } else {
      var z := SomeSignalWraps(peakThreshold, numer, shift);
      assert Threshold(peakThreshold, numer, shift, z) < 1 <= RawThreshold(peakThreshold, numer, shift, z);
    }
  }

  /** Tunables within their accepted ranges that leave no room. */
  lemma ThresholdCanWrap()
    ensures !ThresholdFits(4095, 255, 4) && Threshold(4095, 255, 4, 4095) < 0
  {
    assert Pow2(4) == 16;
  }
}
