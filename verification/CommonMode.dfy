/** The panel-wide drift estimate: a histogram stands in for the exact median. */
module CommonMode {
  import opened Machine
  import opened Arithmetic
  import opened Grid

  const BINS := 2048

  /** Per-cell differences; cell 0 carries no data and is never read. */
  type Deltas = d: seq<int> | |d| == 2400 witness seq(2400, _ => 0)

  ghost predicate InReach(d: Deltas) {
    forall i | 1 <= i < PIXELS :: -65535 <= d[i] <= 65535
  }

  function BinOf(delta: int): int { (delta + 65536) / 64 }

  /** How many of cells 1..k-1 lie below x. */
  ghost function CountBelow(d: Deltas, x: int, k: nat): nat
    requires k <= PIXELS
  {
    if k <= 1 then 0 else CountBelow(d, x, k - 1) + if d[k - 1] < x then 1 else 0
  }

  ghost function CountBin(d: Deltas, b: int, k: nat): nat
    requires k <= PIXELS
  {
    if k <= 1 then 0 else CountBin(d, b, k - 1) + if BinOf(d[k - 1]) == b then 1 else 0
  }

  ghost function SumBin(d: Deltas, b: int, k: nat): int
    requires k <= PIXELS
  {
    if k <= 1 then 0 else SumBin(d, b, k - 1) + if BinOf(d[k - 1]) == b then d[k - 1] else 0
  }

  /** Lower end of a bin. */
  function BinStart(b: int): int { b * 64 - 65536 }

  lemma {:induction false} BinSplitsCount(d: Deltas, b: int, k: nat)
    requires k <= PIXELS
    ensures CountBelow(d, BinStart(b + 1), k) == CountBelow(d, BinStart(b), k) + CountBin(d, b, k)
  {
    if k > 1 {
      BinSplitsCount(d, b, k - 1);
    }
  }

  lemma {:induction false} CountMonotone(d: Deltas, x: int, y: int, k: nat)
    requires k <= PIXELS && x <= y
    ensures CountBelow(d, x, k) <= CountBelow(d, y, k)
  {
    if k > 1 {
      CountMonotone(d, x, y, k - 1);
    }
  }

  lemma {:induction false} CountExtremes(d: Deltas, k: nat)
    requires 1 <= k <= PIXELS && InReach(d)
    ensures CountBelow(d, -65536, k) == 0 && CountBelow(d, 65536, k) == k - 1
  {
    if k > 1 {
      CountExtremes(d, k - 1);
    }
  }

  /** The sum over a bin lies between count times the bin's ends. */
  lemma {:induction false} BinSumBounds(d: Deltas, b: int, k: nat)
    requires k <= PIXELS
    ensures CountBin(d, b, k) * BinStart(b) <= SumBin(d, b, k) <= CountBin(d, b, k) * (BinStart(b) + 63)
  {
    if k > 1 {
      BinSumBounds(d, b, k - 1);
      assert (CountBin(d, b, k - 1) + 1) * BinStart(b) == CountBin(d, b, k - 1) * BinStart(b) + BinStart(b);
    }
  }

  /** The exact median of the 2399 differences: the value of rank 1200. */
  ghost predicate IsMedian(d: Deltas, m: int) {
    && (exists i :: 1 <= i < PIXELS && d[i] == m)
    && CountBelow(d, m, PIXELS) < 1200 <= CountBelow(d, m + 1, PIXELS)
  }

  lemma QuotientBetween(x: int, n: int, lo: int, hi: int)
    requires n > 0 && n * lo <= x <= n * hi
    ensures lo <= x / n <= hi
  {
    var q := x / n;
    assert x == q * n + x % n;
    ProductOrder(n, q, lo - 1);
    ProductOrder(n, hi + 1, q);
    ProductOrder(n, lo - 1, q);
    ProductOrder(n, q, hi + 1);
  }

  lemma ProductOrder(n: int, a: int, b: int)
    requires n > 0
    ensures a <= b ==> n * a <= n * b
    ensures n * (b + 1) == n * b + n && n * (a + 1) == n * a + n
  {
  }

  lemma TruncBetween(x: int, n: int, lo: int, hi: int)
    requires n > 0 && n * lo <= x <= n * hi
    ensures lo <= Div(x, n) <= hi
  {
    if x >= 0 {
      QuotientBetween(x, n, lo, hi);
    } else {
      assert n * -hi == -(n * hi) && n * -lo == -(n * lo);
      QuotientBetween(-x, n, -hi, -lo);
    }
  }

  /** Rank 1200 falls in bin b. */
  ghost predicate MiddleBin(d: Deltas, b: int) {
    CountBelow(d, BinStart(b), PIXELS) < 1200 <= CountBelow(d, BinStart(b + 1), PIXELS)
  }

  lemma MedianInMiddleBin(d: Deltas, b: int, m: int)
    requires MiddleBin(d, b) && IsMedian(d, m)
    ensures BinStart(b) <= m <= BinStart(b) + 63
  {
    if m < BinStart(b) {
      CountMonotone(d, m + 1, BinStart(b), PIXELS);
    }
    if m >= BinStart(b + 1) {
      CountMonotone(d, BinStart(b + 1), m, PIXELS);
    }
  }

  lemma {:induction false} RankExists(d: Deltas, x: int)
    requires InReach(d) && x <= 65536 && CountBelow(d, x, PIXELS) < 1200
    ensures exists m :: x <= m && CountBelow(d, m, PIXELS) < 1200 <= CountBelow(d, m + 1, PIXELS)
    decreases 65536 - x
  {
    if CountBelow(d, x + 1, PIXELS) < 1200 {
      CountExtremes(d, PIXELS);
      if x < 65536 {
        RankExists(d, x + 1);
      }
    } else {
      assert x <= x;
    }
  }

  lemma {:induction false} CountStepHit(d: Deltas, m: int, k: nat)
    requires k <= PIXELS && CountBelow(d, m, k) < CountBelow(d, m + 1, k)
    ensures exists i :: 1 <= i < k && d[i] == m
  {
    if k > 1 && d[k - 1] != m {
      CountStepHit(d, m, k - 1);
    }
  }

  lemma MedianExists(d: Deltas)
    requires InReach(d)
    ensures exists m :: IsMedian(d, m)
  {
    CountExtremes(d, PIXELS);
    RankExists(d, -65536);
    var m :| CountBelow(d, m, PIXELS) < 1200 <= CountBelow(d, m + 1, PIXELS);
    CountStepHit(d, m, PIXELS);
    assert IsMedian(d, m);
  }

  /** The estimate for a given middle bin: the truncated mean of that bin. */
  ghost function Estimate(d: Deltas, b: int): int
    requires CountBin(d, b, PIXELS) > 0
  {
    Div(SumBin(d, b, PIXELS), CountBin(d, b, PIXELS))
  }

  /** The estimate is within one bin of the exact median, which always exists. */
  lemma EstimateNearMedian(d: Deltas, b: int)
    requires InReach(d) && MiddleBin(d, b)
    ensures CountBin(d, b, PIXELS) > 0 && exists m :: IsMedian(d, m)
    ensures forall m | IsMedian(d, m) :: -63 <= Estimate(d, b) - m <= 63
  {
    BinSplitsCount(d, b, PIXELS);
    BinSumBounds(d, b, PIXELS);
    TruncBetween(SumBin(d, b, PIXELS), CountBin(d, b, PIXELS), BinStart(b), BinStart(b) + 63);
    MedianExists(d);
    forall m | IsMedian(d, m) ensures -63 <= Estimate(d, b) - m <= 63 {
      MedianInMiddleBin(d, b, m);
    }
  }

  lemma {:induction false} BinSumInHull(d: Deltas, b: int, k: nat, lo: int, hi: int)
    requires k <= PIXELS && forall i | 1 <= i < PIXELS :: lo <= d[i] <= hi
    ensures CountBin(d, b, k) * lo <= SumBin(d, b, k) <= CountBin(d, b, k) * hi
  {
    if k > 1 {
      BinSumInHull(d, b, k - 1, lo, hi);
      assert (CountBin(d, b, k - 1) + 1) * lo == CountBin(d, b, k - 1) * lo + lo;
      assert (CountBin(d, b, k - 1) + 1) * hi == CountBin(d, b, k - 1) * hi + hi;
    }
  }

  /** The estimate never leaves the range of the differences. */
  lemma EstimateInHull(d: Deltas, b: int, lo: int, hi: int)
    requires CountBin(d, b, PIXELS) > 0 && forall i | 1 <= i < PIXELS :: lo <= d[i] <= hi
    ensures lo <= Estimate(d, b) <= hi
  {
    BinSumInHull(d, b, PIXELS, lo, hi);
    TruncBetween(SumBin(d, b, PIXELS), CountBin(d, b, PIXELS), lo, hi);
  }

  /** Counts the differences per bin. No bin index is ever clamped. */
  method FillHistogram(d: Deltas, hist: array<u16>)
    requires InReach(d) && hist.Length == BINS
    modifies hist
    ensures forall b | 0 <= b < BINS :: hist[b] == CountBin(d, b, PIXELS)
  {
    for b := 0 to BINS
      invariant forall k | 0 <= k < b :: hist[k] == 0
    {
      hist[b] := 0;
    }
    for r := 1 to PIXELS
      invariant forall b | 0 <= b < BINS :: hist[b] == CountBin(d, b, r)
      invariant forall b | 0 <= b < BINS :: hist[b] < r
    {
      var bin := BinOf(d[r]);
      assert 0 <= bin < BINS;
      hist[bin] := hist[bin] + 1;
    }
  }

  /** The first bin at which half of the cells are covered. The scan always stops inside the
      table, at a bin that is not empty. */
  method FindMiddleBin(ghost d: Deltas, hist: array<u16>) returns (bin: nat)
    requires InReach(d) && hist.Length == BINS
    requires forall b | 0 <= b < BINS :: hist[b] == CountBin(d, b, PIXELS)
    ensures bin < BINS && hist[bin] > 0 && MiddleBin(d, bin)
  {
    bin := 0;
    var cumulative: int := 0;
    CountExtremes(d, PIXELS);
    assert BinStart(0) == -65536 && BinStart(BINS) == 65536;
    while bin < BINS
      invariant bin <= BINS && cumulative == CountBelow(d, BinStart(bin), PIXELS) && cumulative < 1200
      decreases BINS - bin
    {
      BinSplitsCount(d, bin, PIXELS);
      cumulative := cumulative + hist[bin];
      if cumulative >= 1200 {
        return;
      }
      bin := bin + 1;
    }
    assert false;
  }

  /** The common-mode difference and the largest difference of the frame. */
  method Measure(d: Deltas, hist: array<u16>) returns (common: int, maxDelta: int)
    requires InReach(d) && hist.Length == BINS
    modifies hist
    ensures exists b :: 0 <= b < BINS && MiddleBin(d, b) && CountBin(d, b, PIXELS) > 0 && common == Estimate(d, b)
    ensures forall i | 1 <= i < PIXELS :: d[i] <= maxDelta
    ensures exists i :: 1 <= i < PIXELS && d[i] == maxDelta
  {
    FillHistogram(d, hist);
    var bin := FindMiddleBin(d, hist);
    var sum, count := 0, 0;
    maxDelta := -0x8000_0000;
    for r := 1 to PIXELS
      invariant sum == SumBin(d, bin, r) && count == CountBin(d, bin, r)
      invariant forall i | 1 <= i < r :: d[i] <= maxDelta
      invariant r > 1 ==> exists i :: 1 <= i < r && d[i] == maxDelta
      invariant r == 1 ==> maxDelta == -0x8000_0000
    {
      if d[r] > maxDelta {
        maxDelta := d[r];
      }
      if BinOf(d[r]) == bin {
        sum := sum + d[r];
        count := count + 1;
      }
    }
    common := if count > 0 then Div(sum, count) else 0;
  }
}
