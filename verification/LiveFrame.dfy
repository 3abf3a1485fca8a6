/** What a live frame shows, and what it teaches: in raw samples, the working grid before it, and the
    drift estimate. */
module LiveFrame {
  import opened Machine
  import opened Arithmetic
  import opened Sealing
  import opened Grid
  import opened Instability
  import opened BaselineCell
  import opened CommonMode
  import opened Baseline

  /** How far a sample stands above the grid and the drift. */
  function Excess(raw: Raw, s: Live, common: int, i: nat): int
    requires |s.q8| == 2400 && i < PIXELS
  {
    raw[i] - s.q8[i] / 256 - common
  }

  // ----- what the frame shows

  /** With the baseline on, a cell shows signal exactly where it stands out by the peak threshold, and then
      by how much, cut at the largest sample. It shows a rebound only while held after a release, and
      otherwise nothing; the dead cell 0 never shows anything. */
  lemma ShowsExactlyWhatStandsOut(cfg: Config, x: Sample, anyActive: bool, s: Live, common: int, t: Live,
                                  frame: seq<int>, i: nat)
    requires cfg.Valid() && cfg.enabled && Adapts(cfg, x, anyActive, s, common, t, frame) && 1 <= i < PIXELS
    ensures |s.q8| == |s.hold| == |frame| == 2400 && frame[0] == 0
    ensures frame[i] > 0 <==> Excess(x.raw, s, common, i) >= cfg.peakThreshold
    ensures frame[i] > 0 ==> frame[i] == Min(Excess(x.raw, s, common, i), 0x7fff)
    ensures frame[i] < 0 <==> s.hold[i] > 0 && Excess(x.raw, s, common, i) <= -14
    ensures frame[i] < 0 ==> frame[i] == Max(Excess(x.raw, s, common, i), -0x8000)
  {
    assert Open(0);
    assert AdaptsAs(cfg, x, anyActive, s, common, t, frame);
    var d := Differences(x.raw, s.q8);
    assert d[i] - common >= cfg.peakThreshold ==> Touched(cfg, d, common, x.finger, anyActive);
  }

  /** With the baseline off it shows the distance from the neutral level. */
  lemma ShowsRawWhenOff(cfg: Config, x: Sample, anyActive: bool, s: Live, common: int, t: Live, frame: seq<int>, i: nat)
    requires cfg.Valid() && !cfg.enabled && Adapts(cfg, x, anyActive, s, common, t, frame) && 1 <= i < PIXELS
    ensures |frame| == |t.q8| == |s.q8| == 2400 && t.q8 == s.q8
    ensures frame[i] == Max(Min(x.raw[i] - cfg.initial, 0x7fff), -0x8000)
  {
    assert Open(0);
    assert AdaptsAs(cfg, x, anyActive, s, common, t, frame);
  }

  // ----- a finger on a level panel

  lemma {:induction false} FewBelow(d: Deltas, others: set<nat>, lo: int, hi: int, k: nat)
    requires k <= PIXELS && forall i: nat | 1 <= i < PIXELS && i !in others :: lo <= d[i] <= hi
    ensures var odd := set i | i in others && 1 <= i < k;
      CountBelow(d, lo, k) <= |odd| && CountBelow(d, hi + 1, k) + |odd| + 1 >= k
  {
    var odd := set i | i in others && 1 <= i < k;
    if k > 1 {
      FewBelow(d, others, lo, hi, k - 1);
      var less := set i | i in others && 1 <= i < k - 1;
      assert odd == if k - 1 in others then less + {k - 1} else less;
    }
  }

  lemma SubsetSize(a: set<nat>, b: set<nat>)
    requires a <= b
    ensures |a| <= |b|
  {
    if a != {} {
      var x :| x in a;
      SubsetSize(a - {x}, b - {x});
    }
  }

  /** When all but a minority of the cells lie within a band, the drift estimate does so within 63. */
  lemma DriftOfTheMany(raw: Raw, s: Live, common: int, others: set<nat>, lo: int, hi: int)
    requires |s.q8| == 2400 && (forall i | 0 <= i < PIXELS :: 0 <= s.q8[i] <= Q8_MAX) && |others| <= 1199
    requires IsCommon(Differences(raw, s.q8), common)
    requires forall i: nat | 1 <= i < PIXELS && i !in others :: lo <= raw[i] - s.q8[i] / 256 <= hi
    ensures lo - 63 <= common <= hi + 63
  {
    var d := Differences(raw, s.q8);
    var odd := set i | i in others && 1 <= i < PIXELS;
    SubsetSize(odd, others);
    FewBelow(d, others, lo, hi, PIXELS);
    var b :| 0 <= b < BINS && MiddleBin(d, b) && CountBin(d, b, PIXELS) > 0 && common == Estimate(d, b);
    EstimateNearMedian(d, b);
    var m :| IsMedian(d, m);
    if m < lo {
      CountMonotone(d, m + 1, lo, PIXELS);
    }
    if m > hi {
      CountMonotone(d, hi + 1, m, PIXELS);
    }
  }

  /** On a panel level but for a minority of cells, a cell that stands out by at least the peak threshold
      and the error of the estimate shows, to within that error; a level cell shows nothing if the
      threshold exceeds the error. */
  lemma FingerShows(cfg: Config, x: Sample, anyActive: bool, s: Live, common: int, t: Live, frame: seq<int>,
                    others: set<nat>, level: int, i: nat)
    requires cfg.Valid() && cfg.enabled && Adapts(cfg, x, anyActive, s, common, t, frame) && 1 <= i < PIXELS
    requires |s.q8| == 2400 && (forall k | 0 <= k < PIXELS :: 0 <= s.q8[k] <= Q8_MAX) && |others| <= 1199
    requires forall k: nat | 1 <= k < PIXELS && k !in others :: x.raw[k] - s.q8[k] / 256 == level
    ensures |frame| == 2400
    ensures var h := x.raw[i] - s.q8[i] / 256 - level;
      && (h >= cfg.peakThreshold + 63 ==> frame[i] > 0 && (h <= 0x7fff - 63 ==> h - 63 <= frame[i] <= h + 63))
      && (i !in others && cfg.peakThreshold > 63 ==> frame[i] <= 0)
  {
    ShowsExactlyWhatStandsOut(cfg, x, anyActive, s, common, t, frame, i);
    assert IsCommon(Differences(x.raw, s.q8), common) by {
      assert Open(0);
      assert AdaptsAs(cfg, x, anyActive, s, common, t, frame);
    }
    DriftOfTheMany(x.raw, s, common, others, level, level);
  }

  // ----- what the frame teaches

  /** A frame that nothing touches: no finger, no track, no cell standing out. */
  ghost predicate Clear(cfg: Config, x: Sample, anyActive: bool, s: Live, common: int)
    requires |s.q8| == 2400
  {
    && !x.finger.Present? && !anyActive
    && forall i: nat | 1 <= i < PIXELS :: Excess(x.raw, s, common, i) < cfg.peakThreshold
  }

  /** Learning at full speed right after a frame that showed or froze nothing, for a limited time. */
  predicate Fast(cfg: Config, s: Live) { (!s.hadSignal || !s.hadFreeze) && s.recoveries < cfg.recoveryFrames }

  /** A fraction of a difference in Q8, rounded down, and at most `most` whole units. */
  function Part(delta: int, shift: nat, most: int): int {
    Max(-(most * 256), Min(delta * 256 / Pow2(shift), most * 256))
  }

  function Cut(q8: int): int { Max(0, Min(q8, 0xff_ff00)) }

  /** How a cell learns that does not stand out and is not held: within the noise band by at most one unit
      if noise is tracked; else at the rate for an untouched frame, at the recovery rate, or under a
      touch slowly, and not at all close to the sample. */
  function Learns(cfg: Config, clear: bool, fast: bool, delta: int): int {
    var noise := -cfg.noiseDeadband <= delta <= cfg.noiseDeadband && cfg.noiseTracking;
    if clear && !noise then Part(delta, cfg.noFingerShift, cfg.noFingerMax)
    else if !clear && fast then Part(delta, cfg.recoveryShift, cfg.recoveryMax)
    else if noise then Part(delta, 6, 1)
    else if delta > 14 then Part(delta, 7, 20)
    else if delta < -13 then Part(delta, 5, 20)
    else 0
  }

  /** From (q8, hold) to (q8', hold'): a cell that stands out follows the drift only, and is held afterwards;
      a held cell waits; any other learns its sample, delta above the grid. */
  predicate Learned(cfg: Config, clear: bool, fast: bool, common: int, delta: int, q8: int, hold: int, q8': int,
                    hold': int)
  {
    if delta - common >= cfg.peakThreshold then
      q8' == Cut(q8 + Part(common, cfg.backgroundShift, cfg.backgroundMax)) && hold' == cfg.holdFrames
    else if hold > 0 then q8' == q8 && hold' == hold - 1
    else q8' == Cut(q8 + Learns(cfg, clear, fast, delta)) && hold' == 0
  }

  lemma CellLearns(cfg: Config, q8: int, hold: u8, sample: u16, touched: bool, fast: bool, common: int)
    requires cfg.Valid() && cfg.enabled && (sample - q8 / 256 - common >= cfg.peakThreshold ==> touched)
    ensures var o := UpdateCell(cfg, q8, hold, sample, touched, touched && fast, common);
      Learned(cfg, !touched, fast, common, sample - q8 / 256, q8, hold, o.q8, o.hold)
  {
    StepIsPart(sample - q8 / 256, cfg);
    StepIsPart(common, cfg);
  }

  lemma CellUpdated(cfg: Config, x: Sample, anyActive: bool, s: Live, common: int, t: Live, frame: seq<int>, i: nat)
    returns (o: Outcome, touched: bool)
    requires cfg.Valid() && cfg.enabled && Adapts(cfg, x, anyActive, s, common, t, frame) && 1 <= i < PIXELS
    ensures |s.q8| == |s.hold| == |t.q8| == |t.hold| == 2400
    ensures touched == Touched(cfg, Differences(x.raw, s.q8), common, x.finger, anyActive)
    ensures t.q8[i] == o.q8 && t.hold[i] == o.hold
    ensures o == UpdateCell(cfg, s.q8[i], s.hold[i], x.raw[i], touched, touched && Fast(cfg, s), common)
  {
    assert Open(0);
    assert AdaptsAs(cfg, x, anyActive, s, common, t, frame);
    touched := Touched(cfg, Differences(x.raw, s.q8), common, x.finger, anyActive);
    o := UpdateCell(cfg, s.q8[i], s.hold[i], x.raw[i], touched, touched && Fast(cfg, s), common);
  }

  lemma CellLearned(cfg: Config, x: Sample, anyActive: bool, s: Live, common: int, t: Live, frame: seq<int>, i: nat,
                    clear: bool)
    requires cfg.Valid() && cfg.enabled && Adapts(cfg, x, anyActive, s, common, t, frame) && 1 <= i < PIXELS
    requires |s.q8| == 2400 && (Excess(x.raw, s, common, i) >= cfg.peakThreshold ==> !clear)
    requires clear == !Touched(cfg, Differences(x.raw, s.q8), common, x.finger, anyActive)
    ensures |s.hold| == |t.q8| == |t.hold| == 2400
    ensures Learned(cfg, clear, Fast(cfg, s), common, x.raw[i] - s.q8[i] / 256, s.q8[i], s.hold[i], t.q8[i], t.hold[i])
  {
    var o, touched := CellUpdated(cfg, x, anyActive, s, common, t, frame, i);
    CellLearns(cfg, s.q8[i], s.hold[i], x.raw[i], touched, Fast(cfg, s), common);
  }

  lemma LearnsExactly(cfg: Config, x: Sample, anyActive: bool, s: Live, common: int, t: Live, frame: seq<int>, i: nat)
    requires cfg.Valid() && cfg.enabled && Adapts(cfg, x, anyActive, s, common, t, frame) && 1 <= i < PIXELS
    ensures |s.q8| == |s.hold| == |t.q8| == |t.hold| == 2400
    ensures Learned(cfg, Clear(cfg, x, anyActive, s, common), Fast(cfg, s), common, x.raw[i] - s.q8[i] / 256,
                    s.q8[i], s.hold[i], t.q8[i], t.hold[i])
  {
    ShowsExactlyWhatStandsOut(cfg, x, anyActive, s, common, t, frame, i);
    TouchedUnlessClear(cfg, x, anyActive, s, common);
    CellLearned(cfg, x, anyActive, s, common, t, frame, i, Clear(cfg, x, anyActive, s, common));
  }

  lemma TouchedUnlessClear(cfg: Config, x: Sample, anyActive: bool, s: Live, common: int)
    requires |s.q8| == 2400
    ensures Touched(cfg, Differences(x.raw, s.q8), common, x.finger, anyActive) <==>
      !Clear(cfg, x, anyActive, s, common)
  {
    var d := Differences(x.raw, s.q8);
    forall k: nat | 1 <= k < PIXELS ensures d[k] - common == Excess(x.raw, s, common, k) {
    }
  }

  /** What the next frame remembers: whether this one was clear, whether a cell stood out, and how many
      frames in a row learned fast. */
  lemma RemembersExactly(cfg: Config, x: Sample, anyActive: bool, s: Live, common: int, t: Live, frame: seq<int>)
    requires cfg.Valid() && cfg.enabled && Adapts(cfg, x, anyActive, s, common, t, frame)
    ensures |s.q8| == 2400
    ensures t.hadSignal <==> !Clear(cfg, x, anyActive, s, common)
    ensures t.hadFreeze <==>
      !Clear(cfg, x, anyActive, s, common)
      && exists k: nat | k < PIXELS :: Excess(x.raw, s, common, k) >= cfg.peakThreshold
    ensures t.recoveries ==
      if Clear(cfg, x, anyActive, s, common) then 0
      else if Fast(cfg, s) then s.recoveries + 1
      else if s.hadFreeze then 0
      else s.recoveries
  {
    assert Open(0);
    assert AdaptsAs(cfg, x, anyActive, s, common, t, frame);
    TouchedUnlessClear(cfg, x, anyActive, s, common);
    var touched := Touched(cfg, Differences(x.raw, s.q8), common, x.finger, anyActive);
    forall k: nat | k < PIXELS
      ensures Freezes(cfg, s.q8[k], x.raw[k], touched, common) <==>
        touched && Excess(x.raw, s, common, k) >= cfg.peakThreshold
    {
    }
  }

  lemma StepIsPart(delta: int, cfg: Config)
    requires cfg.Valid()
    ensures StepQ8(delta, cfg.noFingerShift, cfg.noFingerMax) == Part(delta, cfg.noFingerShift, cfg.noFingerMax)
    ensures StepQ8(delta, cfg.recoveryShift, cfg.recoveryMax) == Part(delta, cfg.recoveryShift, cfg.recoveryMax)
    ensures StepQ8(delta, cfg.backgroundShift, cfg.backgroundMax) == Part(delta, cfg.backgroundShift, cfg.backgroundMax)
    ensures StepQ8(delta, 6, 1) == Part(delta, 6, 1)
    ensures StepQ8(delta, 7, 20) == Part(delta, 7, 20) && StepQ8(delta, 5, 20) == Part(delta, 5, 20)
  {
    NothingOfNothing(cfg.noFingerShift);
    NothingOfNothing(cfg.recoveryShift);
    NothingOfNothing(cfg.backgroundShift);
    NothingOfNothing(5);
    NothingOfNothing(6);
    NothingOfNothing(7);
  }

  lemma NothingOfNothing(shift: nat)
    ensures 0 * 256 / Pow2(shift) == 0
  {
    assert Pow2(shift) >= 1;
    assert 0 / Pow2(shift) == 0;
  }

  // ----- held after a release

  /** Live frames one after the other. */
  ghost predicate IsLiveRun(cfg: Config, run: seq<Live>, xs: seq<Sample>, drifts: seq<int>, active: seq<bool>,
                            frames: seq<seq<int>>)
  {
    && |run| == |xs| + 1 && |drifts| == |active| == |frames| == |xs|
    && forall k | 0 <= k < |xs| :: Adapts(cfg, xs[k], active[k], run[k], drifts[k], run[k + 1], frames[k])
  }

  /** A cell that stood out is held for exactly the configured number of frames in which it no longer does:
      its grid value stays as it is. */
  lemma {:induction false} HeldForExactly(cfg: Config, run: seq<Live>, xs: seq<Sample>, drifts: seq<int>,
                                          active: seq<bool>, frames: seq<seq<int>>, i: nat, n: nat)
    requires cfg.Valid() && cfg.enabled && IsLiveRun(cfg, run, xs, drifts, active, frames) && 1 <= i < PIXELS
    requires 1 <= n <= |xs| && n - 1 <= cfg.holdFrames
    requires |run[0].q8| == 2400 && Excess(xs[0].raw, run[0], drifts[0], i) >= cfg.peakThreshold
    requires forall k | 1 <= k < n ::
      |run[k].q8| == 2400 && Excess(xs[k].raw, run[k], drifts[k], i) < cfg.peakThreshold
    ensures |run[1].q8| == |run[n].q8| == |run[n].hold| == 2400
    ensures run[n].q8[i] == run[1].q8[i] && run[n].hold[i] == cfg.holdFrames - (n - 1)
  {
    assert Adapts(cfg, xs[n - 1], active[n - 1], run[n - 1], drifts[n - 1], run[n - 1 + 1], frames[n - 1]);
    LearnsExactly(cfg, xs[n - 1], active[n - 1], run[n - 1], drifts[n - 1], run[n], frames[n - 1], i);
    if n > 1 {
      HeldForExactly(cfg, run, xs, drifts, active, frames, i, n - 1);
    }
  }
}
