/**
 The three baseline grids and who may write them: the working grid, the last safe grid, and the
 candidate grid that wake qualification and the live no-finger commit share.
 */
module Baseline {
  import opened Machine
  import opened Arithmetic
  import opened Firmware
  import opened Sealing
  import opened Grid
  import opened Instability
  import opened BaselineCell
  import opened CommonMode

  datatype Verdict = Rejected | Pending | Ready | UsingSafe | Protected

  datatype Sample = Sample(raw: Raw, finger: Finger)

  /** Wake tunables, within their user-space ranges. */
  datatype WakeConfig = WakeConfig(limits: Limits, stableFrames: u8, fingerSafeFrames: u8, safeCommit: u8) {
    ghost predicate Valid() {
      limits.Valid() && 2 <= stableFrames <= 30 && 1 <= fingerSafeFrames <= 15 && 1 <= safeCommit <= 240
    }
  }

  /** The grid is some earlier frame, seen while no finger was reported present. Sealed. */
  ghost predicate FromQuietFrame(history: seq<Sample>, grid: seq<int>) {
    forall o {:trigger Open(o)} :: Open(o) ==> exists k :: IsQuietFrame(history, grid, k)
  }

  ghost predicate IsQuietFrame(history: seq<Sample>, grid: seq<int>, k: int) {
    0 <= k < |history| && !history[k].finger.Present? && grid == Shl8(history[k].raw)
  }

  lemma LongerHistory(history: seq<Sample>, x: Sample, grid: seq<int>)
    requires FromQuietFrame(history, grid)
    ensures FromQuietFrame(history + [x], grid)
  {
    assert Open(0);
    var k :| IsQuietFrame(history, grid, k);
    assert IsQuietFrame(history + [x], grid, k);
  }

  lemma NewestFrame(history: seq<Sample>, x: Sample)
    requires !x.finger.Present?
    ensures FromQuietFrame(history + [x], Shl8(x.raw))
  {
    assert IsQuietFrame(history + [x], Shl8(x.raw), |history|);
  }

  // ----- divergence of a candidate from the last safe grid

  ghost function DriftSum(a: Raw, b: Raw, k: nat): int
    requires k <= PIXELS
  {
    if k <= 1 then 0 else DriftSum(a, b, k - 1) + a[k - 1] - b[k - 1]
  }

  ghost function Divergent(a: Raw, b: Raw, common: int, limit: int, k: nat): nat
    requires k <= PIXELS
  {
    if k <= 1 then 0
    else Divergent(a, b, common, limit, k - 1) + if Abs(a[k - 1] - b[k - 1] - common) > limit then 1 else 0
  }

  /** The candidate differs from the safe grid by more than a panel-wide shift. */
  ghost predicate Diverges(candidate: Raw, safe: Raw, l: Limits) {
    Divergent(candidate, safe, Div(DriftSum(candidate, safe, PIXELS), PIXELS - 1), l.jump * 2, PIXELS) > l.nodes
  }

  /** Cells before k that are off by more than `limit` after the common shift. */
  ghost function OffBy(a: Raw, b: Raw, common: int, limit: int, k: nat): set<nat>
    requires k <= PIXELS
  {
    set i: nat | 1 <= i < k && !(-limit <= a[i] - b[i] - common <= limit)
  }

  lemma {:induction false} DivergentCounts(a: Raw, b: Raw, common: int, limit: int, k: nat)
    requires k <= PIXELS
    ensures Divergent(a, b, common, limit, k) == |OffBy(a, b, common, limit, k)|
  {
    if k > 1 {
      DivergentCounts(a, b, common, limit, k - 1);
      var more := if -limit <= a[k - 1] - b[k - 1] - common <= limit then {} else {k - 1};
      assert OffBy(a, b, common, limit, k) == OffBy(a, b, common, limit, k - 1) + more;
    } else {
      assert OffBy(a, b, common, limit, k) == {};
    }
  }

  lemma {:induction false} DriftBetween(a: Raw, b: Raw, lo: int, hi: int, k: nat)
    requires 1 <= k <= PIXELS && forall i | 1 <= i < PIXELS :: lo <= a[i] - b[i] <= hi
    ensures lo * (k - 1) <= DriftSum(a, b, k) <= hi * (k - 1)
  {
    if k > 1 {
      DriftBetween(a, b, lo, hi, k - 1);
      assert lo * (k - 1) == lo * (k - 2) + lo && hi * (k - 1) == hi * (k - 2) + hi;
    }
  }

  /** Two grids differ when more than the allowed number of cells are off by more than twice the jump
      distance, after a shift common to the panel, which lies between the least and the greatest
      difference. A shift of the whole panel is no difference. */
  lemma DivergesExactlyWhen(a: Raw, b: Raw, l: Limits, lo: int, hi: int) returns (common: int)
    requires l.Valid() && forall i | 1 <= i < PIXELS :: lo <= a[i] - b[i] <= hi
    ensures lo <= common <= hi
    ensures Diverges(a, b, l) <==> |OffBy(a, b, common, 2 * l.jump, 2400)| > l.nodes
    ensures lo == hi ==> !Diverges(a, b, l)
  {
    common := Div(DriftSum(a, b, PIXELS), PIXELS - 1);
    DriftBetween(a, b, lo, hi, PIXELS);
    TruncBetween(DriftSum(a, b, PIXELS), PIXELS - 1, lo, hi);
    DivergentCounts(a, b, common, 2 * l.jump, PIXELS);
    if lo == hi {
      assert OffBy(a, b, common, 2 * l.jump, 2400) == {};
    }
  }

  method Diverge(candidate: array<s32>, safe: array<s32>, ghost a: Raw, ghost b: Raw, l: Limits)
    returns (diverges: bool)
    requires candidate.Length == safe.Length == 2400
    requires candidate[..] == Shl8(a) && safe[..] == Shl8(b)
    ensures diverges == Diverges(a, b, l)
  {
    var sum: int := 0;
    for i := 1 to PIXELS
      invariant sum == DriftSum(a, b, i)
    {
      sum := sum + (candidate[i] - safe[i]) / 256;
    }
    var common := Div(sum, PIXELS - 1);
    var divergent: int := 0;
    for i := 1 to PIXELS
      invariant divergent == Divergent(a, b, common, l.jump * 2, i)
    {
      if Abs((candidate[i] - safe[i]) / 256 - common) > l.jump * 2 {
        divergent := divergent + 1;
      }
    }
    diverges := divergent > l.nodes;
  }

  // ----- one wake window

  /** Frames a window needs before it may be committed. */
  function Required(cfg: WakeConfig, doubled: bool): u8 {
    if !doubled then cfg.stableFrames
    else if cfg.stableFrames * 2 < 0xff then cfg.stableFrames * 2 else 0xff
  }

  /** What wake qualification decides by. `candidate` and `safe` count only while valid. */
  datatype Wake = Wake(
    candidateValid: bool, candidate: Raw, frames: u8, doubled: bool, fingerFrames: u8,
    safeValid: bool, safe: Raw, initialized: bool)

  /** Fields and grids that a wake state stands for. Sealed. */
  ghost predicate StandsFor(w: Wake, candidateValid: bool, frames: int, doubled: bool, fingerFrames: int,
                            safeValid: bool,
                            initialized: bool, candidate: seq<int>, safe: seq<int>)
  {
    forall o {:trigger Open(o)} :: Open(o) ==>
      && w.candidateValid == candidateValid && w.frames == frames && w.doubled == doubled
      && w.fingerFrames == fingerFrames
      && w.safeValid == safeValid && w.initialized == initialized
      && (candidateValid ==> candidate == Shl8(w.candidate)) && (safeValid ==> safe == Shl8(w.safe))
  }

  function Bump(n: u8): u8 { if n < 0xff then n + 1 else n }

  /** The window must be confirmed a second time: it differs from the last safe grid. */
  ghost predicate Doubled(cfg: WakeConfig, w: Wake) {
    w.doubled || (w.safeValid && Diverges(w.candidate, w.safe, cfg.limits))
  }

  /** The verdict on a frame that agrees with the candidate. */
  ghost function AcceptVerdict(cfg: WakeConfig, w: Wake): Verdict {
    if Bump(w.frames) < cfg.stableFrames || Bump(w.frames) < Required(cfg, Doubled(cfg, w)) then Pending else Ready
  }

  ghost function AcceptNext(cfg: WakeConfig, w: Wake): Wake {
    var n := w.(frames := Bump(w.frames));
    if n.frames < cfg.stableFrames then n
    else if AcceptVerdict(cfg, w).Pending? then n.(doubled := Doubled(cfg, w))
    else n.(candidateValid := false, doubled := false, safeValid := true, safe := w.candidate, initialized := true)
  }

  /** The verdict on an in-range frame without a finger. */
  ghost function QuietVerdict(cfg: WakeConfig, w: Wake, raw: Raw): Verdict {
    if !w.candidateValid then Pending
    else if Unstable(raw, w.candidate, cfg.limits) then Rejected
    else AcceptVerdict(cfg, w)
  }

  ghost function QuietNext(cfg: WakeConfig, w: Wake, raw: Raw): Wake {
    var n := w.(fingerFrames := 0);
    if !w.candidateValid then n.(candidateValid := true, candidate := raw, frames := 1)
    else if Unstable(raw, w.candidate, cfg.limits) then n.(candidate := raw, frames := 1, doubled := false)
    else AcceptNext(cfg, n)
  }

  ghost function FingerVerdict(cfg: WakeConfig, w: Wake): Verdict {
    if Bump(w.fingerFrames) < cfg.fingerSafeFrames then Pending else if w.safeValid then UsingSafe else Protected
  }

  function FingerNext(cfg: WakeConfig, w: Wake): Wake {
    var n := w.(candidateValid := false, frames := 0, doubled := false, fingerFrames := Bump(w.fingerFrames));
    if Bump(w.fingerFrames) < cfg.fingerSafeFrames then n else n.(initialized := true)
  }

  /** The verdict on any frame while qualifying. */
  ghost function VerdictOn(cfg: WakeConfig, w: Wake, x: Sample): Verdict {
    if OutOfRange(x.raw, PIXELS) > cfg.limits.nodes then Rejected
    else if x.finger.Present? then FingerVerdict(cfg, w)
    else QuietVerdict(cfg, w, x.raw)
  }

  ghost function WakeNext(cfg: WakeConfig, w: Wake, x: Sample): Wake {
    if OutOfRange(x.raw, PIXELS) > cfg.limits.nodes then w.(candidateValid := false, frames := 0, doubled := false)
    else if x.finger.Present? then FingerNext(cfg, w)
    else QuietNext(cfg, w, x.raw)
  }

  /** After n more copies of the candidate, in range and without a finger. */
  ghost function Repeated(cfg: WakeConfig, w: Wake, x: Sample, n: nat): Wake {
    if n == 0 then w else WakeNext(cfg, Repeated(cfg, w, x, n - 1), x)
  }

  /** The window after n > 0 copies of the frame. */
  ghost predicate Holds(cfg: WakeConfig, w: Wake, raw: Raw, n: nat, r: Wake) {
    && r.candidateValid && r.candidate == raw && r.frames == n && r.safeValid == w.safeValid && r.safe == w.safe
    && r.doubled == (n >= cfg.stableFrames)
  }

  /** Frames a window that starts with `raw` needs: twice as many if it differs from the last safe grid. */
  ghost function Needed(cfg: WakeConfig, w: Wake, raw: Raw): nat {
    if w.safeValid && Diverges(raw, w.safe, cfg.limits) then 2 * cfg.stableFrames else cfg.stableFrames as int
  }

  lemma SteadyStep(cfg: WakeConfig, w: Wake, x: Sample, n: nat, r: Wake)
    requires cfg.Valid() && !w.candidateValid && !w.doubled && !x.finger.Present?
    requires OutOfRange(x.raw, PIXELS) <= cfg.limits.nodes && n < Needed(cfg, w, x.raw)
    requires if n == 0 then r == w else Holds(cfg, w, x.raw, n, r)
    ensures VerdictOn(cfg, r, x).Ready? <==> n + 1 == Needed(cfg, w, x.raw)
    ensures var v := VerdictOn(cfg, r, x);
      v.Ready? || (v.Pending? && Holds(cfg, w, x.raw, n + 1, WakeNext(cfg, r, x)))
  {
    SameIsStable(x.raw, cfg.limits);
  }

  /** A panel that keeps delivering one usable frame without a finger is qualified, and in exactly
      the configured number of frames, or twice as many if the frame differs from the last safe grid. */
  lemma {:induction false} SteadyPanelQualifies(cfg: WakeConfig, w: Wake, x: Sample, n: nat)
    requires cfg.Valid() && !w.candidateValid && !w.doubled && !x.finger.Present?
    requires OutOfRange(x.raw, PIXELS) <= cfg.limits.nodes && n < Needed(cfg, w, x.raw)
    ensures if n == 0 then Repeated(cfg, w, x, n) == w else Holds(cfg, w, x.raw, n, Repeated(cfg, w, x, n))
    ensures VerdictOn(cfg, Repeated(cfg, w, x, n), x).Ready? <==>
      n + 1 == if w.safeValid && Diverges(x.raw, w.safe, cfg.limits) then 2 * cfg.stableFrames else cfg.stableFrames
    ensures VerdictOn(cfg, Repeated(cfg, w, x, n), x).Ready? || VerdictOn(cfg, Repeated(cfg, w, x, n), x).Pending?
  {
    if n > 0 {
      SteadyPanelQualifies(cfg, w, x, n - 1);
      SteadyStep(cfg, w, x, n - 1, Repeated(cfg, w, x, n - 1));
    }
    SteadyStep(cfg, w, x, n, Repeated(cfg, w, x, n));
  }

  /** A finger that stays on through wake-up ends qualification after exactly the configured number of
      frames in a row: on the last safe grid if there is one. */
  lemma {:induction false} FingerEndsQualification(cfg: WakeConfig, w: Wake, x: Sample, n: nat)
    requires cfg.Valid() && w.fingerFrames == 0 && x.finger.Present? && n < cfg.fingerSafeFrames
    requires OutOfRange(x.raw, PIXELS) <= cfg.limits.nodes
    ensures var r := Repeated(cfg, w, x, n);
      && r.fingerFrames == n && r.safeValid == w.safeValid && r.safe == w.safe && (n > 0 ==> !r.candidateValid)
    ensures VerdictOn(cfg, Repeated(cfg, w, x, n), x)
      == if n + 1 < cfg.fingerSafeFrames then Pending else if w.safeValid then UsingSafe else Protected
  {
    if n > 0 {
      FingerEndsQualification(cfg, w, x, n - 1);
    }
  }

  /** A frame without a finger in between makes them start over, and an unusable frame is rejected and
      ends the window, but does not. */
  lemma FingerFramesInARow(cfg: WakeConfig, w: Wake, x: Sample)
    requires cfg.Valid()
    ensures OutOfRange(x.raw, PIXELS) <= cfg.limits.nodes && !x.finger.Present? ==>
      WakeNext(cfg, w, x).fingerFrames == 0
    ensures OutOfRange(x.raw, PIXELS) > cfg.limits.nodes ==>
      VerdictOn(cfg, w, x).Rejected? && !WakeNext(cfg, w, x).candidateValid && WakeNext(cfg, w, x).frames == 0
      && WakeNext(cfg, w, x).fingerFrames == w.fingerFrames
  {
  }

  /** A frame accepted into the running window, under the limits in force at the time. */
  datatype Accepted = Accepted(sample: Sample, limits: Limits)

  /** Every frame of the window was finger-free and stayed within its limits of the first one. */
  ghost predicate IsWindow(w: seq<Accepted>) {
    && w != []
    && (forall k | 0 <= k < |w| :: !w[k].sample.finger.Present?)
    && (forall k | 1 <= k < |w| :: !Unstable(w[k].sample.raw, w[0].sample.raw, w[k].limits))
  }

  ghost predicate AllAbsent(w: seq<Accepted>) {
    forall k | 0 <= k < |w| :: w[k].sample.finger.Absent?
  }

  /** The window is the tail of what the sensor delivered: nothing came in between. */
  ghost predicate EndsWith(history: seq<Sample>, w: seq<Accepted>) {
    && |w| <= |history|
    && forall k | 0 <= k < |w| :: w[k].sample == history[|history| - |w| + k]
  }

  /** The window is a run of stable quiet frames ending at the newest one. Sealed. */
  ghost predicate IsRun(history: seq<Sample>, w: seq<Accepted>) {
    w != [] && forall o {:trigger Open(o)} :: Open(o) ==> IsWindow(w) && EndsWith(history, w)
  }

  lemma RunStarts(history: seq<Sample>, x: Sample, l: Limits)
    requires history != [] && history[|history| - 1] == x && !x.finger.Present?
    ensures IsRun(history, [Accepted(x, l)])
  {
  }

  lemma RunGrows(history: seq<Sample>, w: seq<Accepted>, x: Sample, l: Limits)
    requires IsRun(history, w) && !x.finger.Present? && !Unstable(x.raw, w[0].sample.raw, l)
    ensures IsRun(history + [x], w + [Accepted(x, l)])
  {
    assert Open(0);
  }

  /** More than the allowed number of cells outside the usable range. */
  ghost function OutOfRange(raw: Raw, k: nat): nat
    requires k <= PIXELS
  {
    if k <= 1 then 0
    else OutOfRange(raw, k - 1) + if raw[k - 1] < 0x1000 || raw[k - 1] > 0xf000 then 1 else 0
  }

  /** The unusable cells before k; cell 0 does not count. */
  ghost function Unusable(raw: Raw, k: nat): set<nat>
    requires k <= PIXELS
  {
    set i: nat | 1 <= i < k && !(0x1000 <= raw[i] <= 0xf000)
  }

  lemma {:induction false} OutOfRangeCounts(raw: Raw, k: nat)
    requires k <= PIXELS
    ensures OutOfRange(raw, k) == |Unusable(raw, k)|
  {
    if k > 1 {
      OutOfRangeCounts(raw, k - 1);
      var more := if 0x1000 <= raw[k - 1] <= 0xf000 then {} else {k - 1};
      assert Unusable(raw, k) == Unusable(raw, k - 1) + more;
    } else {
      assert Unusable(raw, k) == {};
    }
  }

  method CountOutOfRange(raw: Raw) returns (count: nat)
    ensures count == OutOfRange(raw, PIXELS)
  {
    count := 0;
    for i := 1 to PIXELS
      invariant count == OutOfRange(raw, i)
    {
      if raw[i] < 0x1000 || raw[i] > 0xf000 {
        count := count + 1;
      }
    }
  }

  lemma Shl8Injective(a: Raw, b: Raw)
    requires Shl8(a) == Shl8(b)
    ensures a == b
  {
    forall i | 0 <= i < 2400 ensures a[i] == b[i] {
      assert Shl8(a)[i] == Shl8(b)[i];
    }
  }

  ghost function QuietRaw(history: seq<Sample>, grid: seq<int>): (raw: Raw)
    requires FromQuietFrame(history, grid)
    ensures grid == Shl8(raw)
  {
    assert Open(0);
    var k :| IsQuietFrame(history, grid, k);
    history[k].raw
  }

  /** The working grid a live frame starts from. */
  ghost function Seeded(initialized: bool, q8: seq<int>, initial: u16, raw: Raw, finger: Finger): (g: seq<int>)
    requires |q8| == 2400
    ensures |g| == 2400
  {
    if initialized then q8
    else if finger.Absent? then Shl8(raw)
    else seq(2400, _ => initial * 256)
  }

  /** A cell carrying a finger-sized signal. */
  ghost predicate Freezes(cfg: Config, q8: int, sample: int, hasSignal: bool, common: int) {
    cfg.enabled && hasSignal && sample - q8 / 256 - common >= cfg.peakThreshold
  }

  function Differences(raw: Raw, grid: seq<int>): (d: Deltas)
    requires |grid| == 2400
    ensures forall i | 0 <= i < 2400 :: d[i] == raw[i] - grid[i] / 256
  {
    seq(2400, i requires 0 <= i < 2400 => raw[i] - grid[i] / 256)
  }

  /** The estimate a frame uses: the truncated mean of the bin that holds the middle difference. */
  ghost predicate IsCommon(d: Deltas, common: int) {
    exists b :: 0 <= b < BINS && MiddleBin(d, b) && CountBin(d, b, PIXELS) > 0 && common == Estimate(d, b)
  }

  /** A frame counts as touched when the controller says so, when some cell stands out, or while
      a track is alive. */
  ghost predicate Touched(cfg: Config, d: Deltas, common: int, finger: Finger, anyActive: bool) {
    finger.Present? || anyActive || exists i :: 1 <= i < PIXELS && d[i] - common >= cfg.peakThreshold
  }

  /** Every cell takes exactly one update; the dead cell 0 reports nothing. */
  ghost predicate CellsAdapt(cfg: Config, raw: Raw, touched: bool, recovery: bool, common: int,
                             q8: seq<int>, hold: seq<u8>, q8': seq<int>, hold': seq<u8>, frame: seq<int>)
  {
    && |q8| == |hold| == |q8'| == |hold'| == |frame| == 2400
    && forall i | 0 <= i < PIXELS ::
         var o := UpdateCell(cfg, q8[i], hold[i], raw[i], touched, recovery, common);
         q8'[i] == o.q8 && hold'[i] == o.hold && frame[i] == if i == 0 then 0 else o.signal
  }

  /** What a live frame works on besides the safe and the candidate grid. */
  datatype Live = Live(q8: seq<int>, hold: seq<u8>, hadSignal: bool, hadFreeze: bool, recoveries: u8)

  /** Fast recovery applies to a touched frame after an untouched or unfrozen one, for a while. */
  predicate Recovers(cfg: Config, s: Live, touched: bool) {
    touched && (!s.hadSignal || !s.hadFreeze) && s.recoveries < cfg.recoveryFrames
  }

  function RecoveriesAfter(cfg: Config, s: Live, touched: bool): int {
    if Recovers(cfg, s, touched) then s.recoveries + 1 else if !touched || s.hadFreeze then 0 else s.recoveries
  }

  ghost predicate AnyFreezes(cfg: Config, q8: seq<int>, raw: Raw, touched: bool, common: int)
    requires |q8| == 2400
  {
    exists i :: 0 <= i < PIXELS && Freezes(cfg, q8[i], raw[i], touched, common)
  }

  /** One live frame from state s: drift estimate, touch decision, adaptation, and what it shows. Sealed. */
  ghost predicate Adapts(cfg: Config, x: Sample, anyActive: bool, s: Live, common: int, t: Live, frame: seq<int>) {
    forall o {:trigger Open(o)} :: Open(o) ==> AdaptsAs(cfg, x, anyActive, s, common, t, frame)
  }

  ghost predicate AdaptsAs(cfg: Config, x: Sample, anyActive: bool, s: Live, common: int, t: Live, frame: seq<int>) {
    && |s.q8| == 2400
    && var d := Differences(x.raw, s.q8);
       var touched := Touched(cfg, d, common, x.finger, anyActive);
       && IsCommon(d, common)
       && CellsAdapt(cfg, x.raw, touched, Recovers(cfg, s, touched), common, s.q8, s.hold, t.q8, t.hold, frame)
       && t.hadSignal == touched && t.hadFreeze == AnyFreezes(cfg, s.q8, x.raw, touched, common)
       && t.recoveries == RecoveriesAfter(cfg, s, touched)
  }

  /** One live frame on an initialized baseline. */
  ghost predicate LiveStep(cfg: Config, x: Sample, anyActive: bool, s: Live, t: Live) {
    exists common: int, frame: seq<int> :: Adapts(cfg, x, anyActive, s, common, t, frame)
  }

  class Baseline {
    const q8: array<s32>
    const safe: array<s32>
    const candidate: array<s32>
    const hold: array<u8>
    const hist: array<u16>
    const frame: array<s16>
    var initialized: bool
    var safeValid: bool
    var qualifying: bool
    var candidateValid: bool
    var doubleConfirm: bool
    var candidateFrames: u8
    var fingerFrames: u8
    var safeFrames: u8
    var prevHadSignal: bool
    var hadFreeze: bool
    var recoveryFrames: u8
    /** Every frame ever given to the wake or the live path. */
    ghost var history: seq<Sample>
    /** The frames of the wake window in progress, and whether the live path left them alone. */
    ghost var window: seq<Accepted>
    ghost var intact: bool
    /** The same for the live path's run of quiet frames. */
    ghost var quiet: seq<Accepted>
    ghost var quietIntact: bool

    constructor ()
      ensures Valid() && !safeValid && !initialized && history == []
      ensures fresh(q8) && fresh(safe) && fresh(candidate) && fresh(hold) && fresh(hist) && fresh(frame)
    {
      q8 := new s32[PIXELS](_ => 0);
      safe := new s32[PIXELS](_ => 0);
      candidate := new s32[PIXELS](_ => 0);
      hold := new u8[PIXELS](_ => 0);
      hist := new u16[BINS](_ => 0);
      frame := new s16[PIXELS](_ => 0);
      initialized, safeValid, qualifying, candidateValid, doubleConfirm := false, false, false, false, false;
      candidateFrames, fingerFrames, safeFrames, recoveryFrames := 0, 0, 0, 0;
      prevHadSignal, hadFreeze := false, false;
      history, window, intact, quiet, quietIntact := [], [], false, [], false;
    }

    ghost predicate Valid()
      reads this, q8, safe, candidate
    {
      && Grids()
      && (qualifying && candidateValid && intact ==> WindowOk())
      && (safeFrames > 0 && quietIntact ==> QuietOk())
    }

    /** The run of quiet frames behind the candidate. Sealed. */
    ghost predicate QuietOk()
      reads `history, `quiet, `safeFrames, candidate
    {
      forall o {:trigger Unlock(o)} :: Unlock(o) ==>
        && IsRun(history, quiet) && AllAbsent(quiet)
        && candidate.Length == 2400 && candidate[..] == Shl8(quiet[0].sample.raw)
        && safeFrames == if |quiet| < 0xff then |quiet| else 0xff
    }

    ghost predicate Grids()
      reads `history, `safeValid, `candidateValid, `safeFrames, q8, safe, candidate
    {
      && q8.Length == safe.Length == candidate.Length == hold.Length == frame.Length == 2400 && hist.Length == BINS
      && Apart() && InRange() && Sourced()
    }

    /** No two grids share their cells. */
    ghost predicate Apart() {
      && q8 != safe && q8 != candidate && safe != candidate
      && (hold as object) !in {q8 as object, safe, candidate} && (frame as object) !in {q8 as object, safe, candidate}
      && (hist as object) !in {q8 as object, safe, candidate}
    }

    ghost predicate InRange()
      reads q8
    {
      q8.Length == 2400 && forall i | 0 <= i < PIXELS :: 0 <= q8[i] <= Q8_MAX
    }

    /** Where the other grids came from. Sealed. */
    ghost predicate Sourced()
      reads `history, `safeValid, `candidateValid, `safeFrames, safe, candidate
    {
      forall o {:trigger Unlock(o)} :: Unlock(o) ==>
        && (safeValid ==> FromQuietFrame(history, safe[..]))
        && (candidateValid || safeFrames > 0 ==> FromQuietFrame(history, candidate[..]))
    }

    /** The wake window behind the candidate. Sealed. */
    ghost predicate WindowOk()
      reads `history, `window, `candidateFrames, candidate
    {
      forall o {:trigger Unlock(o)} :: Unlock(o) ==>
        && IsRun(history, window)
        && candidate.Length == 2400 && candidate[..] == Shl8(window[0].sample.raw)
        && candidateFrames == if |window| < 0xff then |window| else 0xff
    }

    /** Screen on: forget every transient, keep the learned grids. */
    method BeginWake()
      requires Valid()
      modifies `qualifying, `candidateValid, `doubleConfirm, `candidateFrames
      modifies `fingerFrames, `safeFrames, `window, `intact
      modifies `prevHadSignal, `hadFreeze, `recoveryFrames, hold, frame
      ensures Valid() && qualifying && !candidateValid && intact
      ensures !doubleConfirm && candidateFrames == fingerFrames == safeFrames == 0
      ensures !prevHadSignal && hadFreeze == initialized && recoveryFrames == 0
      ensures forall i | 0 <= i < PIXELS :: hold[i] == 0 && frame[i] == 0
    {
      ClearTransient();
      NewWindow();
    }

    method NewWindow()
      requires Valid()
      modifies `qualifying, `candidateValid, `doubleConfirm, `candidateFrames
      modifies `fingerFrames, `safeFrames, `window, `intact
      ensures Valid() && qualifying && !candidateValid && intact
      ensures !doubleConfirm && candidateFrames == fingerFrames == safeFrames == 0
    {
      qualifying, candidateValid, doubleConfirm := true, false, false;
      candidateFrames, fingerFrames, safeFrames := 0, 0, 0;
      window, intact := [], true;
    }

    method ClearTransient()
      requires hold.Length == frame.Length == 2400
      modifies this`prevHadSignal, this`hadFreeze, this`recoveryFrames, hold, frame
      ensures !prevHadSignal && hadFreeze == initialized && recoveryFrames == 0
      ensures forall i | 0 <= i < PIXELS :: hold[i] == 0 && frame[i] == 0
    {
      for i := 0 to PIXELS
        invariant forall k | 0 <= k < i :: hold[k] == 0 && frame[k] == 0
      {
        hold[i], frame[i] := 0, 0;
      }
      prevHadSignal, hadFreeze, recoveryFrames := false, initialized, 0;
    }

    method ClearFlags()
      modifies this
      ensures !initialized && !safeValid && !qualifying && !candidateValid && safeFrames == 0 && history == old(history)
      ensures !doubleConfirm && candidateFrames == fingerFrames == 0 && Calm()
    {
      initialized, safeValid, qualifying, candidateValid, doubleConfirm := false, false, false, false, false;
      candidateFrames, fingerFrames, safeFrames := 0, 0, 0;
      prevHadSignal, hadFreeze, recoveryFrames := false, false, 0;
    }

    /** Forgets everything learned. */
    method FullReset()
      requires Valid()
      modifies this, q8, safe, candidate, hold, frame
      ensures Valid() && !safeValid && !initialized && !qualifying && history == old(history)
      ensures forall i | 0 <= i < PIXELS :: q8[i] == 0
      ensures !candidateValid && !doubleConfirm && candidateFrames == fingerFrames == safeFrames == 0 && Calm()
      ensures forall i | 0 <= i < PIXELS :: safe[i] == candidate[i] == hold[i] == frame[i] == 0
    {
      ClearTransient();
      Zero(q8);
      Zero(safe);
      Zero(candidate);
      ClearFlags();
    }

    method Zero(grid: array<s32>)
      requires grid.Length == 2400
      modifies grid
      ensures forall i | 0 <= i < PIXELS :: grid[i] == 0
    {
      for i := 0 to PIXELS
        invariant forall k | 0 <= k < i :: grid[k] == 0
      {
        grid[i] := 0;
      }
    }

    method CopyRaw(dst: array<s32>, raw: Raw)
      requires dst.Length == 2400
      modifies dst
      ensures dst[..] == Shl8(raw)
    {
      for i := 0 to PIXELS
        invariant forall k | 0 <= k < i :: dst[k] == raw[k] * 256
      {
        dst[i] := raw[i] * 256;
      }
    }

    method CopyGrid(dst: array<s32>, src: array<s32>)
      requires dst.Length == src.Length == 2400 && dst != src
      modifies dst
      ensures dst[..] == src[..]
    {
      for i := 0 to PIXELS
        invariant forall k | 0 <= k < i :: dst[k] == src[k]
      {
        dst[i] := src[i];
      }
    }

    ghost method Record(x: Sample)
      requires Grids()
      modifies this`history
      ensures Grids() && history == old(history) + [x]
    {
      assert Unlock(0);
      if safeValid {
        LongerHistory(history, x, safe[..]);
      }
      if candidateValid || safeFrames > 0 {
        LongerHistory(history, x, candidate[..]);
      }
      history := history + [x];
    }

    /** What the fields stand for. */
    ghost predicate Stands(w: Wake)
      reads `candidateValid, `candidateFrames, `doubleConfirm, `fingerFrames, `safeValid, `initialized, safe, candidate
    {
      StandsFor(w, candidateValid, candidateFrames, doubleConfirm, fingerFrames, safeValid, initialized, candidate[..],
          safe[..])
    }

    lemma FieldsOf(w: Wake)
      requires Stands(w)
      ensures w.candidateValid == candidateValid && w.frames == candidateFrames && w.doubled == doubleConfirm
      ensures w.fingerFrames == fingerFrames && w.safeValid == safeValid && w.initialized == initialized
      ensures candidateValid ==> candidate[..] == Shl8(w.candidate)
      ensures safeValid ==> safe[..] == Shl8(w.safe)
    {
      assert Open(0);
    }

    ghost method Standing() returns (w: Wake)
      requires Grids()
      ensures Stands(w)
    {
      var zero: Raw := seq(2400, _ => 0);
      assert Unlock(0);
      var c := if candidateValid then QuietRaw(history, candidate[..]) else zero;
      var g := if safeValid then QuietRaw(history, safe[..]) else zero;
      w := Wake(candidateValid, c, candidateFrames, doubleConfirm, fingerFrames, safeValid, g, initialized);
    }

    /** The frame the candidate grid of a quiet run was taken from. */
    ghost function CandidateRaw(raw: Raw): (c: Raw)
      requires Grids()
      reads `history, `safeValid, `candidateValid, `safeFrames, q8, safe, candidate
      ensures safeFrames > 0 ==> candidate[..] == Shl8(c)
    {
      assert Unlock(0);
      if safeFrames > 0 then QuietRaw(history, candidate[..]) else raw
    }

    /** The candidate no longer stands for anything. */
    method DropCandidate(ghost w: Wake)
      requires Grids() && !quietIntact && Stands(w)
      modifies this`candidateValid, this`candidateFrames, this`doubleConfirm, this`window, this`intact
      ensures Valid() && !candidateValid && window == [] && intact
      ensures Stands(w.(candidateValid := false, frames := 0, doubled := false))
    {
      FieldsOf(w);
      candidateValid, candidateFrames, doubleConfirm := false, 0, false;
      window, intact := [], true;
    }

    /** Starts a window at the newest frame. */
    method StartWindow(x: Sample, limits: Limits)
      requires Grids() && !quietIntact && qualifying && !x.finger.Present? && history != []
      requires history[|history| - 1] == x
      modifies this`candidateValid, this`candidateFrames, this`window, this`intact, candidate
      ensures Valid() && candidateValid && candidateFrames == 1 && intact && window == [Accepted(x, limits)]
      ensures candidate[..] == Shl8(x.raw)
    {
      CopyRaw(candidate, x.raw);
      candidateValid, candidateFrames := true, 1;
      window, intact := [Accepted(x, limits)], true;
      assert history == history[..|history| - 1] + [x];
      NewestFrame(history[..|history| - 1], x);
      RunStarts(history, x, limits);
    }

    /** A frame with a finger on it never teaches a baseline. After enough of them in a row the
        last safe grid, or the neutral one, takes over. */
    method FingerFrame(cfg: WakeConfig, initial: u16, ghost w: Wake) returns (v: Verdict)
      requires Grids() && !quietIntact && cfg.Valid() && qualifying && Stands(w)
      modifies `initialized, `qualifying, `candidateValid, `doubleConfirm
      modifies `candidateFrames, `fingerFrames, `window, `intact, q8
      ensures Valid() && v == FingerVerdict(cfg, w) && Stands(FingerNext(cfg, w))
      ensures v.Pending? ==> q8[..] == old(q8[..]) && qualifying
      ensures !v.Pending? ==> !qualifying
      ensures v.UsingSafe? ==> q8[..] == safe[..]
      ensures v.Protected? ==>
        if old(initialized) then q8[..] == old(q8[..]) else forall i | 0 <= i < PIXELS :: q8[i] == initial * 256
    {
      DropCandidate(w);
      FieldsOf(w.(candidateValid := false, frames := 0, doubled := false));
      if fingerFrames < 0xff {
        fingerFrames := fingerFrames + 1;
      }
      if fingerFrames < cfg.fingerSafeFrames {
        return Pending;
      }
      FallBack(initial);
      return if safeValid then UsingSafe else Protected;
    }

    /** Qualification ends on the last safe grid, or else on what there is, or else on the neutral one. */
    method FallBack(initial: u16)
      requires Grids() && !candidateValid && (safeFrames > 0 ==> !quietIntact)
      modifies this`initialized, this`qualifying, q8
      ensures Valid() && initialized && !qualifying
      ensures safeValid ==> q8[..] == safe[..]
      ensures !safeValid && old(initialized) ==> q8[..] == old(q8[..])
      ensures !safeValid && !old(initialized) ==> forall i | 0 <= i < PIXELS :: q8[i] == initial * 256
    {
      if safeValid {
        assert Unlock(0);
        ghost var raw := QuietRaw(history, safe[..]);
        CopyGrid(q8, safe);
      } else if !initialized {
        Neutral(initial);
      }
      initialized, qualifying := true, false;
    }

    method Neutral(initial: u16)
      requires q8.Length == PIXELS
      modifies q8
      ensures forall i | 0 <= i < PIXELS :: q8[i] == initial * 256
    {
      for i := 0 to PIXELS
        invariant forall k | 0 <= k < i :: q8[k] == initial * 256
      {
        q8[i] := initial * 256;
      }
    }

    /** The running window before the newest frame is judged. */
    ghost predicate WindowBefore(base: Raw)
      reads `history, `window, `candidateFrames
    {
      && history != [] && IsRun(history[..|history| - 1], window)
      && base == window[0].sample.raw && candidateFrames == if |window| < 0xff then |window| else 0xff
    }

    ghost method ExtendWindow(x: Sample, limits: Limits, base: Raw)
      requires history != [] && history[|history| - 1] == x && !x.finger.Present? && !Unstable(x.raw, base, limits)
      requires WindowBefore(base)
      modifies this`window
      ensures window == old(window) + [Accepted(x, limits)] && IsRun(history, window)
    {
      var before := history[..|history| - 1];
      assert history == before + [x];
      RunGrows(before, window, x, limits);
      window := window + [Accepted(x, limits)];
    }

    /** Should a full window be confirmed a second time? */
    method NeedsDouble(cfg: WakeConfig, ghost w: Wake) returns (doubled: bool)
      requires Grids() && cfg.Valid() && candidateValid && candidate[..] == Shl8(w.candidate)
      requires w.doubled == doubleConfirm && w.safeValid == safeValid && (safeValid ==> safe[..] == Shl8(w.safe))
      ensures doubled == Doubled(cfg, w)
    {
      doubled := doubleConfirm;
      if safeValid && !doubleConfirm {
        doubled := Diverge(candidate, safe, w.candidate, w.safe, cfg.limits);
      }
    }

    method PublishCandidate(ghost base: Raw)
      requires Grids() && candidate[..] == Shl8(base)
      modifies q8, safe
      ensures q8[..] == safe[..] == Shl8(base) && forall i | 0 <= i < PIXELS :: 0 <= q8[i] <= Q8_MAX
    {
      CopyGrid(q8, candidate);
      CopyGrid(safe, candidate);
      forall i | 0 <= i < PIXELS ensures q8[i] == base[i] * 256 {
        assert q8[i] == q8[..][i];
      }
    }

    /** The candidate becomes both the working and the safe grid. */
    method Commit(ghost base: Raw)
      requires Grids() && !quietIntact && candidateValid && candidate[..] == Shl8(base)
      modifies `initialized, `safeValid, `qualifying, `candidateValid, `doubleConfirm
      modifies `prevHadSignal, `hadFreeze, `recoveryFrames, q8, safe
      ensures Valid() && q8[..] == safe[..] == Shl8(base) && safeValid && initialized && !qualifying && !candidateValid
      ensures !doubleConfirm
      ensures Calm()
    {
      PublishCandidate(base);
      initialized, safeValid, qualifying, candidateValid, doubleConfirm := true, true, false, false, false;
      prevHadSignal, hadFreeze, recoveryFrames := false, false, 0;
    }

    /** A frame that agrees with the candidate counts towards the window. */
    method CountFrame(x: Sample, limits: Limits, ghost w: Wake)
      requires Grids() && !quietIntact && candidateValid && Stands(w)
      requires history != [] && history[|history| - 1] == x && !x.finger.Present?
      requires !Unstable(x.raw, w.candidate, limits)
      requires intact ==> WindowBefore(w.candidate)
      modifies `window, `candidateFrames
      ensures Valid() && candidateFrames == Bump(w.frames) && Stands(w.(frames := Bump(w.frames)))
      ensures intact ==> window == old(window) + [Accepted(x, limits)] && IsRun(history, window)
    {
      FieldsOf(w);
      if intact {
        ExtendWindow(x, limits, w.candidate);
      }
      if candidateFrames < 0xff {
        candidateFrames := candidateFrames + 1;
      }
    }

    /** A window that is long enough is committed, unless it needs a second confirmation. */
    method Confirm(cfg: WakeConfig, ghost w: Wake) returns (v: Verdict)
      requires Valid() && !quietIntact && cfg.Valid() && qualifying && candidateValid && Stands(w)
      modifies `initialized, `safeValid, `qualifying, `candidateValid, `doubleConfirm
      modifies `prevHadSignal, `hadFreeze, `recoveryFrames, q8, safe
      ensures Valid() && v == if w.frames < Required(cfg, Doubled(cfg, w)) then Pending else Ready
      ensures v.Pending? ==>
        Stands(w.(doubled := Doubled(cfg, w))) && q8[..] == old(q8[..]) && safe[..] == old(safe[..]) && qualifying
      ensures v.Ready? ==>
        Stands(w.(candidateValid := false, doubled := false, safeValid := true, safe := w.candidate,
            initialized := true))
      ensures v.Ready? ==> q8[..] == safe[..] == Shl8(w.candidate) && !qualifying
      ensures v.Ready? ==> Calm()
      ensures !v.Ready? ==> unchanged(`prevHadSignal, `hadFreeze, `recoveryFrames)
    {
      FieldsOf(w);
      doubleConfirm := NeedsDouble(cfg, w);
      if candidateFrames < Required(cfg, doubleConfirm) {
        return Pending;
      }
      Commit(w.candidate);
      return Ready;
    }

    /** The newest frame agrees with the candidate. */
    method AcceptFrame(cfg: WakeConfig, x: Sample, ghost w: Wake) returns (v: Verdict)
      requires Grids() && !quietIntact && cfg.Valid() && qualifying && candidateValid && Stands(w)
      requires history != [] && history[|history| - 1] == x && !x.finger.Present?
      requires !Unstable(x.raw, w.candidate, cfg.limits)
      requires intact ==> WindowBefore(w.candidate)
      modifies `window, `candidateFrames, q8, safe
      modifies `initialized, `safeValid, `qualifying, `candidateValid
      modifies `doubleConfirm, `prevHadSignal, `hadFreeze, `recoveryFrames
      ensures v == AcceptVerdict(cfg, w) && Stands(AcceptNext(cfg, w)) && Valid()
      ensures intact ==> window == old(window) + [Accepted(x, cfg.limits)] && IsRun(history, window)
      ensures v.Ready? ==> q8[..] == safe[..] == Shl8(w.candidate) && !qualifying
      ensures v.Pending? ==> q8[..] == old(q8[..]) && safe[..] == old(safe[..]) && qualifying
      ensures v.Ready? ==> Calm()
      ensures !v.Ready? ==> unchanged(`prevHadSignal, `hadFreeze, `recoveryFrames)
    {
      CountFrame(x, cfg.limits, w);
      if candidateFrames < cfg.stableFrames {
        return Pending;
      }
      v := Confirm(cfg, w.(frames := Bump(w.frames)));
    }

    /** A raw frame that may belong to a window: compared with the candidate, accepted or made the
        start of a new window. */
    method QuietFrame(cfg: WakeConfig, x: Sample, ghost w: Wake) returns (v: Verdict)
      requires Grids() && !quietIntact && cfg.Valid() && qualifying && Stands(w)
      requires history != [] && history[|history| - 1] == x && !x.finger.Present?
      requires candidateValid && intact ==> window != [] && WindowBefore(window[0].sample.raw)
      requires candidateValid && intact ==> candidate[..] == Shl8(window[0].sample.raw)
      modifies `initialized, `safeValid, `qualifying, `candidateValid, `doubleConfirm, `candidateFrames, `fingerFrames
      modifies `prevHadSignal, `hadFreeze, `recoveryFrames, `window, `intact, q8, safe, candidate
      ensures Valid() && v == QuietVerdict(cfg, w, x.raw) && Stands(QuietNext(cfg, w, x.raw))
      ensures !v.Ready? ==> q8[..] == old(q8[..]) && safe[..] == old(safe[..]) && qualifying
      ensures v.Ready? ==> q8[..] == safe[..] && !qualifying
      ensures v.Ready? && old(intact) ==> Earned(cfg, w)
      ensures v.Ready? ==> Calm()
      ensures !v.Ready? ==> unchanged(`prevHadSignal, `hadFreeze, `recoveryFrames)
    {
      FieldsOf(w);
      fingerFrames := 0;
      if !candidateValid {
        StartWindow(x, cfg.limits);
        return Pending;
      }
      if intact {
        Shl8Injective(window[0].sample.raw, w.candidate);
      }
      v := CompareFrame(cfg, x, w.(fingerFrames := 0));
    }

    /** The frame agrees with the candidate and counts, or starts a new window. */
    method CompareFrame(cfg: WakeConfig, x: Sample, ghost w: Wake) returns (v: Verdict)
      requires Grids() && !quietIntact && cfg.Valid() && qualifying && candidateValid && Stands(w)
      requires w.fingerFrames == 0
      requires history != [] && history[|history| - 1] == x && !x.finger.Present?
      requires intact ==> WindowBefore(w.candidate)
      modifies `initialized, `safeValid, `qualifying, `candidateValid, `doubleConfirm, `candidateFrames, `fingerFrames
      modifies `prevHadSignal, `hadFreeze, `recoveryFrames, `window, `intact, q8, safe, candidate
      ensures Valid() && v == QuietVerdict(cfg, w, x.raw) && Stands(QuietNext(cfg, w, x.raw))
      ensures !v.Ready? ==> q8[..] == old(q8[..]) && safe[..] == old(safe[..]) && qualifying
      ensures v.Ready? ==> q8[..] == safe[..] && !qualifying
      ensures v.Ready? && old(intact) ==> Earned(cfg, w)
      ensures v.Ready? ==> Calm()
      ensures !v.Ready? ==> unchanged(`prevHadSignal, `hadFreeze, `recoveryFrames)
    {
      var unstable := CompareCandidate(x.raw, cfg.limits, w);
      if unstable {
        RestartWindow(x, cfg.limits, w);
        return Rejected;
      }
      v := AcceptFrame(cfg, x, w);
    }

    method CompareCandidate(raw: Raw, limits: Limits, ghost w: Wake) returns (unstable: bool)
      requires Grids() && limits.Valid() && candidateValid && Stands(w)
      ensures unstable == Unstable(raw, w.candidate, limits) && w.candidateValid && w.frames == candidateFrames
    {
      FieldsOf(w);
      unstable := Compare(raw, w.candidate, candidate, limits);
    }

    /** A frame that does not agree starts the window over. */
    method RestartWindow(x: Sample, limits: Limits, ghost w: Wake)
      requires Grids() && !quietIntact && qualifying && candidateValid && Stands(w)
      requires !x.finger.Present? && history != [] && history[|history| - 1] == x
      modifies `candidateValid, `candidateFrames, `doubleConfirm, `window, `intact, candidate
      ensures Valid() && Stands(w.(candidate := x.raw, frames := 1, doubled := false))
    {
      FieldsOf(w);
      StartWindow(x, limits);
      doubleConfirm := false;
    }

    /** Nothing is remembered of the last live frame. */
    ghost predicate Calm()
      reads `prevHadSignal, `hadFreeze, `recoveryFrames
    {
      !prevHadSignal && !hadFreeze && recoveryFrames == 0
    }

    /** The committed grid is the first frame of a long enough run of stable quiet frames. */
    ghost predicate Earned(cfg: WakeConfig, w: Wake)
      reads `history, `window, q8
    {
      && IsRun(history, window) && q8[..] == Shl8(window[0].sample.raw) && |window| >= cfg.stableFrames
      && (w.doubled || (w.safeValid && Diverges(window[0].sample.raw, w.safe, cfg.limits)) ==>
            |window| >= 2 * cfg.stableFrames)
    }

    /** A frame of the wake path: it ends any quiet run of the live path. */
    ghost method RecordWake(x: Sample)
      requires Valid()
      modifies this`history, this`quietIntact
      ensures Grids() && !quietIntact && history == old(history) + [x]
      ensures qualifying && candidateValid && intact ==> window != [] && WindowBefore(window[0].sample.raw)
      ensures qualifying && candidateValid && intact ==> candidate[..] == Shl8(window[0].sample.raw)
    {
      assert Unlock(0);
      Record(x);
      quietIntact := false;
      assert history[..|history| - 1] == old(history);
    }

    /** A frame within the usable range, with a finger on it or without. */
    method JudgeInRange(cfg: WakeConfig, initial: u16, x: Sample, ghost w: Wake) returns (v: Verdict)
      requires Grids() && !quietIntact && cfg.Valid() && qualifying && Stands(w)
      requires history != [] && history[|history| - 1] == x && OutOfRange(x.raw, PIXELS) <= cfg.limits.nodes
      requires candidateValid && intact ==> window != [] && WindowBefore(window[0].sample.raw)
      requires candidateValid && intact ==> candidate[..] == Shl8(window[0].sample.raw)
      modifies `initialized, `safeValid, `qualifying, `candidateValid, `doubleConfirm, `candidateFrames, `fingerFrames
      modifies `prevHadSignal, `hadFreeze, `recoveryFrames, `window, `intact, q8, safe, candidate
      ensures Valid() && v == VerdictOn(cfg, w, x) && Stands(WakeNext(cfg, w, x))
      ensures v.Rejected? || v.Pending? ==> q8[..] == old(q8[..]) && safe[..] == old(safe[..]) && qualifying
      ensures !(v.Rejected? || v.Pending?) ==> !qualifying
      ensures v.UsingSafe? || v.Ready? ==> q8[..] == safe[..]
      ensures v.Ready? && old(intact) ==> Earned(cfg, w)
      ensures v.Protected? ==>
        if old(initialized) then q8[..] == old(q8[..]) else forall i | 0 <= i < PIXELS :: q8[i] == initial * 256
      ensures !v.Ready? ==> safe[..] == old(safe[..])
      ensures v.Ready? ==> Calm()
      ensures !v.Ready? ==> unchanged(`prevHadSignal, `hadFreeze, `recoveryFrames)
    {
      if x.finger.Present? {
        v := FingerFrame(cfg, initial, w);
      } else {
        v := QuietFrame(cfg, x, w);
      }
    }

    /** A frame of the window, whatever it shows. */
    method Judge(cfg: WakeConfig, initial: u16, x: Sample, ghost w: Wake) returns (v: Verdict)
      requires Grids() && !quietIntact && cfg.Valid() && qualifying && Stands(w)
      requires history != [] && history[|history| - 1] == x
      requires candidateValid && intact ==> window != [] && WindowBefore(window[0].sample.raw)
      requires candidateValid && intact ==> candidate[..] == Shl8(window[0].sample.raw)
      modifies `initialized, `safeValid, `qualifying, `candidateValid, `doubleConfirm, `candidateFrames, `fingerFrames
      modifies `prevHadSignal, `hadFreeze, `recoveryFrames, `window, `intact, q8, safe, candidate
      ensures Valid() && v == VerdictOn(cfg, w, x) && Stands(WakeNext(cfg, w, x))
      ensures v.Rejected? || v.Pending? ==> q8[..] == old(q8[..]) && safe[..] == old(safe[..]) && qualifying
      ensures !(v.Rejected? || v.Pending?) ==> !qualifying
      ensures v.UsingSafe? || v.Ready? ==> q8[..] == safe[..]
      ensures v.Ready? && old(intact) ==> Earned(cfg, w)
      ensures v.Protected? ==>
        if old(initialized) then q8[..] == old(q8[..]) else forall i | 0 <= i < PIXELS :: q8[i] == initial * 256
      ensures !v.Ready? ==> safe[..] == old(safe[..])
      ensures v.Ready? ==> Calm()
      ensures !v.Ready? ==> unchanged(`prevHadSignal, `hadFreeze, `recoveryFrames)
    {
      var outOfRange := CountOutOfRange(x.raw);
      if outOfRange > cfg.limits.nodes {
        DropCandidate(w);
        return Rejected;
      }
      v := JudgeInRange(cfg, initial, x, w);
    }

    /** One frame of wake qualification. */
    method QualifyWakeFrame(cfg: WakeConfig, initial: u16, raw: Raw, finger: Finger) returns (v: Verdict, ghost w: Wake)
      requires Valid() && cfg.Valid()
      modifies `initialized, `safeValid, `qualifying, `candidateValid, `doubleConfirm, `candidateFrames, `fingerFrames
      modifies `prevHadSignal, `hadFreeze, `recoveryFrames, `window, `intact, q8, safe, candidate
      modifies `history, `quietIntact
      ensures Valid() && old(Stands(w))
      ensures !old(qualifying) ==>
        v.Ready? && history == old(history) && q8[..] == old(q8[..]) && safe[..] == old(safe[..])
      ensures old(qualifying) ==> history == old(history) + [Sample(raw, finger)]
      ensures old(qualifying) ==>
        v == VerdictOn(cfg, w, Sample(raw, finger)) && Stands(WakeNext(cfg, w, Sample(raw, finger)))
      ensures v.Rejected? || v.Pending? ==> q8[..] == old(q8[..]) && safe[..] == old(safe[..]) && qualifying
      ensures v.UsingSafe? ==> q8[..] == safe[..]
      ensures old(qualifying) && !(v.Rejected? || v.Pending?) ==> !qualifying
      ensures old(qualifying) && v.Ready? ==> q8[..] == safe[..]
      ensures old(qualifying && intact) && v.Ready? ==> Earned(cfg, w)
      ensures v.Protected? ==>
        if old(initialized) then q8[..] == old(q8[..]) else forall i | 0 <= i < PIXELS :: q8[i] == initial * 256
      ensures !v.Ready? ==> safe[..] == old(safe[..])
      ensures if old(qualifying) && v.Ready? then Calm() else unchanged(`prevHadSignal, `hadFreeze, `recoveryFrames)
    {
      w := Standing();
      if !qualifying {
        return Ready, w;
      }
      RecordWake(Sample(raw, finger));
      v := Judge(cfg, initial, Sample(raw, finger), w);
    }

    // ----- the live path

    /** The first usable frame seeds the working grid, unless it may carry a finger. */
    method Seed(initial: u16, raw: Raw, finger: Finger)
      requires q8.Length == hold.Length == 2400
      modifies this`initialized, q8, hold
      ensures initialized && q8[..] == Seeded(old(initialized), old(q8[..]), initial, raw, finger)
      ensures forall i | 0 <= i < PIXELS :: hold[i] == if old(initialized) then old(hold[i]) else 0
    {
      if !initialized {
        for i := 0 to PIXELS
          invariant forall k | 0 <= k < i ::
            hold[k] == 0 && q8[k] == if finger.Absent? then raw[k] * 256 else initial * 256
        {
          q8[i] := if finger.Absent? then raw[i] * 256 else initial * 256;
          hold[i] := 0;
        }
        initialized := true;
      }
    }

    method UpdateAt(cfg: Config, raw: Raw, hasSignal: bool, recovery: bool, common: int, i: nat) returns (froze: bool)
      requires cfg.Valid() && q8.Length == hold.Length == frame.Length == 2400 && i < PIXELS && 0 <= q8[i] <= Q8_MAX
      modifies q8, hold, frame
      ensures 0 <= q8[i] <= Q8_MAX && froze == Freezes(cfg, old(q8[i]), raw[i], hasSignal, common)
      ensures var o := UpdateCell(cfg, old(q8[i]), old(hold[i]), raw[i], hasSignal, recovery, common);
        q8[i] == o.q8 && hold[i] == o.hold && frame[i] == o.signal
      ensures forall k | 0 <= k < PIXELS && k != i ::
        q8[k] == old(q8[k]) && hold[k] == old(hold[k]) && frame[k] == old(frame[k])
    {
      CellSafe(cfg, q8[i], hold[i], raw[i], hasSignal, recovery, common);
      var o := UpdateCell(cfg, q8[i], hold[i], raw[i], hasSignal, recovery, common);
      q8[i], hold[i], frame[i] := o.q8, o.hold, o.signal;
      froze := o.froze;
    }

    /** Adapts every cell and writes the baseline-subtracted frame. */
    method UpdateGrid(cfg: Config, raw: Raw, hasSignal: bool, recovery: bool, common: int) returns (froze: bool)
      requires cfg.Valid() && hold.Length == frame.Length == 2400 && InRange()
      modifies q8, hold, frame
      ensures InRange()
      ensures CellsAdapt(cfg, raw, hasSignal, recovery, common, old(q8[..]), old(hold[..]), q8[..], hold[..], frame[..])
      ensures froze == AnyFreezes(cfg, old(q8[..]), raw, hasSignal, common)
    {
      froze := false;
      for i := 0 to PIXELS
        invariant InRange()
        invariant forall k | i <= k < PIXELS :: q8[k] == old(q8[k]) && hold[k] == old(hold[k])
        invariant forall k | 0 <= k < i ::
          var o := UpdateCell(cfg, old(q8[k]), old(hold[k]), raw[k], hasSignal, recovery, common);
          q8[k] == o.q8 && hold[k] == o.hold && frame[k] == o.signal
        invariant froze <==> exists k :: 0 <= k < i && Freezes(cfg, old(q8[k]), raw[k], hasSignal, common)
      {
        var now := UpdateAt(cfg, raw, hasSignal, recovery, common, i);
        froze := froze || now;
      }
      frame[0] := 0;
    }

    /** How long the run of quiet frames is after frame x, and which grid it began with: c before. */
    ghost function RunLength(cfg: WakeConfig, x: Sample, c: Raw, frames: u8): u8 {
      if frames == 0 || Unstable(x.raw, c, cfg.limits) then 1 else Bump(frames)
    }

    ghost function RunGrid(cfg: WakeConfig, x: Sample, c: Raw, frames: u8): Raw {
      if frames == 0 || Unstable(x.raw, c, cfg.limits) then x.raw else c
    }

    /** A run that is long enough becomes the safe grid, and only such a run does. */
    ghost predicate QuietStep(cfg: WakeConfig, length: u8, grid: Raw, wasValid: bool, was: seq<int>)
      reads `safeValid, `safeFrames, safe, candidate
    {
      && candidate[..] == Shl8(grid)
      && if length >= cfg.safeCommit then safeValid && safeFrames == 0 && safe[..] == Shl8(grid)
         else safeFrames == length && safeValid == wasValid && safe[..] == was
    }

    /** A live frame with nothing on it counts towards the next safe grid. */
    method QuietLive(cfg: WakeConfig, x: Sample, ghost c: Raw)
      requires safeFrames > 0 ==> candidate[..] == Shl8(c)
      requires Grids() && cfg.Valid() && x.finger.Absent? && history != [] && history[|history| - 1] == x
      requires !(qualifying && candidateValid && intact)
      requires safeFrames > 0 && quietIntact ==> quiet != [] && QuietBefore()
      modifies `safeValid, `safeFrames, `quiet, `quietIntact, safe, candidate
      ensures Valid()
      ensures QuietStep(cfg, RunLength(cfg, x, c, old(safeFrames)), RunGrid(cfg, x, c, old(safeFrames)),
                        old(safeValid), old(safe[..]))
      ensures SafeCommitted(cfg, old(safeValid), old(safe[..]))
    {
      if safeFrames == 0 {
        CopyRaw(candidate, x.raw);
        StartQuiet(x, cfg.limits);
      } else {
        if quietIntact {
          Shl8Injective(quiet[0].sample.raw, c);
        }
        var unstable := Compare(x.raw, c, candidate, cfg.limits);
        if unstable {
          CopyRaw(candidate, x.raw);
          StartQuiet(x, cfg.limits);
        } else {
          GrowQuiet(x, cfg.limits, c);
        }
      }
      CommitQuiet(cfg, RunGrid(cfg, x, c, old(safeFrames)));
    }

    method CommitQuiet(cfg: WakeConfig, ghost grid: Raw)
      requires candidate[..] == Shl8(grid)
      requires Grids() && safeFrames > 0 && (quietIntact ==> QuietOk())
      requires !(qualifying && candidateValid && intact) && cfg.Valid()
      modifies this`safeValid, this`safeFrames, safe
      ensures Valid() && QuietStep(cfg, old(safeFrames), grid, old(safeValid), old(safe[..]))
      ensures SafeCommitted(cfg, old(safeValid), old(safe[..]))
    {
      assert Unlock(0);
      if safeFrames >= cfg.safeCommit {
        CopyGrid(safe, candidate);
        safeValid, safeFrames := true, 0;
      }
    }

    /** The safe grid is the old one, or the first frame of a long enough quiet run. */
    ghost predicate SafeCommitted(cfg: WakeConfig, wasValid: bool, was: seq<int>)
      reads `history, `safeValid, `quiet, `quietIntact, safe
    {
      || (safeValid == wasValid && safe[..] == was)
      || (safeValid && (quietIntact ==>
            IsRun(history, quiet) && AllAbsent(quiet) && |quiet| >= cfg.safeCommit
            && safe[..] == Shl8(quiet[0].sample.raw)))
    }

    ghost predicate QuietBefore()
      reads `history, `quiet, `safeFrames, candidate
      requires quiet != []
    {
      && history != [] && IsRun(history[..|history| - 1], quiet) && AllAbsent(quiet)
      && candidate.Length == 2400 && candidate[..] == Shl8(quiet[0].sample.raw)
      && safeFrames == if |quiet| < 0xff then |quiet| else 0xff
    }

    method StartQuiet(x: Sample, limits: Limits)
      requires candidate.Length == 2400 && candidate[..] == Shl8(x.raw) && x.finger.Absent?
      requires history != [] && history[|history| - 1] == x
      modifies this`safeFrames, this`quiet, this`quietIntact
      ensures safeFrames == 1 && quietIntact && QuietOk() && FromQuietFrame(history, candidate[..])
    {
      safeFrames := 1;
      quiet, quietIntact := [Accepted(x, limits)], true;
      RunStarts(history, x, limits);
      assert history == history[..|history| - 1] + [x];
      NewestFrame(history[..|history| - 1], x);
    }

    method GrowQuiet(x: Sample, limits: Limits, ghost base: Raw)
      requires candidate.Length == 2400 && x.finger.Absent? && safeFrames > 0
      requires history != [] && history[|history| - 1] == x && !Unstable(x.raw, base, limits)
      requires quietIntact ==> quiet != [] && QuietBefore() && base == quiet[0].sample.raw
      modifies this`safeFrames, this`quiet
      ensures safeFrames == (if old(safeFrames) < 0xff then old(safeFrames) + 1 else 0xff)
      ensures quietIntact ==> QuietOk()
    {
      if quietIntact {
        assert history == history[..|history| - 1] + [x];
        RunGrows(history[..|history| - 1], quiet, x, limits);
        quiet := quiet + [Accepted(x, limits)];
      }
      if safeFrames < 0xff {
        safeFrames := safeFrames + 1;
      }
    }

    method MeasureFrame(cfg: Config, raw: Raw, finger: Finger, anyActive: bool) returns (common: int, hasSignal: bool)
      requires q8.Length == 2400 && hist.Length == BINS && forall i | 0 <= i < PIXELS :: 0 <= q8[i] <= Q8_MAX
      modifies hist
      ensures IsCommon(Differences(raw, q8[..]), common)
      ensures hasSignal == Touched(cfg, Differences(raw, q8[..]), common, finger, anyActive)
    {
      var d := Differences(raw, q8[..]);
      var maxDelta;
      common, maxDelta := Measure(d, hist);
      hasSignal := finger.Present? || maxDelta - common >= cfg.peakThreshold || anyActive;
    }

    ghost function LiveNow(): Live
      reads `prevHadSignal, `hadFreeze, `recoveryFrames, q8, hold
    {
      Live(q8[..], hold[..], prevHadSignal, hadFreeze, recoveryFrames)
    }

    /** The grid half of a live frame: drift estimate, touch decision, adaptation. */
    method AdaptFrame(cfg: Config, x: Sample, anyActive: bool) returns (ghost common: int, ghost s: Live)
      requires cfg.Valid() && Grids()
      modifies `initialized, `prevHadSignal, `hadFreeze, `recoveryFrames, q8, hold, hist, frame
      ensures initialized && Grids()
      ensures s.q8 == Seeded(old(initialized), old(q8[..]), cfg.initial, x.raw, x.finger)
      ensures old(initialized) ==> s == old(LiveNow())
      ensures Adapts(cfg, x, anyActive, s, common, LiveNow(), frame[..])
    {
      Seed(cfg.initial, x.raw, x.finger);
      s := LiveNow();
      common := Adapt(cfg, x, anyActive);
    }

    method Adapt(cfg: Config, x: Sample, anyActive: bool) returns (ghost common: int)
      requires cfg.Valid() && Grids()
      modifies `prevHadSignal, `hadFreeze, `recoveryFrames, q8, hold, hist, frame
      ensures Grids() && Adapts(cfg, x, anyActive, old(LiveNow()), common, LiveNow(), frame[..])
    {
      var drift, touched := MeasureFrame(cfg, x.raw, x.finger, anyActive);
      common := drift;
      var recovery := Recover(cfg, touched);
      var froze := UpdateGrid(cfg, x.raw, touched, recovery, drift);
      prevHadSignal, hadFreeze := touched, froze;
    }

    /** A touched frame after an untouched or unfrozen one adapts faster, for a while. */
    method Recover(cfg: Config, touched: bool) returns (recovery: bool)
      requires cfg.Valid()
      modifies this`recoveryFrames
      ensures recovery == old(Recovers(cfg, LiveNow(), touched))
      ensures recoveryFrames == old(RecoveriesAfter(cfg, LiveNow(), touched))
    {
      recovery := touched && (!prevHadSignal || !hadFreeze) && recoveryFrames < cfg.recoveryFrames;
      if recovery {
        recoveryFrames := recoveryFrames + 1;
      } else if !touched || hadFreeze {
        recoveryFrames := 0;
      }
    }

    /** The newest frame is recorded and the working grid adapts to it. It ends any wake window. */
    method AdaptLive(cfg: Config, x: Sample, anyActive: bool) returns (ghost common: int, ghost s: Live, ghost c: Raw)
      requires Valid() && cfg.Valid()
      modifies `history, `intact, `initialized, `prevHadSignal, `hadFreeze, `recoveryFrames, q8, hold, hist, frame
      ensures Grids() && initialized && !intact && history == old(history) + [x]
      ensures safeFrames > 0 ==> candidate[..] == Shl8(c)
      ensures safeFrames > 0 && quietIntact ==> quiet != [] && QuietBefore()
      ensures s.q8 == Seeded(old(initialized), old(q8[..]), cfg.initial, x.raw, x.finger)
      ensures old(initialized) ==> s == old(LiveNow())
      ensures Adapts(cfg, x, anyActive, s, common, LiveNow(), frame[..])
    {
      assert Unlock(0);
      c := CandidateRaw(x.raw);
      Record(x);
      intact := false;
      assert history[..|history| - 1] == old(history);
      common, s := AdaptFrame(cfg, x, anyActive);
    }

    /** One live frame through baseline subtraction and adaptation. What wake qualification has counted
        stays, but its candidate grid may be overwritten. */
    method ProcessLive(cfg: Config, wake: WakeConfig, raw: Raw, finger: Finger, anyActive: bool)
      returns (ghost common: int, ghost s: Live, ghost c: Raw)
      requires Valid() && cfg.Valid() && wake.Valid()
      modifies `history, `intact, `initialized, `prevHadSignal, `hadFreeze, `recoveryFrames, q8, hold, hist, frame
      modifies `safeValid, `safeFrames, `quiet, `quietIntact, safe, candidate
      ensures Valid() && initialized && history == old(history) + [Sample(raw, finger)]
      ensures s.q8 == Seeded(old(initialized), old(q8[..]), cfg.initial, raw, finger)
      ensures !old(initialized) ==>
        forall i | 0 <= i < PIXELS :: s.q8[i] == if finger.Absent? then raw[i] * 256 else cfg.initial * 256
      ensures old(initialized) ==> s == old(LiveNow())
      ensures Adapts(cfg, Sample(raw, finger), anyActive, s, common, LiveNow(), frame[..])
      ensures old(initialized) ==> LiveStep(cfg, Sample(raw, finger), anyActive, old(LiveNow()), LiveNow())
      ensures old(safeFrames > 0 ==> candidate[..] == Shl8(c))
      ensures Follows(wake, Sample(raw, finger), c, finger.Absent? && !prevHadSignal && !hadFreeze,
                      old(safeFrames), old(safeValid), old(safe[..]))
    {
      common, s, c := AdaptLive(cfg, Sample(raw, finger), anyActive);
      FollowQuiet(wake, Sample(raw, finger), c, finger.Absent? && !prevHadSignal && !hadFreeze);
    }

    /** A still frame continues the run of quiet frames, any other one ends it; and a safe grid that is
        new comes from such a run. Sealed. */
    ghost predicate Follows(wake: WakeConfig, x: Sample, c: Raw, still: bool, frames: u8, wasValid: bool, was: seq<int>)
      reads `history, `safeValid, `safeFrames, `quiet, `quietIntact, safe, candidate
    {
      forall o {:trigger Unlock(o)} :: Unlock(o) ==>
        && (if still then QuietStep(wake, RunLength(wake, x, c, frames), RunGrid(wake, x, c, frames), wasValid, was)
            else safe[..] == was && safeValid == wasValid && safeFrames == 0)
        && SafeCommitted(wake, wasValid, was)
    }

    /** A still frame that agrees with the first of its run makes the run one longer, any other still frame
        starts a new one. A run of `safeCommit` frames, and no shorter one, puts its first frame into the
        safe grid; then counting starts over. */
    lemma CommittedExactlyWhen(wake: WakeConfig, x: Sample, c: Raw, frames: u8, wasValid: bool, was: seq<int>)
      requires wake.Valid() && Follows(wake, x, c, true, frames, wasValid, was)
      ensures frames > 0 && !Unstable(x.raw, c, wake.limits) && frames + 1 >= wake.safeCommit ==>
        safeValid && safe[..] == Shl8(c) && safeFrames == 0
      ensures frames > 0 && !Unstable(x.raw, c, wake.limits) && frames + 1 < wake.safeCommit ==>
        safe[..] == was && safeValid == wasValid && safeFrames == frames + 1 && candidate[..] == Shl8(c)
      ensures (frames == 0 || Unstable(x.raw, c, wake.limits)) && wake.safeCommit > 1 ==>
        safe[..] == was && safeValid == wasValid && safeFrames == 1 && candidate[..] == Shl8(x.raw)
      ensures (frames == 0 || Unstable(x.raw, c, wake.limits)) && wake.safeCommit == 1 ==>
        safeValid && safe[..] == Shl8(x.raw) && safeFrames == 0
    {
      assert Unlock(0);
    }

    /** Any other frame ends the run and leaves the safe grid alone. */
    lemma OtherFramesEndTheRun(wake: WakeConfig, x: Sample, c: Raw, frames: u8, wasValid: bool, was: seq<int>)
      requires Follows(wake, x, c, false, frames, wasValid, was)
      ensures safe[..] == was && safeValid == wasValid && safeFrames == 0
    {
      assert Unlock(0);
    }

    /** Continues the run of quiet frames, or ends it. */
    method FollowQuiet(wake: WakeConfig, x: Sample, ghost c: Raw, still: bool)
      requires Grids() && wake.Valid() && history != [] && history[|history| - 1] == x && !intact
      requires still ==> x.finger.Absent?
      requires safeFrames > 0 ==> candidate[..] == Shl8(c)
      requires safeFrames > 0 && quietIntact ==> quiet != [] && QuietBefore()
      modifies `safeValid, `safeFrames, `quiet, `quietIntact, safe, candidate
      ensures Valid() && Follows(wake, x, c, still, old(safeFrames), old(safeValid), old(safe[..]))
    {
      if still {
        QuietLive(wake, x, c);
      } else {
        safeFrames := 0;
      }
    }
  }
  /** The first frame of a wake window. */
  method FirstWakeFrame(b: Baseline, wake: WakeConfig, initial: u16, x: Raw)
    requires b.Valid() && wake.Valid() && OutOfRange(x, PIXELS) <= wake.limits.nodes
    requires b.qualifying && !b.candidateValid && !b.doubleConfirm
    modifies b, b.q8, b.safe, b.candidate
    ensures b.Valid() && b.qualifying && b.candidateValid && !b.doubleConfirm && b.candidateFrames == 1
    ensures b.safeValid == old(b.safeValid) && b.initialized == old(b.initialized) && b.safeFrames == old(b.safeFrames)
    ensures b.history == old(b.history) + [Sample(x, Absent)]
  {
    var v;
    ghost var w;
    v, w := b.QualifyWakeFrame(wake, initial, x, Absent);
    assert Open(0);
  }

  /** A wake frame that agrees with the candidate. */
  method SecondWakeFrame(b: Baseline, wake: WakeConfig, initial: u16, y: Raw) returns (v: Verdict)
    requires b.Valid() && wake.Valid() && wake.stableFrames == 2 && OutOfRange(y, PIXELS) <= wake.limits.nodes
    requires b.qualifying && b.candidateValid && !b.doubleConfirm && b.candidateFrames == 1 && !b.safeValid
    requires b.candidate[..] == Shl8(y)
    modifies b, b.q8, b.safe, b.candidate
    ensures b.Valid() && b.history == old(b.history) + [Sample(y, Absent)]
    ensures v.Ready? && b.q8[..] == b.safe[..] == Shl8(y)
  {
    ghost var w;
    v, w := b.QualifyWakeFrame(wake, initial, y, Absent);
    assert Open(0);
    Shl8Injective(w.candidate, y);
    SameIsStable(y, wake.limits);
  }

  /** Why live frames must stay out of a wake window: the first quiet one overwrites the shared
      candidate but not the window's count, and a single agreeing wake frame then commits. */
  method LiveFrameShortensTheWindow(cfg: Config, wake: WakeConfig, x: Raw, y: Raw) returns (b: Baseline, v: Verdict)
    requires cfg.Valid() && wake.Valid() && wake.stableFrames == 2 <= wake.safeCommit
    requires OutOfRange(x, PIXELS) <= wake.limits.nodes && OutOfRange(y, PIXELS) <= wake.limits.nodes
    ensures fresh(b) && b.Valid() && b.history == [Sample(x, Absent), Sample(y, Absent), Sample(y, Absent)]
    ensures v.Ready? && b.q8[..] == b.safe[..] == Shl8(y)
  {
    b := new Baseline();
    b.BeginWake();
    FirstWakeFrame(b, wake, cfg.initial, x);
    LiveFrameTakesCandidate(b, cfg, wake, y);
    v := SecondWakeFrame(b, wake, cfg.initial, y);
  }

  /** The first live frame without a finger. */
  method LiveFrameTakesCandidate(b: Baseline, cfg: Config, wake: WakeConfig, y: Raw)
    requires b.Valid() && cfg.Valid() && wake.Valid() && wake.safeCommit >= 2 && !b.initialized && b.safeFrames == 0
    modifies b, b.q8, b.safe, b.candidate, b.hold, b.hist, b.frame
    ensures b.Valid() && b.candidate[..] == Shl8(y) && b.history == old(b.history) + [Sample(y, Absent)]
    ensures b.qualifying == old(b.qualifying) && b.candidateValid == old(b.candidateValid)
    ensures b.safeValid == old(b.safeValid)
    ensures b.doubleConfirm == old(b.doubleConfirm) && b.candidateFrames == old(b.candidateFrames)
  {
    ghost var common, s, c;
    common, s, c := b.ProcessLive(cfg, wake, y, Absent, false);
    SeedShowsNothing(cfg, y, s, common, b.LiveNow(), b.frame[..]);
    assert Unlock(0);
  }

  /** A grid seeded with the frame itself sees nothing in it. */
  lemma SeedShowsNothing(cfg: Config, y: Raw, s: Live, common: int, t: Live, frame: seq<int>)
    requires cfg.Valid() && s.q8 == Shl8(y) && Adapts(cfg, Sample(y, Absent), false, s, common, t, frame)
    ensures !t.hadSignal && !t.hadFreeze
  {
    assert Open(0);
    var d := Differences(y, s.q8);
    var b :| 0 <= b < BINS && MiddleBin(d, b) && CountBin(d, b, PIXELS) > 0 && common == Estimate(d, b);
    EstimateInHull(d, b, 0, 0);
  }
}
