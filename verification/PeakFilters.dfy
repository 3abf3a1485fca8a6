/** What the peak stage keeps and drops: candidates, shallow saddles, isolated spikes, small peaks. */
module PeakFilters {
  import opened Machine
  import opened Arithmetic
  import opened Grid
  import opened Components
  import opened Peaks
  import opened LocalMaxima
  import opened Zones
  import opened Tables
  import Tracks
  import SlotCycle

  datatype Config = Config(
    threshold: int, edgeThreshold: int, localRadius: nat,
    saddleEnabled: bool, saddleRadius: nat, saddleDrop: int, z8Enabled: bool,
    macroMinArea: nat, continueMinArea: nat, continueMinSignal: int, singleTrackMinSignal: int,
    continueDist2: int, fastMinSignal: int, fastEdgeCells: nat)
  {
    function Radius(): nat { if localRadius < 1 then 1 else localRadius }
  }

  function FrameAt(f: Frame, r: int, c: int): int {
    if InGrid(r, c) then Max(f[Cell(r, c)], 0) else 0
  }

  /** Reads one sample; outside the grid there is no signal. */
  method SampleAt(frame: array<s16>, r: int, c: int) returns (v: int)
    requires frame.Length == PIXELS
    ensures v == FrameAt(frame[..], r, c)
  {
    if !InGrid(r, c) {
      return 0;
    }
    v := frame[r * 60 + c];
    if v < 0 {
      v := 0;
    }
  }

  // ----- candidates

  function ThresholdAt(cfg: Config, r: nat, c: nat): int {
    if c == 1 || c == 58 || r == 39 then cfg.edgeThreshold else cfg.threshold
  }

  /** A cell that becomes a candidate; `drifts` are the cells the pressure-drift test rejects. */
  ghost predicate IsCandidate(cfg: Config, f: Frame, drifts: set<nat>, cell: nat) {
    && cell < PIXELS && f[cell] >= ThresholdAt(cfg, Row(cell), Col(cell)) && IsPeak(f, cfg.Radius(), cell)
    && cell !in drifts
  }

  /** Signal of the first k cells of the 3 by 3 window, row by row, without the middle. */
  function NeighbourSum(f: Frame, r: int, c: int, k: nat): int {
    if k == 0 then 0
    else NeighbourSum(f, r, c, k - 1) + if k == 5 then 0 else FrameAt(f, r + (k - 1) / 3 - 1, c + (k - 1) % 3 - 1)
  }

  function PeakAt(f: Frame, z: Zone, zi: nat, cell: nat): Peak
    requires cell < PIXELS && -0x8000 <= f[cell] < 0x8000
  {
    var r, c := Row(cell), Col(cell);
    Peak(r, c, f[cell], NeighbourSum(f, r, c, 9), z.area, zi, 0, 0, 0, 0,
         r == 0 || r == 39 || c == 0 || c == 59, false, false, -1)
  }

  function StrengthOf(p: Peak): int { p.z }

  function CellOf(p: Peak): nat
    requires OnGrid(p)
  {
    Cell(p.r, p.c)
  }

  /** Every entry sits on a cell that passed the local-maximum test, no two on the same. */
  ghost predicate Rooted(f: Frame, radius: int, s: seq<Peak>) {
    && (forall k | 0 <= k < |s| :: OnGrid(s[k]) && IsPeak(f, radius, CellOf(s[k])))
    && CellsDiffer(s)
  }

  ghost predicate CellsDiffer(s: seq<Peak>) {
    forall i, j | 0 <= i < j < |s| :: s[i].r != s[j].r || s[i].c != s[j].c
  }

  /** Every entry still carries its cell's signal. */
  ghost predicate Valued(f: Frame, s: seq<Peak>) {
    forall k | 0 <= k < |s| :: OnGrid(s[k]) && s[k].z == f[CellOf(s[k])]
  }

  /** More than the radius apart, in rows or in columns. */
  ghost predicate Apart(radius: int, s: seq<Peak>) {
    forall i, j | 0 <= i < j < |s| :: FarApart(radius, s[i], s[j])
  }

  predicate FarApart(radius: int, a: Peak, b: Peak) {
    a.r - b.r > radius || b.r - a.r > radius || a.c - b.c > radius || b.c - a.c > radius
  }

  lemma RootedApart(f: Frame, radius: int, s: seq<Peak>)
    requires Rooted(f, radius, s)
    ensures Apart(radius, s)
  {
    forall i, j | 0 <= i < j < |s|
      ensures FarApart(radius, s[i], s[j])
    {
      PeaksApart(f, radius, CellOf(s[i]), CellOf(s[j]));
    }
  }

  /** Dropping entries keeps what the table promises. */
  lemma FilterKeeps(f: Frame, radius: int, s: seq<Peak>, keep: Peak -> bool)
    requires Rooted(f, radius, s)
    ensures Rooted(f, radius, Filter(s, keep)) && (Valued(f, s) ==> Valued(f, Filter(s, keep)))
  {
    FilterIsSubsequence(s, keep);
  }

  // ----- saddles

  function Steps(a: Peak, b: Peak): nat {
    var dr, dc := Abs(b.r - a.r), Abs(b.c - a.c);
    if dr > dc then dr else dc
  }

  /** Coordinate s of `steps` on the way, rounded half away from zero. */
  function Between(from: int, to: int, s: nat, steps: nat): int
    requires steps > 0
  {
    var num := (to - from) * s;
    from + if num >= 0 then Div(num + steps / 2, steps) else Div(num - steps / 2, steps)
  }

  /** Highest sample strictly between two peaks, over the first s - 1 steps. */
  function SaddleUpTo(f: Frame, a: Peak, b: Peak, s: nat): int
    requires Steps(a, b) > 0 && s >= 1
  {
    if s == 1 then 0
    else Max(SaddleUpTo(f, a, b, s - 1),
             FrameAt(f, Between(a.r, b.r, s - 1, Steps(a, b)), Between(a.c, b.c, s - 1, Steps(a, b))))
  }

  function Saddle(f: Frame, a: Peak, b: Peak): int
    requires Steps(a, b) > 0
  {
    SaddleUpTo(f, a, b, Steps(a, b))
  }

  predicate Close(cfg: Config, a: Peak, b: Peak) {
    a.zoneIndex == b.zoneIndex && 0 < Steps(a, b) <= cfg.saddleRadius
  }

  /** Two close peaks of one zone without a real dip between them. */
  predicate Shallow(cfg: Config, f: Frame, a: Peak, b: Peak) {
    Close(cfg, a, b) &&
    var weaker := Min(a.z, b.z);
    weaker - Saddle(f, a, b) < Max(cfg.saddleDrop, Div(weaker * 8, 100))
  }

  /** Same peak, except that its signal may have been struck out. */
  predicate SameOrStruck(was: Peak, now: Peak) {
    now == was || now == was.(z := -1)
  }

  /** Nobody is struck out without a shallow saddle to a peak at least as strong. */
  ghost predicate Justified(cfg: Config, f: Frame, s: seq<Peak>, k: nat)
    requires k < |s|
  {
    exists m | 0 <= m < |s| ::
      m != k && s[k].z <= s[m].z && (Shallow(cfg, f, s[k], s[m]) || Shallow(cfg, f, s[m], s[k]))
  }

  /** The peak strength that counts in zone zi is still there. */
  ghost predicate ZoneAlive(s: seq<Peak>, t: seq<Peak>, zi: nat)
    requires |s| == |t|
  {
    exists k | 0 <= k < |s| ::
      s[k].zoneIndex == zi && t[k] == s[k] && forall m | 0 <= m < |s| && s[m].zoneIndex == zi :: s[m].z <= s[k].z
  }

  /** The table s after all saddles between entries before `upTo` pairs were looked at. */
  ghost predicate Struck(cfg: Config, f: Frame, s: seq<Peak>, t: seq<Peak>) {
    && |t| == |s|
    && (forall k | 0 <= k < |s| :: SameOrStruck(s[k], t[k]))
    && (forall k | 0 <= k < |s| && t[k].z < 0 :: Justified(cfg, f, s, k))
    && (forall k | 0 <= k < |s| :: ZoneAlive(s, t, s[k].zoneIndex))
  }

  /** Pair (i, j) was looked at: not both are left if the saddle is shallow. */
  ghost predicate Decided(cfg: Config, f: Frame, s: seq<Peak>, t: seq<Peak>, i: nat, j: nat)
    requires i < |s| == |t| && j < |s|
  {
    t[i].z >= 0 && t[j].z >= 0 ==> !Shallow(cfg, f, s[i], s[j])
  }

  // ----- small peaks

  datatype Context = Context(cfg: Config, tracks: seq<Tracks.Track>, fastPending: bool, zoneCount: nat, peakCount: nat,
      fingerPresent: bool)

  /** Where a peak's cell lies on the screen. */
  function Approx(p: Peak): Tracks.Pos {
    Tracks.Pos((p.c * 256 + 128) / 6, 5 * (p.r * 256 + 128) / 32)
  }

  predicate InReach(x: Context, p: Peak, ti: nat)
    requires ti < |x.tracks|
  {
    x.tracks[ti].active && x.tracks[ti].reported
    && Tracks.Dist2Predicted(Approx(p), x.tracks[ti]) <= Max(x.cfg.continueDist2, 1)
  }

  /** Reported tracks in reach among the first k slots, and the last of them. */
  function Reached(x: Context, p: Peak, k: nat): (r: nat)
    requires k <= |x.tracks|
    ensures r <= k
  {
    if k == 0 then 0 else Reached(x, p, k - 1) + if InReach(x, p, k - 1) then 1 else 0
  }

  function LastReached(x: Context, p: Peak, k: nat): (r: int)
    requires k <= |x.tracks|
    ensures -1 <= r < k
  {
    if k == 0 then -1 else if InReach(x, p, k - 1) then k - 1 else LastReached(x, p, k - 1)
  }

  predicate NearEdge(x: Context, p: Peak) {
    var m := x.cfg.fastEdgeCells;
    p.r < m || p.r >= 40 - m || p.c < m || p.c >= 60 - m
  }

  predicate FastStart(x: Context, p: Peak) {
    && x.fastPending && x.zoneCount == 1 && x.peakCount == 1
    && x.cfg.continueMinArea <= p.zoneArea < x.cfg.macroMinArea && NearEdge(x, p) && p.z >= x.cfg.fastMinSignal
  }

  predicate MayContinueOnly(x: Context, p: Peak) {
    && x.cfg.continueMinArea <= p.zoneArea < x.cfg.macroMinArea && !p.onEdge
    && (p.z >= x.cfg.continueMinSignal
        || (SlotCycle.ReportedSlots(x.tracks, |x.tracks|) == 1 && x.zoneCount == 1 && x.fingerPresent
            && p.z >= x.cfg.singleTrackMinSignal))
  }

  predicate Continues(x: Context, p: Peak) {
    MayContinueOnly(x, p) && Reached(x, p, |x.tracks|) == 1
  }

  /** A small peak stays only to continue the one reported track in reach, or to start fast. */
  predicate Stays(x: Context, p: Peak) {
    p.zoneArea >= x.cfg.macroMinArea || p.onEdge || FastStart(x, p) || Continues(x, p)
  }

  function Bound(x: Context, p: Peak): Peak {
    p.(fastStart := FastStart(x, p), continuationOnly := Continues(x, p),
       slot := if Continues(x, p) then LastReached(x, p, |x.tracks|) else -1)
  }

  function AllBound(x: Context, s: seq<Peak>): (r: seq<Peak>)
    ensures |r| == |s| && forall k | 0 <= k < |s| :: r[k] == Bound(x, s[k])
  {
    seq(|s|, k requires 0 <= k < |s| => Bound(x, s[k]))
  }

  lemma {:induction false} NoneReached(x: Context, p: Peak, k: nat)
    requires k <= |x.tracks|
    ensures Reached(x, p, k) == 0 <==> LastReached(x, p, k) == -1
    ensures Reached(x, p, k) == 0 ==> forall ti | 0 <= ti < k :: !InReach(x, p, ti)
    ensures LastReached(x, p, k) >= 0 ==> InReach(x, p, LastReached(x, p, k))
  {
    if k > 0 {
      NoneReached(x, p, k - 1);
    }
  }

  lemma {:induction false} SoleReached(x: Context, p: Peak, k: nat)
    requires k <= |x.tracks| && Reached(x, p, k) == 1
    ensures var ti := LastReached(x, p, k);
      0 <= ti < k && InReach(x, p, ti) && forall m | 0 <= m < k && InReach(x, p, m) :: m == ti
  {
    if InReach(x, p, k - 1) {
      NoneReached(x, p, k - 1);
    } else {
      SoleReached(x, p, k - 1);
    }
  }

  /** A continuation-only peak is bound to the one reported track in its reach. */
  lemma ContinuationIsBound(x: Context, p: Peak)
    requires Bound(x, p).continuationOnly
    ensures var ti := Bound(x, p).slot;
      0 <= ti < |x.tracks| && InReach(x, p, ti) && forall m | 0 <= m < |x.tracks| && InReach(x, p, m) :: m == ti
  {
    SoleReached(x, p, |x.tracks|);
  }

  // ----- edge columns

  ghost predicate IsColumnMax(s: seq<Peak>, col: nat, m: int) {
    && m >= 0 && (forall k | 0 <= k < |s| && s[k].c == col :: s[k].z <= m)
    && (m > 0 ==> exists k :: 0 <= k < |s| && s[k].c == col && s[k].z == m)
  }

  /** Weak peaks on an edge column go, measured against the strongest one there. */
  function EdgeKeeps(col: nat, max: int): Peak -> bool {
    (p: Peak) => p.c != col || p.z >= max / 8 * 5
  }

  lemma StrongestOnEdgeStays(s: seq<Peak>, col: nat, m: int, k: nat)
    requires IsColumnMax(s, col, m) && k < |s| && s[k].c == col && s[k].z == m
    ensures s[k] in Filter(s, EdgeKeeps(col, m))
  {
    FilterIsSubsequence(s, EdgeKeeps(col, m));
    assert EdgeKeeps(col, m)(s[k]);
  }
}
