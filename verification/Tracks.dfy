/** Slots, detections and tunables of the tracker, its motion prediction and its smoothing filter. */
module Tracks {
  import opened Machine
  import opened Arithmetic

  // Largest output coordinates.
  const MAX_X := 2560
  const MAX_Y := 1600

  const MAX_LOST := 16

  datatype Pos = Pos(x: int, y: int)

  datatype Contact = Contact(
    signalSum: int, isEdge: bool, fastStart: bool, peakId: u8, peakAge: u8, zone: u8,
    continuationOnly: bool, slot: int)

  datatype Track = Track(
    active: bool, reported: bool, age: u8, missed: u8, debounce: u8,
    x: int, y: int, vx: int, vy: int, fx: int, fy: int, derivX: int, derivY: int,
    peakId: u8, peakAge: u8, signalSum: int)

  /** A released slot is all zeros. */
  const EMPTY := Track(false, false, 0, 0, 0, 0, 0, 0, 0, 0, 0, 0, 0, 0, 0, 0)

  datatype Config = Config(
    dist2Max: int, lostFrames: nat, debounceBase: nat, smoothing: bool, activeGuard: bool,
    startDebounce: nat, jumpDist2: int, hungarian: bool, weakExtra: nat, edgeExtra: nat,
    strongSignal: int, edgeFastStart: bool, splitFrames: nat, splitDist2: int,
    crossFrames: nat, crossDist2: int, peakIdPenalty: int,
    euro: bool, alphaMin: int, alphaMax: int, speedThreshold: int)
  {
    /** The ranges the driver accepts for its tunables. */
    predicate Valid() {
      && 1 <= dist2Max <= 16777216 && 1 <= lostFrames <= MAX_LOST && debounceBase <= 16
      && startDebounce <= 16 && 0 <= jumpDist2 <= 16777216 && weakExtra <= 16 && edgeExtra <= 16
      && 0 <= strongSignal <= 1000000 && 1 <= splitFrames <= 16 && 1 <= splitDist2 <= 1000000
      && 1 <= crossFrames <= 16 && 1 <= crossDist2 <= 1000000 && 0 <= peakIdPenalty <= 16777216
      && 1 <= alphaMin <= 255 && 1 <= alphaMax <= 255 && 1 <= speedThreshold <= 4096
    }
  }

  predicate OnScreen(p: Pos) { 0 <= p.x <= MAX_X && 0 <= p.y <= MAX_Y }

  /** What every slot's coordinates, speeds and filter state stay within. */
  predicate Placed(t: Track) {
    && 0 <= t.fx <= MAX_X * 256 && 0 <= t.fy <= MAX_Y * 256
    && t.x == t.fx / 256 && t.y == t.fy / 256
    && Abs(t.vx) <= MAX_X && Abs(t.vy) <= MAX_Y
    && Abs(t.derivX) <= MAX_X * 256 && Abs(t.derivY) <= MAX_Y * 256
    && t.missed <= MAX_LOST
  }

  // ----- prediction

  function Square(x: int): (r: int)
    ensures r >= 0
  {
    x * x
  }

  function Dist2(x0: int, y0: int, x1: int, y1: int): (r: int)
    ensures r >= 0
  {
    Square(x0 - x1) + Square(y0 - y1)
  }

  /** Squared distance from a detection to where the track is expected k frames on. */
  function Dist2After(a: Pos, t: Track, k: int): (r: int)
    ensures r >= 0
  {
    Dist2(a.x, a.y, t.x + t.vx * k, t.y + t.vy * k)
  }

  function Dist2Predicted(a: Pos, t: Track): (r: int)
    ensures r >= 0
  {
    Dist2After(a, t, t.missed as int + 1)
  }

  lemma SquareBound(x: int, b: int)
    requires -b <= x <= b
    ensures x * x <= b * b
  {
    assert b * b - x * x == (b - x) * (b + x);
  }

  lemma ProductBound(v: int, k: int, b: int)
    requires -b <= v <= b && 0 <= k
    ensures -b * k <= v * k <= b * k
  {
  }

  /** With coordinates in range neither the prediction nor the distance leaves its C type. */
  lemma PredictionFits(a: Pos, t: Track, k: int)
    requires OnScreen(a) && Placed(t) && 1 <= k <= MAX_LOST + 1
    ensures -0x8000_0000 <= t.x + t.vx * k < 0x8000_0000 && -0x8000_0000 <= t.y + t.vy * k < 0x8000_0000
    ensures -0x8000_0000 <= a.x - (t.x + t.vx * k) < 0x8000_0000 && -0x8000_0000 <= a.y - (t.y + t.vy * k) < 0x8000_0000
    ensures Dist2After(a, t, k) < 0x2_0000_0000
  {
    ProductBound(t.vx, k, MAX_X);
    ProductBound(t.vy, k, MAX_Y);
    SquareBound(a.x - (t.x + t.vx * k), MAX_X * (MAX_LOST + 2));
    SquareBound(a.y - (t.y + t.vy * k), MAX_Y * (MAX_LOST + 2));
  }

  /** Nearest of the prediction and the points two to k frames ahead. */
  function RayUpTo(a: Pos, t: Track, k: nat): (r: int)
    ensures 0 <= r <= Dist2Predicted(a, t)
  {
    if k < 2 then Dist2Predicted(a, t) else Min(RayUpTo(a, t, k - 1), Dist2After(a, t, k))
  }

  /** Distance to the short motion ray; a track at rest has none. */
  function Ray(a: Pos, t: Track): (r: int)
    ensures 0 <= r <= Dist2Predicted(a, t)
  {
    if t.vx == 0 && t.vy == 0 then Dist2Predicted(a, t) else RayUpTo(a, t, 4)
  }

  method Dist2MotionRay(a: Pos, t: Track) returns (best: int)
    ensures best == Ray(a, t)
    ensures t.vx != 0 || t.vy != 0 ==> forall k | 2 <= k <= 4 :: best <= Dist2After(a, t, k)
  {
    best := Dist2Predicted(a, t);
    if t.vx == 0 && t.vy == 0 {
      return;
    }
    for step := 2 to 5
      invariant best == RayUpTo(a, t, step - 1)
      invariant forall k | 2 <= k < step :: best <= Dist2After(a, t, k)
    {
      var d2 := Dist2After(a, t, step);
      if d2 < best {
        best := d2;
      }
    }
  }

  // ----- smoothing

  function Alpha(cfg: Config, speed: nat): int
    requires cfg.Valid()
  {
    var lo := Min(cfg.alphaMin, cfg.alphaMax);
    var hi := Max(cfg.alphaMin, cfg.alphaMax);
    Clamp(lo + (hi - lo) * Min(speed, cfg.speedThreshold) / cfg.speedThreshold, 1, 255)
  }

  /** The filter is slowest at rest and fastest from the threshold speed on, whichever way round the two
      settings are given, and never slower for a faster finger. */
  lemma AlphaGrows(cfg: Config, slow: nat, fast: nat)
    requires cfg.Valid() && slow <= fast
    ensures 1 <= Alpha(cfg, slow) <= Alpha(cfg, fast) <= 255
    ensures Alpha(cfg, 0) == Min(cfg.alphaMin, cfg.alphaMax)
    ensures fast >= cfg.speedThreshold ==> Alpha(cfg, fast) == Max(cfg.alphaMin, cfg.alphaMax)
  {
    var range, top := Max(cfg.alphaMin, cfg.alphaMax) - Min(cfg.alphaMin, cfg.alphaMax), cfg.speedThreshold;
    ShareOrder(range, 0, Min(slow, top), top);
    ShareOrder(range, Min(slow, top), Min(fast, top), top);
    ShareOrder(range, Min(fast, top), top, top);
  }

  /** A share a / top of a range, rounded down, grows with a, from none to all of it. */
  lemma ShareOrder(range: nat, a: nat, b: nat, top: nat)
    requires a <= b <= top && top > 0
    ensures 0 <= range * a / top <= range * b / top <= range
    ensures range * 0 / top == 0 && range * top / top == range
  {
    MulOrder(a, b, range);
    MulOrder(b, top, range);
    DivOrder(0, range * a, top);
    DivOrder(range * a, range * b, top);
    DivOrder(range * b, range * top, top);
    WholeShare(range, top);
  }

  lemma MulOrder(a: int, b: int, d: nat)
    requires a <= b
    ensures d * a <= d * b
  {
  }

  lemma WholeShare(range: nat, top: nat)
    requires top > 0
    ensures range * top / top == range
  {
    var q := range * top / top;
    assert range * top == top * q + range * top % top;
    assert top * (range - q) == top * range - top * q;
    if range - q >= 1 {
      MulOrder(1, range - q, top);
    } else {
      MulOrder(range - q, 0, top);
    }
  }

  lemma DivOrder(x: int, y: int, d: nat)
    requires d > 0 && 0 <= x <= y
    ensures 0 <= x / d <= y / d
  {
    assert x == d * (x / d) + x % d && y == d * (y / d) + y % d;
    if x / d >= y / d + 1 {
      MulOrder(y / d + 1, x / d, d);
    }
  }

  /** One filter step in Q8; the shift floors. */
  function Blend(alpha: int, from: int, to: int): int {
    from + alpha * (to - from) / 256
  }

  /** A filter step never leaves the segment it moves along, and always moves when its target
      is smaller. */
  lemma BlendBetween(alpha: int, from: int, to: int)
    requires 1 <= alpha <= 255
    ensures Min(from, to) <= Blend(alpha, from, to) <= Max(from, to)
    ensures from > to ==> Blend(alpha, from, to) < from
  {
    var d := to - from;
    if d >= 0 {
      assert 0 <= alpha * d <= 256 * d;
    } else {
      assert 256 * d <= alpha * d < 0;
    }
  }

  /** The filter rests at its target, or short of a larger one by less than 256 / alpha, and nowhere else. */
  lemma BlendRests(alpha: int, from: int, to: int)
    requires 1 <= alpha <= 255
    ensures Blend(alpha, from, to) == from <==> from == to || (from < to && alpha * (to - from) < 256)
  {
    BlendBetween(alpha, from, to);
    var d := to - from;
    if d > 0 {
      assert alpha * d > 0;
    }
  }

  function Filtered(cfg: Config, t: Track, det: Pos): Track
    requires cfg.Valid()
  {
    var dx, dy := det.x - t.x, det.y - t.y;
    var moved := t.(vx := dx, vy := dy);
    if !cfg.smoothing || !cfg.euro then
      moved.(x := det.x, y := det.y, fx := det.x * 256, fy := det.y * 256)
    else
      var alpha := Alpha(cfg, Max(Abs(dx), Abs(dy)));
      var fx, fy := Blend(alpha, t.fx, det.x * 256), Blend(alpha, t.fy, det.y * 256);
      moved.(derivX := Blend(alpha, t.derivX, dx * 256), derivY := Blend(alpha, t.derivY, dy * 256),
             fx := fx, fy := fy, x := fx / 256, y := fy / 256)
  }

  lemma FilteredPlaced(cfg: Config, t: Track, det: Pos)
    requires cfg.Valid() && Placed(t) && OnScreen(det)
    requires Min(t.fx, det.x * 256) <= Filtered(cfg, t, det).fx <= Max(t.fx, det.x * 256)
    requires Min(t.fy, det.y * 256) <= Filtered(cfg, t, det).fy <= Max(t.fy, det.y * 256)
    requires Abs(Filtered(cfg, t, det).derivX) <= MAX_X * 256 && Abs(Filtered(cfg, t, det).derivY) <= MAX_Y * 256
    ensures Placed(Filtered(cfg, t, det))
    ensures Min(t.x, det.x) <= Filtered(cfg, t, det).x <= Max(t.x, det.x)
    ensures Min(t.y, det.y) <= Filtered(cfg, t, det).y <= Max(t.y, det.y)
  {
  }

  /** Smoothing lands between the old position and the detection, and keeps every range. */
  lemma FilteredLandsBetween(cfg: Config, t: Track, det: Pos)
    requires cfg.Valid() && Placed(t) && OnScreen(det)
    ensures Placed(Filtered(cfg, t, det))
    ensures Min(t.fx, det.x * 256) <= Filtered(cfg, t, det).fx <= Max(t.fx, det.x * 256)
    ensures Min(t.fy, det.y * 256) <= Filtered(cfg, t, det).fy <= Max(t.fy, det.y * 256)
    ensures Min(t.x, det.x) <= Filtered(cfg, t, det).x <= Max(t.x, det.x)
    ensures Min(t.y, det.y) <= Filtered(cfg, t, det).y <= Max(t.y, det.y)
  {
    if cfg.smoothing && cfg.euro {
      var dx, dy := det.x - t.x, det.y - t.y;
      var alpha := Alpha(cfg, Max(Abs(dx), Abs(dy)));
      BlendBetween(alpha, t.fx, det.x * 256);
      BlendBetween(alpha, t.fy, det.y * 256);
      BlendBetween(alpha, t.derivX, dx * 256);
      BlendBetween(alpha, t.derivY, dy * 256);
    }
    FilteredPlaced(cfg, t, det);
  }

  /** No product inside a filter step leaves a 32 bit integer. */
  lemma BlendFits(alpha: int, from: int, to: int)
    requires 1 <= alpha <= 255 && Abs(from) <= MAX_X * 256 && Abs(to) <= MAX_X * 256
    ensures -0x8000_0000 <= alpha * (to - from) < 0x8000_0000
  {
    var d := to - from;
    ProductBound(d, alpha, 2 * MAX_X * 256);
  }
}
