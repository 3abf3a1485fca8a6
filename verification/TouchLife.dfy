/** What a frame does to a slot, and when touches begin and end, in terms of the states before and after. */
module TouchLife {
  import opened Arithmetic
  import opened Firmware
  import opened Tracks
  import opened Assigner
  import opened SlotCycle
  import opened SlotReport

  // ----- following a detection

  /** One smoothed coordinate in Q8: it moves by alpha parts in 256 of the way to its target, rounded down. */
  predicate MovesBy(alpha: int, from: int, to: int, now: int) {
    256 * (now - from) <= alpha * (to - from) < 256 * (now - from) + 256
  }

  /** The position of a slot that followed detection p: right there without the filter, else part of the way,
      at the filter strength for the larger of the two displacements. */
  predicate FollowsTo(cfg: Config, a: Track, p: Pos, b: Track)
    requires cfg.Valid()
  {
    if cfg.smoothing && cfg.euro then
      var alpha := Alpha(cfg, Max(Max(p.x - a.x, a.x - p.x), Max(p.y - a.y, a.y - p.y)));
      && MovesBy(alpha, a.fx, p.x * 256, b.fx) && MovesBy(alpha, a.fy, p.y * 256, b.fy)
      && b.x == b.fx / 256 && b.y == b.fy / 256
    else
      b.x == p.x && b.y == p.y && b.fx == p.x * 256 && b.fy == p.y * 256
  }

  /** What a slot takes over from contact j: its signal, and its peak unless that has no identity. */
  predicate TakesOver(contacts: seq<Contact>, a: Track, j: nat, b: Track) {
    && b.signalSum == (if j < |contacts| then contacts[j].signalSum else a.signalSum)
    && b.peakId == (if j < |contacts| && contacts[j].peakId != 0 then contacts[j].peakId else a.peakId)
    && b.peakAge == (if j < |contacts| && contacts[j].peakId != 0 then contacts[j].peakAge else a.peakAge)
  }

  lemma StepMoves(alpha: int, from: int, to: int)
    ensures MovesBy(alpha, from, to, Blend(alpha, from, to))
  {
    var n := alpha * (to - from);
    assert n == 256 * (n / 256) + n % 256;
  }

  /** A slot that a detection feeds follows it: its speed is the displacement it was off by, its position
      moves there, and signal and peak are those of the contact. */
  lemma FedFollows(m: Moment, s: State, t: State, i: nat)
    requires s.Good() && FrameStep(m.f, s, m.c, m.mid, t) && FedIn(m, s, i) && s.tracks[i].active
    ensures var a, b, j := s.tracks[i], t.tracks[i], m.c.matches[i];
      && b.vx == m.f.det[j].x - a.x && b.vy == m.f.det[j].y - a.y
      && FollowsTo(m.f.cfg, a, m.f.det[j], b) && TakesOver(m.f.contacts, a, j, b)
  {
    var j, a := m.c.matches[i], s.tracks[i];
    assert !Jumped(m.f, s.tracks, m.c, i);
    assert m.mid[i] == SlotAfter(m.f, s.touchActive, FastPending(m.f, s), s.tracks, m.c, i);
    assert Kept(m.f.cfg, s.touchActive, a, m.f.det, m.f.contacts, j).active;
    ContinuedFollows(m.f.cfg, a, m.f.det[j], m.f.contacts, j);
  }

  lemma ContinuedFollows(cfg: Config, a: Track, p: Pos, contacts: seq<Contact>, j: nat)
    requires cfg.Valid()
    ensures var b := Continued(cfg, a, p, contacts, j);
      b.vx == p.x - a.x && b.vy == p.y - a.y && FollowsTo(cfg, a, p, b) && TakesOver(contacts, a, j, b)
  {
    FilteredFollows(cfg, a, p);
  }

  lemma FilteredFollows(cfg: Config, a: Track, p: Pos)
    requires cfg.Valid()
    ensures FollowsTo(cfg, a, p, Filtered(cfg, a, p))
  {
    var alpha := Alpha(cfg, Max(Abs(p.x - a.x), Abs(p.y - a.y)));
    StepMoves(alpha, a.fx, p.x * 256);
    StepMoves(alpha, a.fy, p.y * 256);
  }

  // ----- missing a detection

  /** Nothing continues slot i and nothing new is put there. */
  ghost predicate LeftAlone(m: Moment, i: nat) {
    && i < MAX_TOUCH && |m.c.matches| == |m.c.born| == MAX_TOUCH && m.f.finger != Absent
    && m.c.matches[i] < 0 && m.c.born[i] < 0
  }

  /** A slot without a detection is carried where it was exactly while it is reported and has not missed too
      many frames; otherwise it is released. */
  lemma CarriedExactlyWhile(m: Moment, s: State, t: State, i: nat)
    requires s.Good() && FrameStep(m.f, s, m.c, m.mid, t) && LeftAlone(m, i) && s.tracks[i].active
    ensures var a := s.tracks[i];
      t.tracks[i] ==
        if a.reported && a.missed < m.f.cfg.lostFrames then a.(missed := a.missed + 1, reported := t.tracks[i].reported)
        else EMPTY
    ensures t.tracks[i].active ==> t.tracks[i].reported
  {
    var a := s.tracks[i];
    assert SlotOk(a, s.touchActive);
    assert m.mid[i] == SlotAfter(m.f, s.touchActive, FastPending(m.f, s), s.tracks, m.c, i);
  }

  // ----- the touch as a whole

  /** Some slot is in use and debounced. */
  ghost predicate AnyDebounced(s: State) {
    exists i :: 0 <= i < |s.tracks| && s.tracks[i].active && s.tracks[i].debounce == 0
  }

  /** So it is after each of the n frames from state k0 on. */
  ghost predicate DebouncedThroughout(states: seq<State>, k0: nat, n: nat) {
    k0 + n < |states| && forall k | k0 < k <= k0 + n :: AnyDebounced(states[k])
  }

  lemma StableBeforeReport(m: Moment, s: State, t: State)
    requires FrameStep(m.f, s, m.c, m.mid, t)
    ensures AnyStable(m.mid) <==> AnyDebounced(t)
  {
    if i :| 0 <= i < |m.mid| && Stable(m.mid[i]) {
      assert t.tracks[i] == ReportedIf(m.mid[i], t.touchActive);
    }
    if i :| 0 <= i < |t.tracks| && t.tracks[i].active && t.tracks[i].debounce == 0 {
      assert t.tracks[i] == ReportedIf(m.mid[i], t.touchActive);
      assert Stable(m.mid[i]);
    }
  }

  /** A touch that was not established is so after exactly as many frames with a debounced slot as the
      setting asks for, at least one. */
  lemma {:induction false} EstablishedExactlyAfter(states: seq<State>, moments: seq<Moment>, k0: nat, n: nat,
                                                   start: nat)
    requires IsRun(states, moments) && k0 + n <= |moments| && DebouncedThroughout(states, k0, n)
    requires !states[k0].touchActive && states[k0].touchStart == 0
    requires forall k | 0 <= k < |moments| :: moments[k].f.cfg.startDebounce == start
    ensures states[k0 + n].touchActive <==> n > 0 && n >= start
    ensures !states[k0 + n].touchActive ==> states[k0 + n].touchStart == n
  {
    if n > 0 {
      var k := k0 + n - 1;
      EstablishedExactlyAfter(states, moments, k0, n - 1, start);
      RunStep(states, moments, k);
      StableBeforeReport(moments[k], states[k], states[k + 1]);
    }
  }

  /** It ends with the first frame without a debounced slot: nothing is reported, and counting starts over. */
  lemma EndsWithTheLast(m: Moment, s: State, t: State)
    requires s.Good() && FrameStep(m.f, s, m.c, m.mid, t) && !AnyDebounced(t)
    ensures !t.touchActive && t.touchStart == 0 && ReportedSlots(t.tracks, MAX_TOUCH) == 0
  {
    StableBeforeReport(m, s, t);
    StepKeepsGood(m.f, s, m.c, m.mid, t);
    NobodyReported(t, MAX_TOUCH);
  }

  lemma {:induction false} NobodyReported(s: State, k: nat)
    requires s.Good() && !s.touchActive && k <= MAX_TOUCH
    ensures ReportedSlots(s.tracks, k) == 0
  {
    if k > 0 {
      NobodyReported(s, k - 1);
      assert SlotOk(s.tracks[k - 1], s.touchActive);
    }
  }

  /** A frame that says the finger is gone releases everything at once. */
  lemma LiftReleasesAll(m: Moment, s: State, t: State)
    requires s.Good() && FrameStep(m.f, s, m.c, m.mid, t) && m.f.finger == Absent
    ensures (forall i | 0 <= i < MAX_TOUCH :: t.tracks[i] == EMPTY) && !t.touchActive && t.touchStart == 0
    ensures !t.fingerPresent && ReportedSlots(t.tracks, MAX_TOUCH) == 0
  {
    forall i | 0 <= i < MAX_TOUCH ensures t.tracks[i] == EMPTY {
      assert m.mid[i] == EMPTY;
    }
    EndsWithTheLast(m, s, t);
  }

  // ----- the finger bit

  /** The last frame among the first k that says anything about the finger is frame m. */
  ghost predicate LastWord(moments: seq<Moment>, k: nat, m: nat) {
    m < k <= |moments| && moments[m].f.finger != Unknown
    && forall j | m < j < k :: moments[j].f.finger == Unknown
  }

  /** What is remembered of the finger is what was last said about it. */
  lemma {:induction false} FingerAsLastSaid(states: seq<State>, moments: seq<Moment>, k: nat, m: nat)
    requires IsRun(states, moments) && LastWord(moments, k, m)
    ensures states[k].fingerPresent <==> moments[m].f.finger == Present
  {
    RunStep(states, moments, k - 1);
    if m < k - 1 {
      assert moments[k - 1].f.finger == Unknown;
      FingerAsLastSaid(states, moments, k - 1, m);
    }
  }
}
