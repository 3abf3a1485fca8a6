/** From a first contact to a reported touch: how long debouncing takes, over runs of frames, and how
    far a touch may move in one of them. */
module SlotReport {
  import opened Arithmetic
  import opened Firmware
  import opened Tracks
  import opened Assigner
  import opened MatchCosts
  import opened SlotCycle

  /** A detection continues the slot, no further away than jump detection allows. */
  ghost predicate FedIn(m: Moment, s: State, i: nat) {
    && i < MAX_TOUCH && |s.tracks| == |m.c.matches| == MAX_TOUCH
    && m.f.finger != Absent && 0 <= m.c.matches[i] < |m.f.det|
    && var t, p := s.tracks[i], m.f.det[m.c.matches[i]];
       m.f.cfg.jumpDist2 == 0 || t.age <= 1
       || (p.x - t.x) * (p.x - t.x) + (p.y - t.y) * (p.y - t.y) <= m.f.cfg.jumpDist2
  }

  /** So it does in the n frames from state k0 on. */
  ghost predicate Fed(states: seq<State>, moments: seq<Moment>, i: nat, k0: nat, n: nat) {
    |states| == |moments| + 1 && k0 + n <= |moments| && forall k | k0 <= k < k0 + n :: FedIn(moments[k], states[k], i)
  }

  /** One such frame. */
  lemma FedStep(m: Moment, s: State, t: State, i: nat)
    requires s.Good() && FrameStep(m.f, s, m.c, m.mid, t) && FedIn(m, s, i) && s.tracks[i].active
    ensures m.mid[i].active && t.tracks[i].active && t.tracks[i].debounce == m.mid[i].debounce
    ensures m.mid[i].debounce == if s.tracks[i].debounce == 0 then 0 else s.tracks[i].debounce - 1
    ensures m.mid[i].missed == 0 && m.mid[i].age == Min(s.tracks[i].age + 1, 255)
    ensures t.tracks[i].reported == (s.tracks[i].reported || (t.tracks[i].debounce == 0 && t.touchActive))
  {
    var j := m.c.matches[i];
    assert !Jumped(m.f, s.tracks, m.c, i);
    assert Kept(m.f.cfg, s.touchActive, s.tracks[i], m.f.det, m.f.contacts, j).active;
    assert m.mid[i] == SlotAfter(m.f, s.touchActive, FastPending(m.f, s), s.tracks, m.c, i);
  }

  /** The touch counts as established once frames with a debounced slot add up. */
  lemma EstablishStep(m: Moment, s: State, t: State, i: nat, start: nat)
    requires FrameStep(m.f, s, m.c, m.mid, t) && i < MAX_TOUCH && m.mid[i].active && m.mid[i].debounce == 0
    requires m.f.cfg.startDebounce <= start
    ensures t.touchActive || (t.touchStart == s.touchStart + 1 && t.touchStart < start)
    ensures s.touchActive ==> t.touchActive
    ensures s.touchStart + 1 >= start ==> t.touchActive
  {
    assert Stable(m.mid[i]);
  }

  /** What such a frame means for the slot, in terms of the states around it. */
  ghost predicate Advanced(s: State, t: State, i: nat, start: nat) {
    && i < MAX_TOUCH && |s.tracks| == |t.tracks| == MAX_TOUCH
    && var a, b := s.tracks[i], t.tracks[i];
       a.active ==>
         && b.active && b.debounce == (if a.debounce == 0 then 0 else a.debounce - 1)
         && b.reported == (a.reported || (b.debounce == 0 && t.touchActive)) && (a.reported ==> a.debounce == 0)
         && (b.debounce == 0 ==>
               && (s.touchActive || s.touchStart + 1 >= start ==> t.touchActive)
               && (!t.touchActive ==> t.touchStart == s.touchStart + 1 < start))
  }

  ghost predicate AdvancedUpTo(states: seq<State>, i: nat, k0: nat, n: nat, start: nat) {
    k0 + n < |states| && forall k | k0 <= k < k0 + n :: Advanced(states[k], states[k + 1], i, start)
  }

  lemma FedFramesAdvance(states: seq<State>, moments: seq<Moment>, i: nat, k0: nat, n: nat, start: nat)
    requires IsRun(states, moments) && Fed(states, moments, i, k0, n) && StartsWithin(moments, start)
    ensures AdvancedUpTo(states, i, k0, n, start) && |states[k0].tracks| == |states[k0 + n].tracks| == MAX_TOUCH
  {
    forall k | k0 <= k < k0 + n ensures Advanced(states[k], states[k + 1], i, start) {
      RunStep(states, moments, k);
      OneFrameAdvances(moments[k], states[k], states[k + 1], i, start);
    }
    EveryStateGood(states, moments, k0);
    EveryStateGood(states, moments, k0 + n);
  }

  lemma OneFrameAdvances(m: Moment, s: State, t: State, i: nat, start: nat)
    requires s.Good() && FrameStep(m.f, s, m.c, m.mid, t) && FedIn(m, s, i) && m.f.cfg.startDebounce <= start
    ensures Advanced(s, t, i, start)
  {
    if s.tracks[i].active {
      assert SlotOk(s.tracks[i], s.touchActive);
      FedStep(m, s, t, i);
      if m.mid[i].debounce == 0 {
        EstablishStep(m, s, t, i, start);
      }
    }
  }

  lemma RunStep(states: seq<State>, moments: seq<Moment>, k: nat)
    requires IsRun(states, moments) && k < |moments|
    ensures states[k].Good() && FrameStep(moments[k].f, states[k], moments[k].c, moments[k].mid, states[k + 1])
  {
    EveryStateGood(states, moments, k);
    assert FrameStep(moments[k].f, states[k], moments[k].c, moments[k].mid, states[k + 1]);
  }

  /** No frame asks for more than `start` frames of an established touch. */
  ghost predicate StartsWithin(moments: seq<Moment>, start: nat) {
    forall k | 0 <= k < |moments| :: moments[k].f.cfg.startDebounce <= start
  }

  /** Frames a slot with debounce d needs at most, the first of them included. */
  function Wait(d: nat, start: nat): nat { Max(d, 1) + Max(start, 1) - 1 }

  lemma {:induction false} Debouncing(states: seq<State>, i: nat, k0: nat, n: nat, start: nat)
    requires AdvancedUpTo(states, i, k0, n, start) && |states[k0].tracks| == MAX_TOUCH && i < MAX_TOUCH
    requires states[k0].tracks[i].active
    ensures |states[k0 + n].tracks| == MAX_TOUCH && states[k0 + n].tracks[i].active
    ensures states[k0 + n].tracks[i].debounce == Max(states[k0].tracks[i].debounce - n, 0)
    decreases n
  {
    if n > 0 {
      Debouncing(states, i, k0, n - 1, start);
      assert Advanced(states[k0 + n - 1], states[k0 + n - 1 + 1], i, start);
    }
  }

  /** A slot that detections keep feeding stays, and is debounced after exactly as many frames as it had
      left. */
  lemma DebouncedExactlyAfter(states: seq<State>, moments: seq<Moment>, i: nat, k0: nat, n: nat)
    requires IsRun(states, moments) && Fed(states, moments, i, k0, n) && i < MAX_TOUCH
    requires |states[k0].tracks| == MAX_TOUCH && states[k0].tracks[i].active
    ensures |states[k0 + n].tracks| == MAX_TOUCH && states[k0 + n].tracks[i].active
    ensures states[k0 + n].tracks[i].debounce == Max(states[k0].tracks[i].debounce - n, 0)
    ensures states[k0 + n].tracks[i].debounce == 0 <==> n >= states[k0].tracks[i].debounce
  {
    forall k | 0 <= k < |moments| ensures moments[k].f.cfg.startDebounce <= 16 {
      RunStep(states, moments, k);
    }
    FedFramesAdvance(states, moments, i, k0, n, 16);
    Debouncing(states, i, k0, n, 16);
  }

  /** While it is debounced, either the touch is established or the count towards that goes on. */
  lemma {:induction false} Establishing(states: seq<State>, i: nat, k0: nat, n: nat, start: nat)
    requires AdvancedUpTo(states, i, k0, n, start) && |states[k0].tracks| == MAX_TOUCH && i < MAX_TOUCH
    requires states[k0].tracks[i].active && n >= Max(states[k0].tracks[i].debounce, 1)
    ensures |states[k0 + n].tracks| == MAX_TOUCH
    ensures if states[k0 + n].touchActive then states[k0 + n].tracks[i].reported
            else n - Max(states[k0].tracks[i].debounce, 1) + 1 <= states[k0 + n].touchStart < start
    decreases n
  {
    Debouncing(states, i, k0, n - 1, start);
    assert Advanced(states[k0 + n - 1], states[k0 + n - 1 + 1], i, start);
    if n > Max(states[k0].tracks[i].debounce, 1) {
      Establishing(states, i, k0, n - 1, start);
    }
  }

  lemma {:induction false} CountedWhenReported(tracks: seq<Track>, i: nat, k: nat)
    requires i < k <= |tracks| && tracks[i].active && tracks[i].reported
    ensures ReportedSlots(tracks, k) >= 1
  {
    if i < k - 1 {
      CountedWhenReported(tracks, i, k - 1);
    }
  }

  /** A contact that keeps being detected is reported, at the latest after its debounce and the frames
      that establish a touch; and not before its debounce is over. */
  lemma ReportedInTime(states: seq<State>, moments: seq<Moment>, i: nat, k0: nat, n: nat, start: nat)
    requires IsRun(states, moments) && Fed(states, moments, i, k0, n) && i < MAX_TOUCH && StartsWithin(moments, start)
    requires |states[k0].tracks| == MAX_TOUCH && states[k0].tracks[i].active
    ensures |states[k0 + n].tracks| == MAX_TOUCH
    ensures n >= Wait(states[k0].tracks[i].debounce, start) ==>
      states[k0 + n].tracks[i].reported && ReportedSlots(states[k0 + n].tracks, MAX_TOUCH) >= 1
    ensures n < states[k0].tracks[i].debounce ==> !states[k0 + n].tracks[i].reported
  {
    FedFramesAdvance(states, moments, i, k0, n, start);
    Debouncing(states, i, k0, n, start);
    EveryStateGood(states, moments, k0 + n);
    assert SlotOk(states[k0 + n].tracks[i], states[k0 + n].touchActive);
    if n >= Wait(states[k0].tracks[i].debounce, start) {
      Establishing(states, i, k0, n, start);
      CountedWhenReported(states[k0 + n].tracks, i, MAX_TOUCH);
    }
  }

  /** Beside a touch that is established already, exactly when its debounce is over. */
  lemma ReportedExactlyWhenDebounced(states: seq<State>, moments: seq<Moment>, i: nat, k0: nat, n: nat)
    requires IsRun(states, moments) && Fed(states, moments, i, k0, n) && i < MAX_TOUCH && n > 0
    requires |states[k0].tracks| == MAX_TOUCH && states[k0].tracks[i].active && states[k0 + n].touchActive
    ensures |states[k0 + n].tracks| == MAX_TOUCH
    ensures states[k0 + n].tracks[i].reported <==> n >= states[k0].tracks[i].debounce
  {
    forall k | 0 <= k < |moments| ensures moments[k].f.cfg.startDebounce <= 16 {
      RunStep(states, moments, k);
    }
    FedFramesAdvance(states, moments, i, k0, n, 16);
    EveryStateGood(states, moments, k0 + n);
    ReportedWithTouch(states, i, k0, n, 16);
  }

  lemma ReportedWithTouch(states: seq<State>, i: nat, k0: nat, n: nat, start: nat)
    requires AdvancedUpTo(states, i, k0, n, start) && |states[k0].tracks| == MAX_TOUCH && i < MAX_TOUCH && n > 0
    requires states[k0].tracks[i].active && states[k0 + n].touchActive && states[k0 + n].Good()
    ensures states[k0 + n].tracks[i].reported <==> n >= states[k0].tracks[i].debounce
  {
    Debouncing(states, i, k0, n, start);
    Debouncing(states, i, k0, n - 1, start);
    assert Advanced(states[k0 + n - 1], states[k0 + n - 1 + 1], i, start);
    assert SlotOk(states[k0 + n].tracks[i], states[k0 + n].touchActive);
  }

  // ----- new slots

  /** A slot in its first frame, at rest at p. */
  predicate NewAt(t: Track, p: Pos) {
    && t.active && t.age == 1 && t.missed == 0 && t.vx == t.vy == 0
    && t.x == p.x && t.y == p.y && t.fx == 256 * p.x && t.fy == 256 * p.y
  }

  /** A new slot starts at its detection. A weak contact and one on the edge wait longer, and a lone edge
      contact right after the finger landed does not wait at all. */
  lemma BornAs(m: Moment, s: State, t: State, i: nat)
    requires s.Good() && FrameStep(m.f, s, m.c, m.mid, t) && m.f.finger != Absent && i < MAX_TOUCH
    requires |m.c.born| == MAX_TOUCH && m.c.born[i] >= 0 && |m.f.det| <= |m.f.contacts|
    ensures var j, cfg := m.c.born[i], m.f.cfg;
      j < |m.f.det| &&
      var fast := cfg.edgeFastStart && m.f.finger == Present && !s.fingerPresent
        && (forall k | 0 <= k < MAX_TOUCH :: !s.tracks[k].active) && |m.c.active| == 0
        && |m.f.det| == |m.f.contacts| == 1 && (m.f.contacts[0].isEdge || m.f.contacts[0].fastStart);
      && NewAt(m.mid[i], m.f.det[j])
      && m.mid[i].debounce == (if fast then 0 else
           cfg.debounceBase + (if m.f.contacts[j].signalSum < cfg.strongSignal then cfg.weakExtra else 0)
           + (if m.f.contacts[j].isEdge then cfg.edgeExtra else 0))
      && m.mid[i].peakId == m.f.contacts[j].peakId && m.mid[i].signalSum == m.f.contacts[j].signalSum
      && t.tracks[i] == m.mid[i].(reported := t.tracks[i].reported)
      && (t.tracks[i].reported <==> m.mid[i].debounce == 0 && t.touchActive)
  {
    assert m.mid[i] == SlotAfter(m.f, s.touchActive, FastPending(m.f, s), s.tracks, m.c, i);
    assert Regular(m.f.contacts, m.c.born[i]);
    if m.mid[i].debounce == 0 {
      assert Stable(m.mid[i]);
    }
  }

  /** So a strong contact away from the edge, once it has a slot, is reported within the basic debounce and
      the frames that establish a touch. */
  lemma StrongContactReported(states: seq<State>, moments: seq<Moment>, i: nat, k: nat, n: nat, base: nat, start: nat)
    requires IsRun(states, moments) && i < MAX_TOUCH && k < |moments| && Fed(states, moments, i, k + 1, n)
    requires StartsWithin(moments, start) && moments[k].f.cfg.debounceBase <= base && n >= Wait(base, start)
    requires |moments[k].c.born| == MAX_TOUCH && moments[k].c.born[i] >= 0 && moments[k].f.finger != Absent
    requires |moments[k].f.det| <= |moments[k].f.contacts|
    requires moments[k].c.born[i] < |moments[k].f.contacts|
    requires var contact := moments[k].f.contacts[moments[k].c.born[i]];
      contact.signalSum >= moments[k].f.cfg.strongSignal && !contact.isEdge
    ensures |states[k + 1 + n].tracks| == MAX_TOUCH && states[k + 1 + n].tracks[i].reported
    ensures ReportedSlots(states[k + 1 + n].tracks, MAX_TOUCH) >= 1
  {
    RunStep(states, moments, k);
    EveryStateGood(states, moments, k + 1);
    BornAs(moments[k], states[k], states[k + 1], i);
    ReportedInTime(states, moments, i, k + 1, n, start);
  }

  // ----- how far a touch moves

  predicate MovesAtMost(a: Track, b: Track, dist2: int) {
    (b.x - a.x) * (b.x - a.x) + (b.y - a.y) * (b.y - a.y) <= dist2
  }

  /** With jump detection on, a slot older than one frame that goes on as the same touch never moves
      further than the jump distance. */
  lemma MovesWithinJump(m: Moment, s: State, t: State, i: nat)
    requires s.Good() && FrameStep(m.f, s, m.c, m.mid, t) && m.f.finger != Absent && i < MAX_TOUCH
    requires |m.c.born| == MAX_TOUCH && m.c.born[i] < 0 && m.f.cfg.jumpDist2 > 0
    requires s.tracks[i].active && s.tracks[i].age >= 2 && t.tracks[i].active
    ensures MovesAtMost(s.tracks[i], t.tracks[i], m.f.cfg.jumpDist2)
  {
    var a, j := s.tracks[i], m.c.matches[i];
    assert m.mid[i] == SlotAfter(m.f, s.touchActive, FastPending(m.f, s), s.tracks, m.c, i);
    assert SlotOk(a, s.touchActive);
    if j >= 0 {
      WithinJump(m.f.cfg, a, m.f.det, m.f.contacts, j);
      SamePlace(a, m.mid[i], t.tracks[i], m.f.cfg.jumpDist2);
    } else {
      StandsStill(a, t.tracks[i], m.f.cfg.jumpDist2);
    }
  }

  lemma SamePlace(a: Track, b: Track, c: Track, dist2: int)
    requires MovesAtMost(a, b, dist2) && b.x == c.x && b.y == c.y
    ensures MovesAtMost(a, c, dist2)
  {
  }

  lemma StandsStill(a: Track, b: Track, dist2: int)
    requires a.x == b.x && a.y == b.y && dist2 >= 0
    ensures MovesAtMost(a, b, dist2)
  {
  }

  lemma WithinJump(cfg: Config, a: Track, det: seq<Pos>, contacts: seq<Contact>, j: nat)
    requires cfg.Valid() && j < |det| && OnScreen(det[j]) && Placed(a) && a.age >= 2 && cfg.jumpDist2 > 0
    ensures var b := AfterMatch(cfg, a, det, contacts, j); b.active ==> MovesAtMost(a, b, cfg.jumpDist2)
  {
    var b, p := AfterMatch(cfg, a, det, contacts, j), det[j];
    if b.active {
      FilteredLandsBetween(cfg, a, p);
      SmallerSquare(b.x - a.x, p.x - a.x);
      SmallerSquare(b.y - a.y, p.y - a.y);
    }
  }

  lemma SmallerSquare(x: int, y: int)
    requires 0 <= x <= y || y <= x <= 0
    ensures x * x <= y * y
  {
    if x >= 0 {
      assert x * x <= x * y <= y * y;
    } else {
      assert (-x) * (-x) <= (-x) * (-y) <= (-y) * (-y);
    }
  }
}
