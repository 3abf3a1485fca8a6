/** The life of a tracking slot: what one frame does to it, and what holds over many frames. */
module SlotCycle {
  import opened Machine
  import opened Firmware
  import opened Tracks
  import opened Assigner
  import opened MatchCosts

  // ----- what every slot keeps

  /** A free slot is empty. A reported one has no debounce left and the touch is established;
      only reported slots are carried over missed frames. */
  predicate SlotOk(t: Track, touchActive: bool) {
    && (!t.active ==> t == EMPTY)
    && (t.active ==> t.age >= 1 && Placed(t))
    && (t.reported ==> t.active && t.debounce == 0 && touchActive)
    && (t.missed > 0 ==> t.reported)
  }

  ghost predicate Steady(tracks: seq<Track>, touchActive: bool) {
    |tracks| == MAX_TOUCH && forall i | 0 <= i < MAX_TOUCH :: SlotOk(tracks[i], touchActive)
  }

  /** Frames counted towards establishing a touch never exceed the largest debounce. */
  predicate StartOk(touchActive: bool, touchStart: nat) {
    touchStart <= 16 && (!touchActive ==> touchStart < 16)
  }

  // ----- matched slots

  predicate Jumps(cfg: Config, t: Track, p: Pos) {
    cfg.jumpDist2 > 0 && t.age >= 2 && Dist2(p.x, p.y, t.x, t.y) > cfg.jumpDist2
  }

  function Continued(cfg: Config, t: Track, p: Pos, contacts: seq<Contact>, j: nat): Track
    requires cfg.Valid()
  {
    var m := Filtered(cfg, t, p).(
      missed := 0,
      age := if t.age < 255 then t.age + 1 else t.age,
      debounce := if t.debounce > 0 then t.debounce - 1 else 0);
    if j >= |contacts| then m
    else if contacts[j].peakId == 0 then m.(signalSum := contacts[j].signalSum)
    else m.(signalSum := contacts[j].signalSum, peakId := contacts[j].peakId, peakAge := contacts[j].peakAge)
  }

  /** Slot t after the frame's matches; j is its detection, or -1. */
  function AfterMatch(cfg: Config, t: Track, det: seq<Pos>, contacts: seq<Contact>, j: int): Track
    requires cfg.Valid() && j < |det|
  {
    if j < 0 then t
    else if Jumps(cfg, t, det[j]) then EMPTY
    else Continued(cfg, t, det[j], contacts, j)
  }

  // ----- unmatched slots

  function Aged(cfg: Config, touchActive: bool, t: Track): Track
    requires cfg.Valid()
  {
    if !t.reported || (cfg.activeGuard && !touchActive) then EMPTY
    else if t.missed as int + 1 > cfg.lostFrames then EMPTY
    else t.(missed := t.missed + 1)
  }

  /** Slot t before new slots are given out. */
  function Kept(cfg: Config, touchActive: bool, t: Track, det: seq<Pos>, contacts: seq<Contact>, j: int): Track
    requires cfg.Valid() && j < |det|
  {
    if !t.active then t
    else if j < 0 then Aged(cfg, touchActive, t)
    else AfterMatch(cfg, t, det, contacts, j)
  }

  // ----- new slots

  function NewDebounce(cfg: Config, contacts: seq<Contact>, j: nat): (r: u8)
    requires cfg.Valid()
  {
    cfg.debounceBase
    + (if j < |contacts| && contacts[j].signalSum < cfg.strongSignal then cfg.weakExtra else 0)
    + (if j < |contacts| && contacts[j].isEdge then cfg.edgeExtra else 0)
  }

  /** A lone first contact at the edge, right after the firmware saw the finger land. */
  predicate FastStart(fast: bool, tracked: nat, det: seq<Pos>, contacts: seq<Contact>, j: nat) {
    fast && tracked == 0 && |det| == 1 && j == 0 && j < |contacts| && (contacts[j].isEdge || contacts[j].fastStart)
  }

  function Created(cfg: Config, touchActive: bool, fast: bool, tracked: nat, det: seq<Pos>, contacts: seq<Contact>,
                   j: nat): Track
    requires cfg.Valid() && j < |det|
  {
    var debounce := if FastStart(fast, tracked, det, contacts, j) then 0 else NewDebounce(cfg, contacts, j);
    var t := EMPTY.(active := true, age := 1, debounce := debounce, x := det[j].x, y := det[j].y,
                    fx := det[j].x * 256, fy := det[j].y * 256, reported := debounce == 0 && touchActive);
    if j < |contacts| then
      t.(peakId := contacts[j].peakId, peakAge := contacts[j].peakAge, signalSum := contacts[j].signalSum)
    else t
  }

  // ----- a whole frame

  datatype Frame = Frame(cfg: Config, finger: Finger, det: seq<Pos>, contacts: seq<Contact>)
  {
    predicate Valid() {
      cfg.Valid() && |det| <= MAX_TOUCH && forall j | 0 <= j < |det| :: OnScreen(det[j])
    }
  }

  /** Which detection each slot continued with (-1 for none), which detection each new slot was
      made for (-1 for none), and which detections were held back. */
  datatype Choice = Choice(active: seq<nat>, matches: seq<int>, born: seq<int>, deferred: set<nat>)

  predicate ChoiceFits(c: Choice, d: nat) {
    && |c.matches| == |c.born| == MAX_TOUCH
    && (forall i | 0 <= i < MAX_TOUCH :: -1 <= c.matches[i] < d && -1 <= c.born[i] < d)
  }

  /** Slot i was released by jump detection. */
  predicate Jumped(f: Frame, s: seq<Track>, c: Choice, i: nat)
    requires ChoiceFits(c, |f.det|) && |s| == MAX_TOUCH && i < MAX_TOUCH
  {
    s[i].active && c.matches[i] >= 0 && Jumps(f.cfg, s[i], f.det[c.matches[i]])
  }

  /** Detection j continues slot i. */
  predicate Feeds(f: Frame, s: seq<Track>, c: Choice, i: nat, j: int)
    requires ChoiceFits(c, |f.det|) && |s| == MAX_TOUCH && i < MAX_TOUCH
  {
    c.matches[i] == j && !Jumped(f, s, c, i)
  }

  /** What the tracker makes of slot i. */
  function SlotAfter(f: Frame, touchActive: bool, fast: bool, s: seq<Track>, c: Choice, i: nat): Track
    requires f.Valid() && ChoiceFits(c, |f.det|) && |s| == MAX_TOUCH && i < MAX_TOUCH
  {
    if c.born[i] >= 0 then Created(f.cfg, touchActive, fast, |c.active|, f.det, f.contacts, c.born[i])
    else Kept(f.cfg, touchActive, s[i], f.det, f.contacts, c.matches[i])
  }

  /** No detection feeds two slots; new slots are made only of unused regular detections, and only
      in slots that are free and were not released by a jump in this frame. */
  ghost predicate FairlyFed(f: Frame, touchActive: bool, s: seq<Track>, c: Choice)
    requires f.Valid() && ChoiceFits(c, |f.det|) && |s| == MAX_TOUCH
  {
    && (forall i, k | 0 <= i < k < MAX_TOUCH && c.matches[i] >= 0 :: c.matches[i] != c.matches[k])
    && (forall i, k | 0 <= i < k < MAX_TOUCH && c.born[i] >= 0 :: c.born[i] != c.born[k])
    && (forall i, k | 0 <= i < MAX_TOUCH && 0 <= k < MAX_TOUCH && c.born[i] >= 0 :: !Feeds(f, s, c, k, c.born[i]))
    && (forall i | 0 <= i < MAX_TOUCH && c.born[i] >= 0 ::
          && Regular(f.contacts, c.born[i]) && c.born[i] !in c.deferred
          && !Kept(f.cfg, touchActive, s[i], f.det, f.contacts, c.matches[i]).active && !Jumped(f, s, c, i))
  }

  /** Slot i cannot take a new contact in this frame any more. */
  predicate Occupied(f: Frame, touchActive: bool, s: seq<Track>, c: Choice, i: nat)
    requires f.Valid() && ChoiceFits(c, |f.det|) && |s| == MAX_TOUCH && i < MAX_TOUCH
  {
    Jumped(f, s, c, i) || c.born[i] >= 0 || Kept(f.cfg, touchActive, s[i], f.det, f.contacts, c.matches[i]).active
  }

  /** Detection j feeds some slot, is held back, or may only continue a slot. */
  ghost predicate Settled(f: Frame, s: seq<Track>, c: Choice, j: nat)
    requires ChoiceFits(c, |f.det|) && |s| == MAX_TOUCH
  {
    || !Regular(f.contacts, j) || j in c.deferred
    || (exists i :: 0 <= i < MAX_TOUCH && (c.born[i] == j || Feeds(f, s, c, i, j)))
  }

  /** A detection is turned away only when no slot is left. */
  ghost predicate NobodyTurnedAway(f: Frame, touchActive: bool, s: seq<Track>, c: Choice)
    requires f.Valid() && ChoiceFits(c, |f.det|) && |s| == MAX_TOUCH
  {
    forall j | 0 <= j < |f.det| && !Settled(f, s, c, j) ::
      forall i | 0 <= i < MAX_TOUCH :: Occupied(f, touchActive, s, c, i)
  }

  /** One call of the tracker. */
  ghost predicate Tracked(f: Frame, touchActive: bool, fast: bool, s: seq<Track>, c: Choice, t: seq<Track>)
    requires f.Valid()
  {
    && |s| == |t| == MAX_TOUCH && ChoiceFits(c, |f.det|)
    && (forall i | 0 <= i < MAX_TOUCH :: t[i] == SlotAfter(f, touchActive, fast, s, c, i))
    && FairlyFed(f, touchActive, s, c)
    && NobodyTurnedAway(f, touchActive, s, c)
  }

  lemma CreatedOk(cfg: Config, touchActive: bool, fast: bool, tracked: nat, det: seq<Pos>, contacts: seq<Contact>,
                  j: nat)
    requires cfg.Valid() && j < |det| && OnScreen(det[j])
    ensures SlotOk(Created(cfg, touchActive, fast, tracked, det, contacts, j), touchActive)
    ensures Created(cfg, touchActive, fast, tracked, det, contacts, j).missed == 0
  {
  }

  lemma KeptOk(cfg: Config, touchActive: bool, t: Track, det: seq<Pos>, contacts: seq<Contact>, j: int)
    requires cfg.Valid() && -1 <= j < |det| && (j >= 0 ==> OnScreen(det[j])) && SlotOk(t, touchActive)
    ensures SlotOk(Kept(cfg, touchActive, t, det, contacts, j), touchActive)
    ensures Kept(cfg, touchActive, t, det, contacts, j).missed <= cfg.lostFrames
  {
    if t.active && j >= 0 {
      FilteredLandsBetween(cfg, t, det[j]);
    }
  }

  /** Every slot keeps its invariant, and missed frames stay within the limit. */
  lemma TrackedSteady(f: Frame, touchActive: bool, fast: bool, s: seq<Track>, c: Choice, t: seq<Track>)
    requires f.Valid() && Steady(s, touchActive) && Tracked(f, touchActive, fast, s, c, t)
    ensures Steady(t, touchActive) && forall i | 0 <= i < MAX_TOUCH :: t[i].missed <= f.cfg.lostFrames
  {
    forall i | 0 <= i < MAX_TOUCH ensures SlotOk(t[i], touchActive) && t[i].missed <= f.cfg.lostFrames {
      assert SlotOk(s[i], touchActive);
      assert t[i] == SlotAfter(f, touchActive, fast, s, c, i);
      KeptOk(f.cfg, touchActive, s[i], f.det, f.contacts, c.matches[i]);
      if c.born[i] >= 0 {
        CreatedOk(f.cfg, touchActive, fast, |c.active|, f.det, f.contacts, c.born[i]);
      }
    }
  }

  // ----- reporting

  predicate Stable(t: Track) { t.active && t.debounce == 0 }

  ghost predicate AnyStable(tracks: seq<Track>) {
    exists i :: 0 <= i < |tracks| && Stable(tracks[i])
  }

  ghost function Established(touchActive: bool, touchStart: nat, cfg: Config, tracks: seq<Track>): bool {
    AnyStable(tracks) && (touchActive || touchStart + 1 >= cfg.startDebounce)
  }

  ghost function StartAfter(touchActive: bool, touchStart: nat, tracks: seq<Track>): nat {
    if !AnyStable(tracks) then 0 else if touchActive then touchStart else touchStart + 1
  }

  function ReportedIf(t: Track, touchActive: bool): Track {
    if Stable(t) && touchActive then t.(reported := true) else t
  }

  function ReportedSlots(tracks: seq<Track>, k: nat): (r: nat)
    requires k <= |tracks|
    ensures r <= k
  {
    if k == 0 then 0 else ReportedSlots(tracks, k - 1) + if tracks[k - 1].active && tracks[k - 1].reported then 1 else 0
  }

  /** Settling what is reported keeps every slot's invariant: a touch stops being established only
      when nothing is stable, and then nothing was reported. */
  lemma ReportingSteady(cfg: Config, touchActive: bool, touchStart: nat, s: seq<Track>, t: seq<Track>)
    requires cfg.Valid() && Steady(s, touchActive) && StartOk(touchActive, touchStart) && |t| == |s|
    requires forall i | 0 <= i < |s| :: t[i] == ReportedIf(s[i], Established(touchActive, touchStart, cfg, s))
    ensures Steady(t, Established(touchActive, touchStart, cfg, s))
    ensures StartOk(Established(touchActive, touchStart, cfg, s), StartAfter(touchActive, touchStart, s))
  {
    forall i | 0 <= i < MAX_TOUCH ensures SlotOk(t[i], Established(touchActive, touchStart, cfg, s)) {
      assert SlotOk(s[i], touchActive);
      if s[i].reported {
        assert Stable(s[i]);
      }
    }
  }

  // ----- what the invariant gives

  /** The guard against stray tracks never drops a reported one. */
  lemma GuardSparesReported(cfg: Config, touchActive: bool, t: Track)
    requires cfg.Valid() && SlotOk(t, touchActive) && t.reported
    ensures Aged(cfg, touchActive, t)
      == if t.missed as int + 1 > cfg.lostFrames then EMPTY else t.(missed := t.missed + 1)
  {
  }

  // ----- runs

  datatype State = State(tracks: seq<Track>, touchActive: bool, touchStart: nat, fingerPresent: bool)
  {
    ghost predicate Good() {
      Steady(tracks, touchActive) && StartOk(touchActive, touchStart)
    }
  }

  predicate FingerRises(f: Frame, s: State) { f.finger == Present && !s.fingerPresent }

  ghost predicate AnyActive(tracks: seq<Track>) {
    exists i :: 0 <= i < |tracks| && tracks[i].active
  }

  /** The first lone edge contact right after the firmware saw a finger land is trusted at once. */
  ghost function FastPending(f: Frame, s: State): bool {
    && f.cfg.edgeFastStart && FingerRises(f, s) && !AnyActive(s.tracks)
    && |f.det| == 1 && |f.contacts| == 1 && (f.contacts[0].isEdge || f.contacts[0].fastStart)
    && !f.contacts[0].continuationOnly
  }

  function FingerAfter(f: Frame, present: bool): bool {
    match f.finger
    case Present => true
    case Absent => false
    case Unknown => present
  }

  /** One processed frame; `mid` is the slots before reporting is settled. */
  ghost predicate FrameStep(f: Frame, s: State, c: Choice, mid: seq<Track>, t: State) {
    && f.Valid() && |mid| == |t.tracks| == MAX_TOUCH
    && (if f.finger == Absent then mid == seq(MAX_TOUCH, _ => EMPTY)
        else Tracked(f, s.touchActive, FastPending(f, s), s.tracks, c, mid))
    && t.touchActive == Established(s.touchActive, s.touchStart, f.cfg, mid)
    && t.touchStart == StartAfter(s.touchActive, s.touchStart, mid)
    && (forall i | 0 <= i < MAX_TOUCH :: t.tracks[i] == ReportedIf(mid[i], t.touchActive))
    && t.fingerPresent == FingerAfter(f, s.fingerPresent)
  }

  /** Every frame keeps the invariant, and leaves no slot missing for longer than allowed. */
  lemma StepKeepsGood(f: Frame, s: State, c: Choice, mid: seq<Track>, t: State)
    requires s.Good() && FrameStep(f, s, c, mid, t)
    ensures t.Good() && forall i | 0 <= i < MAX_TOUCH :: t.tracks[i].missed <= f.cfg.lostFrames
    ensures f.finger == Absent ==> !t.touchActive && forall i | 0 <= i < MAX_TOUCH :: t.tracks[i] == EMPTY
  {
    if f.finger != Absent {
      TrackedSteady(f, s.touchActive, FastPending(f, s), s.tracks, c, mid);
    }
    ReportingSteady(f.cfg, s.touchActive, s.touchStart, mid, t.tracks);
  }

  datatype Moment = Moment(f: Frame, c: Choice, mid: seq<Track>)

  ghost predicate IsRun(states: seq<State>, moments: seq<Moment>) {
    && |states| == |moments| + 1 && states[0].Good()
    && forall k | 0 <= k < |moments| :: FrameStep(moments[k].f, states[k], moments[k].c, moments[k].mid, states[k + 1])
  }

  /** In every reachable state: reported implies active, debounced and an established touch; missed
      frames only on reported slots; every coordinate on screen. */
  lemma {:induction false} EveryStateGood(states: seq<State>, moments: seq<Moment>, k: nat)
    requires IsRun(states, moments) && k < |states|
    ensures states[k].Good()
    ensures forall i | 0 <= i < MAX_TOUCH :: OnScreen(Pos(states[k].tracks[i].x, states[k].tracks[i].y))
  {
    if k > 0 {
      EveryStateGood(states, moments, k - 1);
      assert FrameStep(moments[k - 1].f, states[k - 1], moments[k - 1].c, moments[k - 1].mid, states[k - 1 + 1]);
      StepKeepsGood(moments[k - 1].f, states[k - 1], moments[k - 1].c, moments[k - 1].mid, states[k]);
    }
    forall i | 0 <= i < MAX_TOUCH ensures OnScreen(Pos(states[k].tracks[i].x, states[k].tracks[i].y)) {
      assert SlotOk(states[k].tracks[i], states[k].touchActive);
    }
  }

  /** In frames k0 .. k0 + n - 1 no detection was matched to slot i. */
  ghost predicate Unfed(moments: seq<Moment>, i: nat, k0: nat, n: nat, lost: nat) {
    && k0 + n <= |moments|
    && forall k | k0 <= k < k0 + n ::
         && moments[k].f.finger != Absent && moments[k].f.cfg.lostFrames == lost
         && |moments[k].c.matches| == MAX_TOUCH && i < MAX_TOUCH && moments[k].c.matches[i] == -1
  }

  /** One frame of being carried over. */
  lemma UnfedStep(f: Frame, s: State, c: Choice, mid: seq<Track>, t: State, i: nat)
    requires s.Good() && FrameStep(f, s, c, mid, t) && f.finger != Absent && i < MAX_TOUCH
    requires s.tracks[i].reported && c.matches[i] == -1
    ensures s.tracks[i].missed < f.cfg.lostFrames ==> t.tracks[i] == s.tracks[i].(missed := s.tracks[i].missed + 1)
    ensures s.tracks[i].missed >= f.cfg.lostFrames ==> c.born[i] >= 0 || t.tracks[i] == EMPTY
  {
    var before := s.tracks[i];
    assert SlotOk(before, s.touchActive);
    GuardSparesReported(f.cfg, s.touchActive, before);
    assert mid[i] == SlotAfter(f, s.touchActive, FastPending(f, s), s.tracks, c, i);
    assert Kept(f.cfg, s.touchActive, before, f.det, f.contacts, c.matches[i]) == Aged(f.cfg, s.touchActive, before);
  }

  /** A reported slot without a detection is carried over, unchanged but for the count, for exactly
      `lost` frames; after one more it is empty or belongs to somebody new. */
  lemma {:induction false} LostExactlyAfter(states: seq<State>, moments: seq<Moment>, i: nat, k0: nat, n: nat,
      lost: nat)
    requires IsRun(states, moments) && i < MAX_TOUCH && Unfed(moments, i, k0, n, lost) && n <= lost + 1
    requires |states[k0].tracks| == MAX_TOUCH && states[k0].tracks[i].reported && states[k0].tracks[i].missed == 0
    ensures |states[k0 + n].tracks| == MAX_TOUCH && (n > 0 ==> lost <= MAX_LOST)
    ensures n <= lost ==> states[k0 + n].tracks[i] == states[k0].tracks[i].(missed := n)
    ensures n == lost + 1 ==>
      |moments[k0 + lost].c.born| == MAX_TOUCH
      && (moments[k0 + lost].c.born[i] >= 0 || states[k0 + n].tracks[i] == EMPTY)
  {
    EveryStateGood(states, moments, k0);
    if n > 0 {
      var k := k0 + n - 1;
      LostExactlyAfter(states, moments, i, k0, n - 1, lost);
      EveryStateGood(states, moments, k);
      var m := moments[k];
      assert FrameStep(m.f, states[k], m.c, m.mid, states[k + 1]);
      UnfedStep(m.f, states[k], m.c, m.mid, states[k + 1], i);
    }
  }
}
