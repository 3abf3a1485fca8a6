/** What the two dropping steps cost: events that nobody is in charge of any more, and runs from start-up
    that end at rest with an event no refresh has followed. */
module SidebandLoss {
  import opened Sideband
  import opened SidebandRest

  /** A connector event on port i at step e, and nobody refreshed between it and state k. */
  ghost predicate EventAt(steps: seq<Step>, i: nat, e: nat, k: nat) {
    e < k <= |steps| && steps[e] == ConnectorEvent(i) && forall m | e < m < k :: !Looks(steps[m])
  }

  ghost predicate SomeEvent(steps: seq<Step>, i: nat, k: nat) {
    exists e: nat :: EventAt(steps, i, e, k)
  }

  lemma EventStep(steps: seq<Step>, i: nat, k: nat)
    requires 0 < k <= |steps|
    ensures SomeEvent(steps, i, k) <==>
      steps[k - 1] == ConnectorEvent(i) || (SomeEvent(steps, i, k - 1) && !Looks(steps[k - 1]))
  {
    if steps[k - 1] == ConnectorEvent(i) {
      assert EventAt(steps, i, k - 1, k);
    } else if SomeEvent(steps, i, k - 1) && !Looks(steps[k - 1]) {
      var e: nat :| EventAt(steps, i, e, k - 1);
      assert EventAt(steps, i, e, k);
    } else if SomeEvent(steps, i, k) {
      var e: nat :| EventAt(steps, i, e, k);
      assert EventAt(steps, i, e, k - 1);
    }
  }

  /** What `owed` stands for: a connector event of the run that no refresh attempt followed. */
  lemma OwedMeansUnanswered(run: seq<State>, steps: seq<Step>, i: nat, k: nat)
    requires IsRun(run, steps) && k <= |steps|
    ensures i in run[k].owed <==> SomeEvent(steps, i, k)
  {
    forall m | 0 <= m < |steps| ensures Effect(run[m], steps[m], run[m + 1]) {
      assert Next(run[m], steps[m], run[m + 1]);
      StepEffect(run[m], steps[m], run[m + 1]);
    }
    OwedByEffects(run, steps, i, k);
  }

  lemma {:induction false} OwedByEffects(run: seq<State>, steps: seq<Step>, i: nat, k: nat)
    requires |run| == |steps| + 1 && k <= |steps| && run[0].owed == {}
    requires forall m | 0 <= m < |steps| :: Effect(run[m], steps[m], run[m + 1])
    ensures i in run[k].owed <==> SomeEvent(steps, i, k)
  {
    if k > 0 {
      OwedByEffects(run, steps, i, k - 1);
      assert Effect(run[k - 1], steps[k - 1], run[k - 1 + 1]);
      EventStep(steps, i, k);
    }
  }

  // ----- a give-up on an unanswered event never saw anything newer than the event

  lemma {:induction false} PortsSince(run: seq<State>, steps: seq<Step>, e: nat, k: nat)
    requires IsRun(run, steps) && e < k <= |steps| && steps[e].ConnectorEvent?
    requires forall m | e < m < k :: !Looks(steps[m])
    ensures run[k].ports == run[e].ports
    decreases k
  {
    assert Next(run[k - 1], steps[k - 1], run[k - 1 + 1]);
    StepEffect(run[k - 1], steps[k - 1], run[k]);
    if k - 1 > e {
      PortsSince(run, steps, e, k - 1);
    }
  }

  /** When the follow-up work gives up on an event no refresh has followed, it judges by the snapshot held
      when the event arrived. */
  lemma GivesUpOnOldSnapshot(run: seq<State>, steps: seq<Step>, i: nat, k: nat) returns (e: nat)
    requires IsRun(run, steps) && k < |steps| && steps[k] == WorkGone(i) && i in run[k].owed
    ensures EventAt(steps, i, e, k) && run[k].ports == run[e].ports
    ensures i < |run[e].ports| && Disconnected(run[e].ports[i])
  {
    OwedMeansUnanswered(run, steps, i, k);
    e :| EventAt(steps, i, e, k);
    PortsSince(run, steps, e, k);
    assert Next(run[k], steps[k], run[k + 1]);
  }

  // ----- nobody takes a lost event up again

  /** Owed, and nobody is in charge of it. */
  ghost predicate Lost(s: State, i: nat) { i in s.owed && !InCharge(s, i) }

  ghost predicate StaysLost(step: Step, t: State, i: nat) {
    Lost(t, i) || Looks(step) || step == ConnectorEvent(i)
  }

  lemma LostConnector(s: State, step: Step, t: State, i: nat)
    requires NextConnector(s, step, t) && Lost(s, i)
    ensures StaysLost(step, t, i)
  {
  }

  lemma LostUsb(s: State, step: Step, t: State, i: nat)
    requires NextUsb(s, step, t) && Lost(s, i)
    ensures StaysLost(step, t, i)
  {
  }

  lemma LostWork(s: State, step: Step, t: State, i: nat)
    requires NextWork(s, step, t) && Lost(s, i)
    ensures StaysLost(step, t, i)
  {
  }

  lemma LostRefresh(s: State, step: Step, t: State, i: nat)
    requires NextRefresh(s, step, t) && Lost(s, i)
    ensures StaysLost(step, t, i)
  {
  }

  lemma LostFinish(s: State, step: Step, t: State, i: nat)
    requires NextFinish(s, step, t) && Lost(s, i)
    ensures StaysLost(step, t, i)
  {
  }

  /** A lost event stays lost until another event on the port, or a refresh that somebody takes for his
      own reasons. */
  lemma LostStaysLost(s: State, step: Step, t: State, i: nat)
    requires Next(s, step, t) && Lost(s, i)
    ensures StaysLost(step, t, i)
  {
    if NextConnector(s, step, t) {
      LostConnector(s, step, t, i);
    } else if NextUsb(s, step, t) {
      LostUsb(s, step, t, i);
    } else if NextWork(s, step, t) {
      LostWork(s, step, t, i);
    } else if NextRefresh(s, step, t) {
      LostRefresh(s, step, t, i);
    } else {
      LostFinish(s, step, t, i);
    }
  }

  // ----- interleavings that lose an event

  /** Steps one after the other, from any state, in which either no follow-up is completed or none gives
      up. */
  ghost predicate Path(run: seq<State>, steps: seq<Step>, completes: bool) {
    && |run| == |steps| + 1
    && forall k | 0 <= k < |steps| :: Next(run[k], steps[k], run[k + 1]) && Allowed(steps[k], completes)
  }

  predicate Allowed(step: Step, completes: bool) { if completes then !step.WorkGone? else !step.ClearBit? }

  lemma PathsJoin(r1: seq<State>, p1: seq<Step>, r2: seq<State>, p2: seq<Step>, b: bool)
    requires Path(r1, p1, b) && Path(r2, p2, b) && r1[|p1|] == r2[0]
    ensures Path(r1 + r2[1..], p1 + p2, b) && (r1 + r2[1..])[|p1 + p2|] == r2[|p2|]
  {
    var r, p := r1 + r2[1..], p1 + p2;
    forall k | 0 <= k < |p| ensures Next(r[k], p[k], r[k + 1]) && Allowed(p[k], b) {
      if k < |p1| {
        assert Next(r1[k], p1[k], r1[k + 1]);
      } else {
        assert Next(r2[k - |p1|], p2[k - |p1|], r2[k - |p1| + 1]);
      }
    }
  }

  /** A path from s to t. */
  ghost predicate Leads(s: State, t: State, completes: bool) {
    exists run, steps :: PathFromTo(run, steps, s, t, completes)
  }

  ghost predicate PathFromTo(run: seq<State>, steps: seq<Step>, s: State, t: State, completes: bool) {
    Path(run, steps, completes) && run[0] == s && run[|steps|] == t
  }

  lemma Step1(s: State, step: Step, t: State, b: bool)
    requires Next(s, step, t) && Allowed(step, b)
    ensures Leads(s, t, b)
  {
    assert PathFromTo([s, t], [step], s, t, b);
  }

  lemma Then(s: State, t: State, u: State, b: bool)
    requires Leads(s, t, b) && Leads(t, u, b)
    ensures Leads(s, u, b)
  {
    var r1, p1 :| PathFromTo(r1, p1, s, t, b);
    var r2, p2 :| PathFromTo(r2, p2, t, u, b);
    PathsJoin(r1, p1, r2, p2, b);
    assert PathFromTo(r1 + r2[1..], p1 + p2, s, u, b);
  }

  /** While the core holds the lock, a connector event on port 0 skips its snapshot. */
  lemma EventBehindTheLock(s: State, b: bool) returns (t: State)
    requires s.n > 0 && s.lock == Free && PcOf(s, Notifier) == Idle
    ensures Leads(s, t, b) && t == Goto(s.(lock := Core, owed := s.owed + {0}), Notifier, Snapshotted(0))
  {
    var s1 := s.(lock := Core);
    var s2 := Goto(s1.(owed := s1.owed + {0}), Notifier, GotConnector(0));
    t := Goto(s2, Notifier, Snapshotted(0));
    assert NextConnector(s, CoreLock, s1) && NextConnector(s1, ConnectorEvent(0), s2);
    assert NextConnector(s2, SnapshotBusy, t);
    Step1(s, CoreLock, s1, b);
    Step1(s1, ConnectorEvent(0), s2, b);
    Step1(s2, SnapshotBusy, t, b);
    Then(s, s1, s2, b);
    Then(s, s2, t, b);
    assert t.pcs == s.pcs[Notifier := Snapshotted(0)];
  }

  /** Then its follow-up is armed and queued. */
  lemma EventIsArmed(s: State, b: bool) returns (t: State)
    requires PcOf(s, Notifier) == Snapshotted(0)
    ensures Leads(s, t, b)
    ensures t == Goto(s.(last := 0, pending := s.pending + {0}, queued := s.queued + {0}), Notifier, Idle)
  {
    var s1 := Goto(s.(last := 0), Notifier, Noted(0));
    var s2 := Goto(s1.(pending := s1.pending + {0}), Notifier, Armed(0));
    t := Goto(s2.(queued := s2.queued + {0}), Notifier, Idle);
    assert NextConnector(s, Note, s1) && NextConnector(s1, Arm, s2) && NextConnector(s2, Queue, t);
    Step1(s, Note, s1, b);
    Step1(s1, Arm, s2, b);
    Step1(s2, Queue, t, b);
    Then(s, s1, s2, b);
    Then(s, s2, t, b);
    assert t.pcs == s.pcs[Notifier := Idle];
  }

  lemma EventArrives(s: State, b: bool) returns (t: State)
    requires s.n > 0 && s.lock == Free && PcOf(s, Notifier) == Idle
    ensures Leads(s, t, b)
    ensures t == Goto(s.(lock := Core, owed := s.owed + {0}, last := 0,
                         pending := s.pending + {0}, queued := s.queued + {0}),
                      Notifier, Idle)
  {
    var s1 := EventBehindTheLock(s, b);
    t := EventIsArmed(s1, b);
    Then(s, s1, t, b);
    assert t.pcs == s.pcs[Notifier := Idle];
  }

  /** A USB event finds the lock taken, and puts off the follow-up. */
  lemma FollowUpPutOff(s: State) returns (t: State)
    requires s.lock == Core && PcOf(s, Notifier) == Idle && s.pending == s.queued == {0}
    ensures Leads(s, t, true) && t == Goto(s, Notifier, Rescheduling({}))
  {
    var s1 := Goto(s, Notifier, Deferring);
    var s2 := Goto(s1, Notifier, Rescheduling({0}));
    t := Goto(s2, Notifier, Rescheduling({}));
    assert s.queued + {0} == s.queued && {0} - {0} == {};
    assert NextUsb(s, UsbBusy, s1) && NextUsb(s1, ReadPending, s2) && NextUsb(s2, Reschedule(0), t);
    Step1(s, UsbBusy, s1, true);
    Step1(s1, ReadPending, s2, true);
    Step1(s2, Reschedule(0), t, true);
    Then(s, s1, s2, true);
    Then(s, s2, t, true);
    assert t.pcs == s.pcs[Notifier := Rescheduling({})];
  }

  /** It leaves its pass to the deferred worker, which starts once the core is done. */
  lemma PassDeferred(s: State) returns (t: State)
    requires s.lock == Core && PcOf(s, Notifier) == Rescheduling({}) && PcOf(s, SyncWork) == Idle && !s.syncQueued
    ensures Leads(s, t, true) && t == Goto(Goto(s.(lock := Free), Notifier, Idle), SyncWork, WantLock(true))
  {
    var s1 := Goto(s.(syncQueued := true), Notifier, Idle);
    var s2 := s1.(lock := Free);
    t := Goto(s2.(syncQueued := false), SyncWork, WantLock(true));
    assert NextUsb(s, DeferSync, s1) && NextConnector(s1, CoreUnlock, s2) && NextRefresh(s2, SyncStart, t);
    Step1(s, DeferSync, s1, true);
    Step1(s1, CoreUnlock, s2, true);
    Step1(s2, SyncStart, t, true);
    Then(s, s1, s2, true);
    Then(s, s2, t, true);
  }

  /** The deferred pass refreshes and learns nothing. */
  lemma DeferredRead(s: State) returns (t: State)
    requires s.lock == Free && PcOf(s, SyncWork) == WantLock(true) && |s.ports| == 1
    ensures Leads(s, t, true)
    ensures t == Goto(s.(owed := {}, ports := t.ports), SyncWork, Completing({})) && |t.ports| == 1
  {
    var s1 := Goto(s.(lock := By(SyncWork)), SyncWork, Refreshing(true));
    var reg := Reg({}, [0]);
    assert Valid(s1, reg.updates) == {};
    t := Goto(s1.(ports := Refreshed(s1, reg), lock := Free, owed := {}), SyncWork, Completing({}));
    assert NextRefresh(s, Lock(SyncWork), s1) && NextRefresh(s1, Read(SyncWork, reg), t);
    Step1(s, Lock(SyncWork), s1, true);
    Step1(s1, Read(SyncWork, reg), t, true);
    Then(s, s1, t, true);
    assert t.pcs == s.pcs[SyncWork := Completing({})];
  }

  /** The deferred pass takes the new event's follow-up for its own. */
  lemma StaleCompletion(s: State) returns (t: State)
    requires s.lock == Core && s.pending == {0} && PcOf(s, SyncWork) == Completing({})
    ensures Leads(s, t, true) && t == Goto(s.(pending := {}), SyncWork, Handling({}, 0, {}))
  {
    var s1 := Goto(s, SyncWork, Clearing({}, {0}));
    var s2 := Goto(s1.(pending := {}), SyncWork, Clearing({}, {}));
    t := Goto(s2, SyncWork, Handling({}, 0, {}));
    assert Completed(s, {}) == {0} && s1.pending - {0} == {} && {0} - {0} == {};
    assert NextFinish(s, Infer(SyncWork), s1) && NextFinish(s1, ClearBit(SyncWork, 0), s2);
    assert NextFinish(s2, Cleared(SyncWork), t);
    Step1(s, Infer(SyncWork), s1, true);
    Step1(s1, ClearBit(SyncWork, 0), s2, true);
    Step1(s2, Cleared(SyncWork), t, true);
    Then(s, s1, s2, true);
    Then(s, s2, t, true);
    assert t.pcs == s.pcs[SyncWork := Handling({}, 0, {})];
  }

  /** The pass acknowledges and ends. */
  lemma PassEnds(s: State) returns (t: State)
    requires s.lock == Core && PcOf(s, SyncWork) == Handling({}, 0, {})
    ensures Leads(s, t, true) && t == Goto(s.(lock := Free), SyncWork, Idle)
  {
    var s1 := s.(lock := Free);
    t := Goto(s1, SyncWork, Idle);
    assert NextConnector(s, CoreUnlock, s1) && NextFinish(s1, AckNone(SyncWork), t);
    Step1(s, CoreUnlock, s1, true);
    Step1(s1, AckNone(SyncWork), t, true);
    Then(s, s1, t, true);
  }

  /** The follow-up work finds nothing to do. */
  lemma WorkFindsNothing(s: State) returns (t: State)
    requires s.pending == {} && s.queued == {0} && PcOf(s, UsbWork(0)) == Idle
    ensures Leads(s, t, true) && t == Goto(s.(queued := {}), UsbWork(0), Idle)
  {
    var s1 := Goto(s.(queued := s.queued - {0}), UsbWork(0), Started);
    t := Goto(s1, UsbWork(0), Idle);
    assert NextWork(s, WorkStart(0), s1) && NextWork(s1, WorkMiss(0), t);
    Step1(s, WorkStart(0), s1, true);
    Step1(s1, WorkMiss(0), t, true);
    Then(s, s1, t, true);
    assert t.pcs == s.pcs[UsbWork(0) := Idle];
  }

  /** The first half: an event, and a deferred pass that has refreshed after it. */
  lemma DeferredPassRefreshes(s: State) returns (t: State)
    requires s.n == |s.ports| == 1 && s.lock == Free && s.pending == s.queued == {} && !s.syncQueued
    requires PcOf(s, Notifier) == Idle && PcOf(s, SyncWork) == Idle
    ensures Leads(s, t, true) && t.n == |t.ports| == 1
    ensures t.lock == Free && t.pending == t.queued == {0} && !t.syncQueued
    ensures t.pcs == s.pcs[Notifier := Idle][SyncWork := Completing({})]
  {
    var s1 := EventArrives(s, true);
    var s2 := FollowUpPutOff(s1);
    var s3 := PassDeferred(s2);
    t := DeferredRead(s3);
    Then(s, s1, s2, true);
    Then(s, s2, s3, true);
    Then(s, s3, t, true);
  }

  /** The second half: a new event, and the deferred pass eats it. */
  lemma DeferredPassEatsAnEvent(s: State) returns (t: State)
    requires s.n == 1 && s.lock == Free && s.pending == s.queued == {0} && !s.syncQueued
    requires PcOf(s, Notifier) == Idle && PcOf(s, SyncWork) == Completing({}) && PcOf(s, UsbWork(0)) == Idle
    ensures Leads(s, t, true) && 0 in t.owed && t.pending == t.queued == {} && !t.syncQueued && t.lock == Free
    ensures t.pcs == s.pcs[Notifier := Idle][SyncWork := Idle][UsbWork(0) := Idle]
  {
    var s1 := EventArrives(s, true);
    assert s1.pending == {0} && s1.queued == {0};
    var s2 := StaleCompletion(s1);
    var s3 := PassEnds(s2);
    t := WorkFindsNothing(s3);
    Then(s, s1, s2, true);
    Then(s, s2, s3, true);
    Then(s, s3, t, true);
  }

  /** Start-up with one port. */
  function Started1(): State {
    State(1, [Port(CCX_NONE, MUX_NONE, SVID_NONE)], {}, {}, false, Free, -1,
          map[InitWork := WantLock(false)], {}, [])
  }

  /** The initial sync fails to refresh and is over. */
  lemma InitialSync(b: bool) returns (t: State)
    ensures Leads(Started1(), t, b) && Init(Started1()) && t == Started1().(pcs := map[InitWork := Idle])
  {
    var s := Started1();
    var s1 := Goto(s.(lock := By(InitWork)), InitWork, Refreshing(false));
    t := Goto(s1.(lock := Free, owed := {}), InitWork, Idle);
    assert NextRefresh(s, Lock(InitWork), s1) && NextRefresh(s1, ReadFail(InitWork), t);
    Step1(s, Lock(InitWork), s1, b);
    Step1(s1, ReadFail(InitWork), t, b);
    Then(s, s1, t, b);
    assert t.pcs == map[InitWork := Idle];
  }

  /** From start-up, with no work ever giving up: a deferred pass refreshes; a connector event behind the
      core's lock is armed; the deferred pass completes that event's follow-up. In the end everything is
      at rest and no refresh has followed the event. */
  lemma StaleCompletionLosesAnEvent() returns (run: seq<State>, steps: seq<Step>)
    ensures IsRun(run, steps) && AtRest(run[|steps|]) && 0 in run[|steps|].owed
    ensures forall k | 0 <= k < |steps| :: !steps[k].WorkGone?
  {
    var s0 := InitialSync(true);
    var s1 := DeferredPassRefreshes(s0);
    var s2 := DeferredPassEatsAnEvent(s1);
    Then(s0, s1, s2, true);
    Then(Started1(), s0, s2, true);
    run, steps :| PathFromTo(run, steps, Started1(), s2, true);
  }

  /** The core lets go, and the follow-up work finds the port as disconnected as before the event. */
  lemma WorkGivesUp(s: State) returns (t: State)
    requires s.lock == Core && s.pending == s.queued == {0} && PcOf(s, UsbWork(0)) == Idle
    requires |s.ports| > 0 && Disconnected(s.ports[0])
    ensures Leads(s, t, false)
    ensures t == s.(lock := Free, pending := {}, queued := {}, pcs := s.pcs[UsbWork(0) := Idle])
  {
    var s1 := s.(lock := Free);
    assert NextConnector(s, CoreUnlock, s1);
    Step1(s, CoreUnlock, s1, false);
    t := WorkRuns(s1);
    Then(s, s1, t, false);
  }

  lemma WorkRuns(s: State) returns (t: State)
    requires s.pending == s.queued == {0} && PcOf(s, UsbWork(0)) == Idle && |s.ports| > 0 && Disconnected(s.ports[0])
    ensures Leads(s, t, false) && t == s.(pending := {}, queued := {}, pcs := s.pcs[UsbWork(0) := Idle])
  {
    var s1 := Goto(s.(queued := s.queued - {0}), UsbWork(0), Started);
    var s2 := Goto(s1.(pending := s1.pending - {0}), UsbWork(0), BitCleared);
    t := Goto(s2, UsbWork(0), Idle);
    assert NextWork(s, WorkStart(0), s1) && NextWork(s1, WorkClear(0), s2) && NextWork(s2, WorkGone(0), t);
    Step1(s, WorkStart(0), s1, false);
    Step1(s1, WorkClear(0), s2, false);
    Step1(s2, WorkGone(0), t, false);
    Then(s, s1, s2, false);
    Then(s, s2, t, false);
    assert t.pcs == s.pcs[UsbWork(0) := Idle];
  }

  /** From start-up, with no follow-up ever completed by a pass: a connector event behind the core's lock
      is armed, and its own follow-up work gives up. */
  lemma BlindGiveUpLosesAnEvent() returns (run: seq<State>, steps: seq<Step>)
    ensures IsRun(run, steps) && AtRest(run[|steps|]) && 0 in run[|steps|].owed
    ensures forall k | 0 <= k < |steps| :: !steps[k].ClearBit?
  {
    var s0 := InitialSync(false);
    var s1 := EventArrives(s0, false);
    var s2 := WorkGivesUp(s1);
    Then(s0, s1, s2, false);
    Then(Started1(), s0, s2, false);
    run, steps :| PathFromTo(run, steps, Started1(), s2, false);
  }
}
