/** When a connector event can stay without a refresh for good: exactly when the system can come to
    rest without one. */
module SidebandRest {
  import opened Sideband
  import opened SidebandProgress

  /** Nothing is left to do: only an event or the core can move. */
  ghost predicate AtRest(s: State) {
    && s.pending == {} && s.queued == {} && !s.syncQueued && s.lock == Free
    && forall c | c in s.pcs :: s.pcs[c] == Idle
  }

  /** Steps one after the other in which nobody refreshes; new events may arrive. */
  ghost predicate Silent(run: seq<State>, steps: seq<Step>) {
    |run| == |steps| + 1 && forall k | 0 <= k < |steps| :: Next(run[k], steps[k], run[k + 1]) && !Looks(steps[k])
  }

  ghost predicate SilentFromTo(run: seq<State>, steps: seq<Step>, s: State, t: State) {
    Silent(run, steps) && run[0] == s && run[|steps|] == t
  }

  /** From s the system can come to rest with the event on port i still unanswered. */
  ghost predicate CanStayUnanswered(s: State, i: nat) {
    exists run, steps, t :: SilentFromTo(run, steps, s, t) && AtRest(t) && i in t.owed
  }

  // ----- the condition

  /** Ports whose follow-up, armed or about to be, would refresh if their work took it. */
  ghost function Waiting(s: State): set<nat> {
    set i | 0 <= i < |s.ports| && (i in s.pending || BeforeArm(s, i)) && !Disconnected(s.ports[i])
  }

  /** The deferred worker, at pc, may still clear the follow-ups of these ports. */
  predicate MayClear(pc: Pc, ports: set<nat>) {
    || ports == {}
    || (pc.Completing? && if pc.mask == {} then |ports| <= 1 else ports <= pc.mask)
    || (pc.Clearing? && ports <= pc.todo)
  }

  /** Nobody refreshes or is about to, no pass is waiting to start, every work that took its bit finds its
      port disconnected, and so does every follow-up that the deferred worker cannot clear. */
  ghost predicate CanRest(s: State) {
    && (s.lock == Free || s.lock == Core) && !s.syncQueued
    && (forall c | c in s.pcs :: !s.pcs[c].WantLock? && !s.pcs[c].Refreshing? && !s.pcs[c].Snapshotting?)
    && PcOf(s, Notifier) != Deferring && !PcOf(s, Notifier).Rescheduling?
    && (forall i: nat | PcOf(s, UsbWork(i)) == BitCleared :: i < |s.ports| && Disconnected(s.ports[i]))
    && MayClear(PcOf(s, SyncWork), Waiting(s))
  }

  // ----- it is necessary: a silent step never establishes it

  lemma SubsetSize(a: set<nat>, b: set<nat>)
    requires a <= b
    ensures |a| <= |b|
  {
    if a != {} {
      var x :| x in a;
      SubsetSize(a - {x}, b - {x});
    }
  }

  lemma FewerToClear(pc: Pc, a: set<nat>, b: set<nat>)
    requires a <= b && MayClear(pc, b)
    ensures MayClear(pc, a)
  {
    SubsetSize(a, b);
  }

  lemma BackConnector(s: State, step: Step, t: State)
    requires NextConnector(s, step, t) && !Looks(step) && CanRest(t)
    ensures CanRest(s)
  {
    EffectConnector(s, step, t);
    WaitingGrows(s, step, t);
    FewerToClear(PcOf(s, SyncWork), Waiting(s), Waiting(t));
    NotifierOnly(s, step, t);
  }

  lemma WaitingGrows(s: State, step: Step, t: State)
    requires NextConnector(s, step, t) && t.ports == s.ports
    ensures Waiting(s) <= Waiting(t)
  {
    forall i | i in Waiting(s) ensures i in t.pending || BeforeArm(t, i) {
      assert i in s.pending || BeforeArm(s, i);
    }
  }

  lemma BackUsb(s: State, step: Step, t: State)
    requires NextUsb(s, step, t)
    ensures !CanRest(t)
  {
  }

  lemma BackWork(s: State, step: Step, t: State)
    requires NextWork(s, step, t) && CanRest(t)
    ensures CanRest(s)
  {
    assert Waiting(s) <= Waiting(t);
    FewerToClear(PcOf(s, SyncWork), Waiting(s), Waiting(t));
    forall c | c in s.pcs ensures !s.pcs[c].WantLock? && !s.pcs[c].Refreshing? && !s.pcs[c].Snapshotting? {
      assert s.pcs[c] == t.pcs[c] || PcOf(s, c) == s.pcs[c];
    }
    forall i: nat | PcOf(s, UsbWork(i)) == BitCleared ensures i < |s.ports| && Disconnected(s.ports[i]) {
      assert step == WorkGone(i) || PcOf(t, UsbWork(i)) == BitCleared;
    }
  }

  lemma BackRefresh(s: State, step: Step, t: State)
    requires NextRefresh(s, step, t) && !Looks(step)
    ensures !CanRest(t)
  {
  }

  /** What a step of the deferred worker leaves to clear, it had to clear before. */
  lemma BackClearing(s: State, step: Step, t: State)
    requires NextFinish(s, step, t) && (step.Infer? || step.ClearBit? || step.Cleared?) && step.ctx == SyncWork
    requires MayClear(PcOf(t, SyncWork), Waiting(t))
    ensures MayClear(PcOf(s, SyncWork), Waiting(s))
  {
    if step.Infer? {
      assert Waiting(s) == Waiting(t);
      if PcOf(s, SyncWork).mask == {} {
        SubsetSize(Waiting(s), Inferred(s.pending, s.last));
      }
    } else if step.ClearBit? {
      assert Waiting(s) <= Waiting(t) + {step.cport};
    } else {
      assert Waiting(s) == Waiting(t);
    }
  }

  lemma BackFinish(s: State, step: Step, t: State)
    requires Roles(s) && s.owed != {} && NextFinish(s, step, t) && CanRest(t)
    ensures CanRest(s)
  {
    assert step.ctx in s.pcs;
    forall c | c in s.pcs ensures !s.pcs[c].WantLock? && !s.pcs[c].Refreshing? && !s.pcs[c].Snapshotting? {
      assert c == step.ctx || s.pcs[c] == t.pcs[c];
    }
    forall i: nat | PcOf(s, UsbWork(i)) == BitCleared ensures i < |s.ports| && Disconnected(s.ports[i]) {
      assert PcOf(t, UsbWork(i)) == BitCleared;
    }
    if step.Infer? || step.ClearBit? || step.Cleared? {
      BackClearing(s, step, t);
    } else {
      assert Waiting(s) == Waiting(t);
      assert PcOf(s, SyncWork) == PcOf(t, SyncWork) || (step.ctx == SyncWork && PcOf(s, SyncWork).Handling?);
    }
  }

  /** Whatever happens without a refresh, a system that cannot rest stays so. */
  lemma SilentStepBack(s: State, step: Step, t: State)
    requires Roles(s) && s.owed != {} && Next(s, step, t) && !Looks(step) && CanRest(t)
    ensures CanRest(s)
  {
    if NextConnector(s, step, t) {
      BackConnector(s, step, t);
    } else if NextUsb(s, step, t) {
      BackUsb(s, step, t);
    } else if NextWork(s, step, t) {
      BackWork(s, step, t);
    } else if NextRefresh(s, step, t) {
      BackRefresh(s, step, t);
    } else {
      BackFinish(s, step, t);
    }
  }

  lemma RestCanRest(s: State)
    requires AtRest(s)
    ensures CanRest(s)
  {
    assert Waiting(s) == {};
  }

  lemma {:induction false} SilentPathBack(run: seq<State>, steps: seq<Step>)
    requires Silent(run, steps) && Inv(run[0]) && Roles(run[0]) && run[0].owed != {} && CanRest(run[|steps|])
    ensures CanRest(run[0])
    decreases |steps|
  {
    if |steps| > 0 {
      assert Next(run[0], steps[0], run[0 + 1]) && !Looks(steps[0]);
      StepKeepsInv(run[0], steps[0], run[1]);
      StepKeepsRoles(run[0], steps[0], run[1]);
      StepEffect(run[0], steps[0], run[1]);
      forall k | 0 <= k < |steps| - 1
        ensures Next(run[1..][k], steps[1..][k], run[1..][k + 1]) && !Looks(steps[1..][k])
      {
        assert Next(run[k + 1], steps[k + 1], run[k + 1 + 1]);
      }
      SilentPathBack(run[1..], steps[1..]);
      SilentStepBack(run[0], steps[0], run[1]);
    }
  }

  // ----- it is sufficient: until it rests, the system has a silent step that brings rest closer

  /** Steps a pass needs once its refresh and completion are behind it. */
  function PassLeft(n: nat, pc: Pc): nat {
    if pc.Handling? && pc.next <= n then n - pc.next + 1 else 0
  }

  /** The notifier's way back to idle, the core's lock included. */
  ghost function NotifierWeight(s: State): nat {
    var pc, core := PcOf(s, Notifier), if s.lock == Core then 1 else 0;
    match pc
    case GotConnector(_) => if s.lock == Free then 9 else 8
    case Snapshotted(_) => 6 + core
    case Noted(_) => 4 + core
    case Armed(_) => 2 + core
    case _ => PassLeft(s.n, pc) + core
  }

  /** How far the deferred worker is from having completed what it will complete. */
  ghost function ClearingWeight(s: State): nat {
    match PcOf(s, SyncWork)
    case Completing(_) => 2
    case Clearing(_, _) => 1
    case _ => 0
  }

  ghost function TodoWeight(s: State): nat {
    if PcOf(s, SyncWork).Clearing? then |PcOf(s, SyncWork).todo| else 0
  }

  ghost function PortWeight(s: State, i: nat): nat {
    var pc := PcOf(s, UsbWork(i));
    (if i in s.queued then 4 else 0)
    + if pc == Started then 2 else if pc == BitCleared then 1 else PassLeft(s.n, pc)
  }

  ghost function PortsWeight(s: State, k: nat): nat {
    if k == 0 then 0 else PortsWeight(s, k - 1) + PortWeight(s, k - 1)
  }

  ghost function WorksWeight(s: State): nat {
    PassLeft(s.n, PcOf(s, SyncWork)) + PassLeft(s.n, PcOf(s, InitWork)) + PortsWeight(s, s.n)
  }

  ghost predicate Closer(s: State, t: State) {
    || NotifierWeight(t) < NotifierWeight(s)
    || (NotifierWeight(t) == NotifierWeight(s) && (
          || ClearingWeight(t) < ClearingWeight(s)
          || (ClearingWeight(t) == ClearingWeight(s) && (
                || TodoWeight(t) < TodoWeight(s)
                || (TodoWeight(t) == TodoWeight(s) && WorksWeight(t) < WorksWeight(s))))))
  }

  lemma {:induction false} OtherPortsSame(s: State, t: State, k: nat, i: nat)
    requires forall j: nat | j < k && j != i :: PortWeight(t, j) == PortWeight(s, j)
    ensures i >= k ==> PortsWeight(t, k) == PortsWeight(s, k)
    ensures i < k ==> PortsWeight(t, k) - PortWeight(t, i) == PortsWeight(s, k) - PortWeight(s, i)
  {
    if k > 0 {
      OtherPortsSame(s, t, k - 1, i);
    }
  }

  /** A silent step that brings rest closer and still lets the system rest. */
  ghost predicate Drains(s: State, step: Step, t: State) {
    Next(s, step, t) && !Looks(step) && CanRest(t) && Closer(s, t) && t.owed == s.owed
  }

  /** The notifier and the core first. */
  lemma NotifierDrains(s: State) returns (step: Step, t: State)
    requires Inv(s) && Roles(s) && Placed(s) && s.owed != {} && CanRest(s)
    requires s.lock == Core || PcOf(s, Notifier) != Idle
    ensures Drains(s, step, t)
  {
    if s.lock == Core || PcOf(s, Notifier).GotConnector? {
      step, t := CoreMoves(s);
      ConnectorStillRests(s, step, t);
    } else if PcOf(s, Notifier).Handling? {
      step, t := HandlerMoves(s, Notifier);
      HandlerStillRests(s, Notifier, t);
    } else {
      step, t := ArmingMoves(s);
      ConnectorStillRests(s, step, t);
    }
  }

  /** A free lock is taken by the core before the notifier can. */
  lemma CoreMoves(s: State) returns (step: Step, t: State)
    requires (s.lock == Free || s.lock == Core) && (s.lock == Core || PcOf(s, Notifier).GotConnector?)
    ensures NextConnector(s, step, t) && (step == CoreLock || step == SnapshotBusy || step == CoreUnlock)
    ensures Closer(s, t) && t.owed == s.owed
  {
    if s.lock == Free {
      step, t := CoreLock, s.(lock := Core);
    } else if PcOf(s, Notifier).GotConnector? {
      step, t := SnapshotBusy, Goto(s, Notifier, Snapshotted(PcOf(s, Notifier).idx));
    } else {
      step, t := CoreUnlock, s.(lock := Free);
    }
  }

  lemma ArmingMoves(s: State) returns (step: Step, t: State)
    requires PcOf(s, Notifier).Snapshotted? || PcOf(s, Notifier).Noted? || PcOf(s, Notifier).Armed?
    ensures NextConnector(s, step, t) && (step == Note || step == Arm || step == Queue)
    ensures Closer(s, t) && t.owed == s.owed
  {
    var pc := PcOf(s, Notifier);
    if pc.Snapshotted? {
      step, t := Note, Goto(s.(last := pc.idx), Notifier, Noted(pc.idx));
    } else if pc.Noted? {
      step, t := Arm, Goto(s.(pending := s.pending + {pc.idx}), Notifier, Armed(pc.idx));
    } else {
      step, t := Queue, Goto(s.(queued := s.queued + {pc.idx}), Notifier, Idle);
    }
  }

  lemma ConnectorStillRests(s: State, step: Step, t: State)
    requires CanRest(s) && NextConnector(s, step, t) && !Looks(step) && !step.ConnectorEvent? && !step.SnapshotLock?
    ensures CanRest(t)
  {
    assert Waiting(t) == Waiting(s);
    assert forall i: nat :: PcOf(s, UsbWork(i)) == PcOf(t, UsbWork(i));
  }

  lemma HandlerStillRests(s: State, c: Ctx, t: State)
    requires CanRest(s) && PcOf(s, c).Handling? && t == Goto(s.(log := t.log), c, PcOf(t, c))
    requires PcOf(t, c) == Idle || PcOf(t, c).Handling?
    ensures CanRest(t)
  {
    assert Waiting(t) == Waiting(s);
    forall i: nat | PcOf(t, UsbWork(i)) == BitCleared ensures i < |t.ports| && Disconnected(t.ports[i]) {
      assert PcOf(s, UsbWork(i)) == BitCleared;
    }
    assert c != SyncWork ==> PcOf(t, SyncWork) == PcOf(s, SyncWork);
  }

  /** The work of port i can move without taking a bit that would make it refresh. */
  ghost predicate WorkReady(s: State, i: nat) {
    var pc := PcOf(s, UsbWork(i));
    var harmless := i !in s.pending || (i < |s.ports| && Disconnected(s.ports[i]));
    pc.Handling? || pc == BitCleared || (pc == Started && harmless) || (pc == Idle && i in s.queued && harmless)
  }

  lemma WorkDrains(s: State, i: nat) returns (step: Step, t: State)
    requires Inv(s) && Placed(s) && CanRest(s) && s.lock == Free && i < s.n && WorkReady(s, i)
    ensures Drains(s, step, t)
  {
    if PcOf(s, UsbWork(i)).Handling? {
      step, t := HandlerMoves(s, UsbWork(i));
      HandlerStillRests(s, UsbWork(i), t);
      WorkCloser(s, t, i);
    } else {
      step, t := WorkMoves(s, i);
      WorkStillRests(s, step, t, i);
      WorkCloser(s, t, i);
      assert Next(s, step, t);
    }
  }

  lemma WorkMoves(s: State, i: nat) returns (step: Step, t: State)
    requires |s.ports| == s.n && CanRest(s) && i < s.n && WorkReady(s, i) && !PcOf(s, UsbWork(i)).Handling?
    ensures NextWork(s, step, t) && !step.WorkForce?
    ensures step.WorkClear? ==> step.wport < |s.ports| && Disconnected(s.ports[step.wport])
    ensures t == Goto(s.(pending := t.pending, queued := t.queued), UsbWork(i), PcOf(t, UsbWork(i)))
    ensures t.queued == s.queued || t.queued == s.queued - {i}
    ensures PortWeight(t, i) < PortWeight(s, i)
  {
    var c, pc := UsbWork(i), PcOf(s, UsbWork(i));
    if pc == BitCleared {
      step, t := WorkGone(i), Goto(s, c, Idle);
    } else if pc == Idle {
      step, t := WorkStart(i), Goto(s.(queued := s.queued - {i}), c, Started);
    } else if i in s.pending {
      step, t := WorkClear(i), Goto(s.(pending := s.pending - {i}), c, BitCleared);
    } else {
      step, t := WorkMiss(i), Goto(s, c, Idle);
    }
  }

  lemma WorkCloser(s: State, t: State, i: nat)
    requires t == Goto(s.(pending := t.pending, queued := t.queued, log := t.log), UsbWork(i), PcOf(t, UsbWork(i)))
    requires (t.queued == s.queued || t.queued == s.queued - {i}) && i < s.n && PortWeight(t, i) < PortWeight(s, i)
    ensures Closer(s, t)
  {
    forall j: nat | j != i ensures PortWeight(t, j) == PortWeight(s, j) {
      assert PcOf(t, UsbWork(j)) == PcOf(s, UsbWork(j));
    }
    OtherPortsSame(s, t, s.n, i);
  }

  lemma WorkStillRests(s: State, step: Step, t: State, i: nat)
    requires CanRest(s) && NextWork(s, step, t) && !step.WorkForce?
    requires step.WorkClear? ==> step.wport < |s.ports| && Disconnected(s.ports[step.wport])
    ensures CanRest(t)
  {
    assert Waiting(t) <= Waiting(s);
    FewerToClear(PcOf(s, SyncWork), Waiting(t), Waiting(s));
    forall j: nat | PcOf(t, UsbWork(j)) == BitCleared ensures j < |t.ports| && Disconnected(t.ports[j]) {
      assert PcOf(s, UsbWork(j)) == BitCleared || step == WorkClear(j);
    }
  }

  /** The initial sync and the deferred worker, when nothing else can move. */
  lemma PassDrains(s: State, c: Ctx) returns (step: Step, t: State)
    requires Inv(s) && Placed(s) && CanRest(s) && s.lock == Free && c in {InitWork, SyncWork} && PcOf(s, c).Handling?
    ensures Drains(s, step, t)
  {
    step, t := HandlerMoves(s, c);
    HandlerStillRests(s, c, t);
    PassCloser(s, t, c);
  }

  lemma PassCloser(s: State, t: State, c: Ctx)
    requires t == Goto(s.(log := t.log), c, PcOf(t, c)) && c in {InitWork, SyncWork} && PcOf(s, c).Handling?
    requires PassLeft(s.n, PcOf(t, c)) < PassLeft(s.n, PcOf(s, c)) && (PcOf(t, c) == Idle || PcOf(t, c).Handling?)
    ensures Closer(s, t)
  {
    forall j: nat ensures PortWeight(t, j) == PortWeight(s, j) {
      assert PcOf(t, UsbWork(j)) == PcOf(s, UsbWork(j));
    }
    OtherPortsSame(s, t, s.n, s.n);
  }

  /** When only follow-ups are left that would refresh, the deferred worker clears them. */
  lemma ClearingDrains(s: State) returns (step: Step, t: State)
    requires CanRest(s) && PcOf(s, Notifier) == Idle && s.pending <= Waiting(s) && InCompletion(PcOf(s, SyncWork))
    ensures Drains(s, step, t)
  {
    step, t := ClearingMoves(s);
    ClearingStillRests(s, step, t);
  }

  lemma ClearingMoves(s: State) returns (step: Step, t: State)
    requires InCompletion(PcOf(s, SyncWork)) && PcOf(s, Notifier) == Idle
    ensures NextFinish(s, step, t) && (step.Infer? || step.ClearBit? || step.Cleared?) && step.ctx == SyncWork
    ensures Closer(s, t) && t.owed == s.owed
  {
    var pc := PcOf(s, SyncWork);
    if pc.Clearing? && pc.todo != {} {
      step, t := OneBitClears(s);
    } else {
      if pc.Completing? {
        step, t := Infer(SyncWork), Goto(s, SyncWork, Clearing(pc.mask, Completed(s, pc.mask)));
      } else {
        step, t := Cleared(SyncWork), Goto(s, SyncWork, Handling(pc.mask, 0, {}));
      }
      assert NotifierWeight(t) == NotifierWeight(s) && ClearingWeight(t) < ClearingWeight(s);
    }
  }

  lemma OneBitClears(s: State) returns (step: Step, t: State)
    requires PcOf(s, SyncWork).Clearing? && PcOf(s, SyncWork).todo != {} && PcOf(s, Notifier) == Idle
    ensures NextFinish(s, step, t) && step.ClearBit? && step.ctx == SyncWork && Closer(s, t) && t.owed == s.owed
  {
    var pc := PcOf(s, SyncWork);
    var i :| i in pc.todo;
    step, t := ClearBit(SyncWork, i), Goto(s.(pending := s.pending - {i}), SyncWork, pc.(todo := pc.todo - {i}));
    assert NotifierWeight(t) == NotifierWeight(s) && ClearingWeight(t) == ClearingWeight(s);
    assert TodoWeight(t) < TodoWeight(s);
  }

  lemma ClearingStillRests(s: State, step: Step, t: State)
    requires CanRest(s) && PcOf(s, Notifier) == Idle && s.pending <= Waiting(s) && NextFinish(s, step, t)
    requires (step.Infer? || step.ClearBit? || step.Cleared?) && step.ctx == SyncWork
    ensures CanRest(t)
  {
    StillClearable(s, step, t);
    assert forall i: nat :: PcOf(s, UsbWork(i)) == PcOf(t, UsbWork(i));
  }

  lemma StillClearable(s: State, step: Step, t: State)
    requires PcOf(s, Notifier) == Idle && s.pending <= Waiting(s) && NextFinish(s, step, t)
    requires MayClear(PcOf(s, SyncWork), Waiting(s))
    requires (step.Infer? || step.ClearBit? || step.Cleared?) && step.ctx == SyncWork
    ensures MayClear(PcOf(t, SyncWork), Waiting(t))
  {
    assert PcOf(t, Notifier) == Idle;
    assert Waiting(s) == s.pending;
    if step.ClearBit? {
      assert Waiting(t) == s.pending - {step.cport};
    } else {
      assert Waiting(t) == s.pending;
      if step.Infer? && s.pending != {} && PcOf(s, SyncWork).mask == {} {
        assert |s.pending| == 1;
      }
    }
  }

  /** No work can move harmlessly: what is pending would refresh. */
  lemma OnlyWaitingPending(s: State)
    requires Inv(s) && Placed(s) && CanRest(s) && PcOf(s, Notifier) == Idle
    requires forall i | 0 <= i < s.n :: !WorkReady(s, i)
    ensures s.pending <= Waiting(s)
  {
    forall i | i in s.pending ensures i in Waiting(s) {
      assert Covered(s, i) && !WorkReady(s, i);
      assert UsbWork(i) in s.pcs ==> PlaceOf(s.n, UsbWork(i), s.pcs[UsbWork(i)]);
    }
  }

  lemma NothingLeft(s: State)
    requires Inv(s) && Placed(s) && CanRest(s) && s.lock == Free && PcOf(s, Notifier) == Idle
    requires forall i | 0 <= i < s.n :: !WorkReady(s, i)
    requires !InCompletion(PcOf(s, SyncWork)) && !PcOf(s, SyncWork).Handling? && !PcOf(s, InitWork).Handling?
    ensures AtRest(s)
  {
    OnlyWaitingPending(s);
    assert s.pending == {};
    forall c | c in s.pcs ensures s.pcs[c] == Idle {
      assert PlaceOf(s.n, c, s.pcs[c]) && PcOf(s, c) == s.pcs[c];
      assert c.UsbWork? ==> !WorkReady(s, c.port);
    }
    assert forall i | i in s.queued :: !WorkReady(s, i);
  }

  lemma DrainStep(s: State) returns (step: Step, t: State)
    requires Inv(s) && Roles(s) && Placed(s) && s.owed != {} && CanRest(s) && !AtRest(s)
    ensures Drains(s, step, t)
  {
    if s.lock == Core || PcOf(s, Notifier) != Idle {
      step, t := NotifierDrains(s);
    } else if i :| 0 <= i < s.n && WorkReady(s, i) {
      step, t := WorkDrains(s, i);
    } else if PcOf(s, InitWork).Handling? {
      step, t := PassDrains(s, InitWork);
    } else if PcOf(s, SyncWork).Handling? {
      step, t := PassDrains(s, SyncWork);
    } else if InCompletion(PcOf(s, SyncWork)) {
      OnlyWaitingPending(s);
      step, t := ClearingDrains(s);
    } else {
      NothingLeft(s);
      assert false;
    }
  }

  lemma Prepend(s: State, step: Step, t: State, run: seq<State>, steps: seq<Step>, u: State)
    requires Next(s, step, t) && !Looks(step) && SilentFromTo(run, steps, t, u)
    ensures SilentFromTo([s] + run, [step] + steps, s, u)
  {
    forall k | 0 <= k < |steps| + 1
      ensures Next(([s] + run)[k], ([step] + steps)[k], ([s] + run)[k + 1]) && !Looks(([step] + steps)[k])
    {
      if k > 0 {
        assert Next(run[k - 1], steps[k - 1], run[k - 1 + 1]);
      }
    }
  }

  /** The whole way to rest. */
  lemma Drain(s: State) returns (run: seq<State>, steps: seq<Step>, u: State)
    requires Inv(s) && Roles(s) && Placed(s) && s.owed != {} && CanRest(s)
    ensures SilentFromTo(run, steps, s, u) && AtRest(u) && u.owed == s.owed
    decreases NotifierWeight(s), ClearingWeight(s), TodoWeight(s), WorksWeight(s)
  {
    if AtRest(s) {
      run, steps, u := [s], [], s;
    } else {
      var step, t := DrainStep(s);
      StepKeepsInv(s, step, t);
      StepKeepsRoles(s, step, t);
      StepKeepsPlaced(s, step, t);
      run, steps, u := Drain(t);
      Prepend(s, step, t, run, steps, u);
      run, steps := [s] + run, [step] + steps;
    }
  }

  // ----- the exact condition

  lemma UnansweredExactlyWhen(s: State, i: nat)
    requires Inv(s) && Roles(s) && Placed(s) && i in s.owed
    ensures CanStayUnanswered(s, i) <==> CanRest(s)
  {
    if CanRest(s) {
      var run, steps, u := Drain(s);
      assert SilentFromTo(run, steps, s, u);
    }
    if CanStayUnanswered(s, i) {
      var run, steps, u :| SilentFromTo(run, steps, s, u) && AtRest(u);
      RestCanRest(u);
      SilentPathBack(run, steps);
    }
  }

  /** In every state of every run, an event that no refresh has followed can stay so for good exactly if
      the system can rest: otherwise it does not come to rest before somebody refreshes. */
  lemma UnansweredForGoodExactlyWhen(run: seq<State>, steps: seq<Step>, k: nat, i: nat)
    requires IsRun(run, steps) && k < |run| && i in run[k].owed
    ensures CanStayUnanswered(run[k], i) <==> CanRest(run[k])
  {
    EveryRun(run, steps, k);
    PlacedEverywhere(run, steps, k);
    UnansweredExactlyWhen(run[k], i);
  }

  /** The notifier's attempt at the lock decides: after a snapshot taken, or one missed because another
      refresh is under way, the event is answered before the system rests; after one missed because of
      the core it may stay unanswered for good exactly if nothing else is bound to refresh. */
  lemma TrylockDecides(s: State, step: Step, t: State, i: nat)
    requires Inv(s) && Roles(s) && Placed(s) && i in s.owed && PcOf(s, Notifier) == GotConnector(i)
    requires Next(s, step, t) && (step == SnapshotLock || step == SnapshotBusy)
    ensures CanStayUnanswered(t, i) <==> s.lock == Core && CanRest(s)
  {
    StepKeepsInv(s, step, t);
    StepKeepsRoles(s, step, t);
    StepKeepsPlaced(s, step, t);
    UnansweredExactlyWhen(t, i);
    if s.lock == Core && CanRest(s) {
      ConnectorStillRests(s, step, t);
    } else if CanRest(t) {
      SilentStepBack(s, step, t);
    }
  }

  /** Once the notifier has the lock, the next thing it does is the refresh. */
  lemma SnapshotAnswersAtOnce(s: State, step: Step, t: State)
    requires PcOf(s, Notifier).Snapshotting? && Next(s, step, t) && ActorOf(step) == By(Notifier)
    ensures Looks(step) && t.owed == {}
  {
    StepEffect(s, step, t);
  }

  /** In step m the notifier missed its snapshot for port i because of the core, with nothing else bound to
      refresh, and up to state k nobody did. */
  ghost predicate MissedAt(run: seq<State>, steps: seq<Step>, i: nat, m: nat, k: nat)
    requires |run| == |steps| + 1
  {
    && m < k <= |steps| && steps[m] == SnapshotBusy && PcOf(run[m], Notifier) == GotConnector(i)
    && run[m].lock == Core && CanRest(run[m]) && forall j | m <= j < k :: !Looks(steps[j])
  }

  ghost predicate Missed(run: seq<State>, steps: seq<Step>, i: nat, k: nat)
    requires |run| == |steps| + 1
  {
    exists m: nat :: MissedAt(run, steps, i, m, k)
  }

  /** What a step means for an event that may stay unanswered. */
  ghost predicate RestStep(s: State, step: Step, t: State) {
    && Effect(s, step, t)
    && (!Looks(step) && s.owed != {} && CanRest(t) ==> CanRest(s))
    && (CanRest(s) && CanRest(t) && PcOf(s, Notifier).GotConnector? && PcOf(t, Notifier) != PcOf(s, Notifier) ==>
          step == SnapshotBusy && s.lock == Core)
  }

  lemma EveryStepIsRestStep(s: State, step: Step, t: State)
    requires Roles(s) && Next(s, step, t)
    ensures RestStep(s, step, t)
  {
    StepEffect(s, step, t);
    if !Looks(step) && s.owed != {} && CanRest(t) {
      SilentStepBack(s, step, t);
    }
    if CanRest(s) && CanRest(t) && PcOf(s, Notifier).GotConnector? {
      TryingOn(s, step, t);
    }
  }

  lemma TryingOn(s: State, step: Step, t: State)
    requires Next(s, step, t) && PcOf(s, Notifier).GotConnector? && CanRest(s) && CanRest(t)
    ensures PcOf(t, Notifier) == PcOf(s, Notifier) || (step == SnapshotBusy && s.lock == Core)
  {
    if NextConnector(s, step, t) {
      TryingConnector(s, step, t);
    } else if NextUsb(s, step, t) {
      BackUsb(s, step, t);
    } else if NextWork(s, step, t) {
      TryingDuringWork(s, step, t);
    } else if NextRefresh(s, step, t) {
      TryingDuringRefresh(s, step, t);
    } else {
      TryingDuringFinish(s, step, t);
    }
  }

  lemma TryingDuringWork(s: State, step: Step, t: State)
    requires NextWork(s, step, t)
    ensures PcOf(t, Notifier) == PcOf(s, Notifier)
  {
  }

  lemma TryingDuringRefresh(s: State, step: Step, t: State)
    requires NextRefresh(s, step, t) && PcOf(s, Notifier).GotConnector?
    ensures PcOf(t, Notifier) == PcOf(s, Notifier)
  {
  }

  lemma TryingDuringFinish(s: State, step: Step, t: State)
    requires NextFinish(s, step, t) && PcOf(s, Notifier).GotConnector?
    ensures PcOf(t, Notifier) == PcOf(s, Notifier)
  {
  }

  lemma TryingConnector(s: State, step: Step, t: State)
    requires NextConnector(s, step, t) && PcOf(s, Notifier).GotConnector? && CanRest(s) && CanRest(t)
    ensures PcOf(t, Notifier) == PcOf(s, Notifier) || (step == SnapshotBusy && s.lock == Core)
  {
  }

  /** An event still unanswered in a state from which the system can rest was missed that way, unless the
      notifier has yet to try. */
  lemma UnansweredWasMissed(run: seq<State>, steps: seq<Step>, k: nat, i: nat)
    requires IsRun(run, steps) && k < |run| && i in run[k].owed && CanRest(run[k])
    ensures PcOf(run[k], Notifier) == GotConnector(i) || Missed(run, steps, i, k)
  {
    forall m | 0 <= m < |steps| ensures RestStep(run[m], steps[m], run[m + 1]) {
      EveryRun(run, steps, m);
      assert Next(run[m], steps[m], run[m + 1]);
      EveryStepIsRestStep(run[m], steps[m], run[m + 1]);
    }
    MissedByRestSteps(run, steps, k, i);
  }

  lemma {:induction false} MissedByRestSteps(run: seq<State>, steps: seq<Step>, k: nat, i: nat)
    requires |run| == |steps| + 1 && k < |run| && run[0].owed == {} && i in run[k].owed && CanRest(run[k])
    requires forall m | 0 <= m < |steps| :: RestStep(run[m], steps[m], run[m + 1])
    ensures PcOf(run[k], Notifier) == GotConnector(i) || Missed(run, steps, i, k)
    decreases k
  {
    assert k > 0;
    assert RestStep(run[k - 1], steps[k - 1], run[k - 1 + 1]);
    if i in run[k - 1].owed {
      MissedByRestSteps(run, steps, k - 1, i);
      if PcOf(run[k - 1], Notifier) == GotConnector(i) {
        assert PcOf(run[k], Notifier) != GotConnector(i) ==> MissedAt(run, steps, i, k - 1, k);
      } else {
        var m: nat :| MissedAt(run, steps, i, m, k - 1);
        assert MissedAt(run, steps, i, m, k);
      }
    }
  }
}
