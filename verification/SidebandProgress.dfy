/** Unless it is dropped, every connector event is followed by a refresh: the context in charge of it
    always has a next step, or waits for a lock that somebody can release, and each of its steps brings
    the refresh closer. */
module SidebandProgress {
  import opened Sealing
  import opened Sideband

  /** Who takes a step. */
  function ActorOf(step: Step): Holder {
    match step
    case CoreLock => Core
    case CoreUnlock => Core
    case WorkStart(i) => By(UsbWork(i))
    case WorkClear(i) => By(UsbWork(i))
    case WorkMiss(i) => By(UsbWork(i))
    case WorkGone(i) => By(UsbWork(i))
    case WorkForce(i) => By(UsbWork(i))
    case SyncStart => By(SyncWork)
    case Lock(c) => By(c)
    case Read(c, _) => By(c)
    case ReadFail(c) => By(c)
    case Infer(c) => By(c)
    case ClearBit(c, _) => By(c)
    case Cleared(c) => By(c)
    case Handle(c) => By(c)
    case AckNone(c) => By(c)
    case AckAll(c) => By(c)
    case _ => By(Notifier)
  }

  /** The follow-up work of port i is bound to refresh: it has not seen the port disconnected. */
  ghost predicate Bound(s: State, i: nat) {
    var pc := PcOf(s, UsbWork(i));
    pc.WantLock? || pc.Refreshing? || (pc == BitCleared && !(i < |s.ports| && Disconnected(s.ports[i])))
  }

  /** Who is in charge of the event owed on port i. */
  ghost function InChargeOf(s: State, i: nat): Ctx {
    var pc := PcOf(s, UsbWork(i));
    if Bound(s, i) then UsbWork(i)
    else if BeforeArm(s, i) then Notifier
    else if pc == Started || i in s.queued || (pc == BitCleared && i !in s.pending) then UsbWork(i)
    else Notifier
  }

  /** Steps the work of port i still has to take on an earlier follow-up before it can start again. */
  function WorkLeft(s: State, i: nat): nat {
    match PcOf(s, UsbWork(i))
    case Handling(mask, next, _) => if mask != {} && next <= s.n then s.n - next + 1 else 1
    case BitCleared => 1
    case _ => 0
  }

  /** Steps of the notifier until the follow-up is armed. */
  function NotifierLeft(pc: Pc): nat {
    if pc.GotConnector? then 4 else if pc.Snapshotting? then 3 else if pc.Snapshotted? then 2 else 1
  }

  /** Steps of the context in charge until somebody refreshes after the event on port i, at most. */
  ghost function Rank(s: State, i: nat): (r: nat)
    ensures r >= 1
  {
    var pc := PcOf(s, UsbWork(i));
    if pc.Refreshing? then 1
    else if pc.WantLock? then 2
    else if Bound(s, i) then 3
    else if BeforeArm(s, i) then s.n + 8 + NotifierLeft(PcOf(s, Notifier))
    else if pc == BitCleared && i !in s.pending then 3
    else if pc == Started then 4
    else if i in s.queued then 5 + WorkLeft(s, i)
    else s.n + 8
  }

  // ----- every step of the one in charge counts, and nobody else's sets it back

  /** The event on port i is settled, or as close as before; closer if it is the turn of the one in charge. */
  ghost predicate Advances(s: State, step: Step, t: State, i: nat) {
    i in t.owed ==> Rank(t, i) <= Rank(s, i) && (ActorOf(step) == By(InChargeOf(s, i)) ==> Rank(t, i) < Rank(s, i))
  }

  /** What a step on the way of the event owed on port i may assume. */
  ghost predicate Underway(s: State, step: Step, i: nat) {
    && InCharge(s, i) && (i in s.pending ==> Covered(s, i)) && i in s.owed
    && step != ConnectorEvent(i) && !Drops(s, step, i)
  }

  lemma AdvancesEvent(s: State, step: Step, t: State, i: nat)
    requires Underway(s, step, i) && NextConnector(s, step, t)
    requires step.CoreLock? || step.CoreUnlock? || step.ConnectorEvent?
    ensures Advances(s, step, t, i)
  {
    NotifierOnly(s, step, t);
  }

  lemma AdvancesSnapshot(s: State, step: Step, t: State, i: nat)
    requires Underway(s, step, i) && NextConnector(s, step, t)
    requires step.SnapshotLock? || step.SnapshotBusy? || step.SnapshotRead? || step.SnapshotFail?
    ensures Advances(s, step, t, i)
  {
    EffectConnector(s, step, t);
    NotifierOnly(s, step, t);
  }

  lemma AdvancesArming(s: State, step: Step, t: State, i: nat)
    requires Underway(s, step, i) && NextConnector(s, step, t) && (step.Note? || step.Arm? || step.Queue?)
    requires PassOk(s, PcOf(s, UsbWork(i)))
    ensures Advances(s, step, t, i)
  {
  }

  lemma AdvancesUsb(s: State, step: Step, t: State, i: nat)
    requires Underway(s, step, i) && NextUsb(s, step, t)
    ensures Advances(s, step, t, i)
  {
  }

  lemma AdvancesWork(s: State, step: Step, t: State, i: nat)
    requires Underway(s, step, i) && NextWork(s, step, t)
    ensures Advances(s, step, t, i)
  {
  }

  lemma AdvancesRefresh(s: State, step: Step, t: State, i: nat)
    requires Underway(s, step, i) && NextRefresh(s, step, t)
    ensures Advances(s, step, t, i)
  {
  }

  lemma AdvancesClearing(s: State, step: Step, t: State, i: nat)
    requires Underway(s, step, i) && NextFinish(s, step, t) && (step.Infer? || step.ClearBit? || step.Cleared?)
    requires Roles(s) && InCompletion(PcOf(s, step.ctx))
    ensures Advances(s, step, t, i)
  {
    assert step.ctx in s.pcs && (step.ctx == Notifier || step.ctx == SyncWork);
  }

  lemma AdvancesHandling(s: State, step: Step, t: State, i: nat)
    requires Underway(s, step, i) && NextFinish(s, step, t) && (step.Handle? || step.AckNone? || step.AckAll?)
    requires step.ctx == UsbWork(i) && PassOk(s, PcOf(s, UsbWork(i)))
    ensures Advances(s, step, t, i)
  {
    assert PcOf(s, UsbWork(i)).Handling? && PcOf(s, UsbWork(i)).next <= s.n;
  }

  lemma OthersHandle(s: State, step: Step, t: State, i: nat)
    requires Underway(s, step, i) && NextFinish(s, step, t) && (step.Handle? || step.AckNone? || step.AckAll?)
    requires step.ctx != UsbWork(i)
    ensures Advances(s, step, t, i)
  {
    assert !BeforeArm(t, i) ==> !BeforeArm(s, i) || PcOf(s, Notifier) == PcOf(t, Notifier);
  }

  /** Whatever the controller answers and whoever moves: unless the step drops it or a new event arrives
      on the same port, the refresh owed never gets further away, and every step of the context in
      charge brings it closer. */
  lemma EveryStepAdvances(s: State, step: Step, t: State, i: nat)
    requires Inv(s) && Roles(s) && Next(s, step, t) && i in s.owed && InCharge(s, i)
    requires !Drops(s, step, i) && step != ConnectorEvent(i)
    ensures Advances(s, step, t, i)
  {
    assert Underway(s, step, i) by {
      assert i in s.pending ==> Covered(s, i);
    }
    assert PassOk(s, PcOf(s, UsbWork(i)));
    if step.Note? || step.Arm? || step.Queue? {
      AdvancesArming(s, step, t, i);
    } else if step.CoreLock? || step.CoreUnlock? || step.ConnectorEvent? {
      AdvancesEvent(s, step, t, i);
    } else if NextConnector(s, step, t) {
      AdvancesSnapshot(s, step, t, i);
    } else if NextUsb(s, step, t) {
      AdvancesUsb(s, step, t, i);
    } else if NextWork(s, step, t) {
      AdvancesWork(s, step, t, i);
    } else if NextRefresh(s, step, t) {
      AdvancesRefresh(s, step, t, i);
    } else if step.Handle? || step.AckNone? || step.AckAll? {
      if step.ctx == UsbWork(i) {
        AdvancesHandling(s, step, t, i);
      } else {
        OthersHandle(s, step, t, i);
      }
    } else {
      AdvancesClearing(s, step, t, i);
    }
  }

  // ----- over runs

  /** A step from a state that meets the invariants, which does not drop the event on port i and is no
      new one. Sealed. */
  ghost predicate Fair(s: State, step: Step, t: State, i: nat) {
    forall o {:trigger Open(o)} :: Open(o) ==>
      Inv(s) && Roles(s) && Next(s, step, t) && !Drops(s, step, i) && step != ConnectorEvent(i)
  }

  lemma FairStepAdvances(s: State, step: Step, t: State, i: nat)
    requires Fair(s, step, t, i) && i in s.owed && i in t.owed && InCharge(s, i)
    ensures Rank(t, i) <= Rank(s, i) && (ActorOf(step) == By(InChargeOf(s, i)) ==> Rank(t, i) < Rank(s, i))
    ensures InCharge(t, i)
  {
    assert Open(0);
    EveryStepAdvances(s, step, t, i);
    ChargeLostExactlyByDrop(s, step, t, i);
  }

  /** In state a somebody is in charge of port i, and between states a and b no step drops it and no new
      event arrives there. Sealed. */
  ghost predicate Undisturbed(run: seq<State>, steps: seq<Step>, i: nat, a: nat, b: nat) {
    && a <= b <= |steps| && |run| == |steps| + 1 && InCharge(run[a], i)
    && forall o {:trigger Open(o)} :: Open(o) ==>
         && IsRun(run, steps)
         && (forall m | a <= m < b :: !Drops(run[m], steps[m], i) && steps[m] != ConnectorEvent(i))
  }

  lemma UndisturbedFair(run: seq<State>, steps: seq<Step>, i: nat, a: nat, b: nat, m: nat)
    requires Undisturbed(run, steps, i, a, b) && a <= m < b
    ensures Fair(run[m], steps[m], run[m + 1], i)
  {
    assert Open(0);
    EveryRun(run, steps, m);
    assert Next(run[m], steps[m], run[m + 1]);
  }

  /** Nobody refreshes after the event on port i between states a and b. */
  ghost predicate Unanswered(run: seq<State>, i: nat, a: nat, b: nat)
    requires a <= b < |run|
  {
    forall m | a <= m <= b :: i in run[m].owed
  }

  /** Steps of whoever is in charge between states a and b. */
  ghost function Turns(run: seq<State>, steps: seq<Step>, i: nat, a: nat, b: nat): nat
    requires a <= b <= |steps| && |run| == |steps| + 1
  {
    if b == a then 0
    else Turns(run, steps, i, a, b - 1) + if ActorOf(steps[b - 1]) == By(InChargeOf(run[b - 1], i)) then 1 else 0
  }

  lemma {:induction false} TurnsLowerTheRank(run: seq<State>, steps: seq<Step>, i: nat, a: nat, b: nat)
    requires a <= b <= |steps| && |run| == |steps| + 1 && Unanswered(run, i, a, b) && InCharge(run[a], i)
    requires forall m | a <= m < b :: Fair(run[m], steps[m], run[m + 1], i)
    ensures Turns(run, steps, i, a, b) + Rank(run[b], i) <= Rank(run[a], i) && InCharge(run[b], i)
    decreases b
  {
    if b > a {
      TurnsLowerTheRank(run, steps, i, a, b - 1);
      assert Fair(run[b - 1], steps[b - 1], run[b - 1 + 1], i);
      FairStepAdvances(run[b - 1], steps[b - 1], run[b], i);
    }
  }

  lemma UnansweredTurns(run: seq<State>, steps: seq<Step>, i: nat, a: nat, b: nat)
    requires Undisturbed(run, steps, i, a, b) && Unanswered(run, i, a, b)
    ensures Turns(run, steps, i, a, b) + Rank(run[b], i) <= Rank(run[a], i)
  {
    forall m | a <= m < b ensures Fair(run[m], steps[m], run[m + 1], i) {
      UndisturbedFair(run, steps, i, a, b, m);
    }
    TurnsLowerTheRank(run, steps, i, a, b);
  }

  /** An event that is not dropped does not stay unanswered through more turns of the contexts in charge
      than its rank. */
  lemma AnsweredInTime(run: seq<State>, steps: seq<Step>, i: nat, a: nat, b: nat)
    requires Undisturbed(run, steps, i, a, b) && Turns(run, steps, i, a, b) >= Rank(run[a], i)
    ensures exists m :: a <= m <= b && i !in run[m].owed
  {
    if Unanswered(run, i, a, b) {
      UnansweredTurns(run, steps, i, a, b);
    }
  }

  /** When a follow-up work that started, or was bound to refresh, has run back to idle, somebody has
      refreshed after its event. */
  lemma IdleAgainMeansAnswered(run: seq<State>, steps: seq<Step>, i: nat, a: nat, b: nat)
    requires Undisturbed(run, steps, i, a, b)
    requires (!BeforeArm(run[a], i) && PcOf(run[a], UsbWork(i)) == Started) || Bound(run[a], i)
    requires PcOf(run[b], UsbWork(i)) == Idle
    ensures exists m :: a <= m <= b && i !in run[m].owed
  {
    if Unanswered(run, i, a, b) {
      UnansweredTurns(run, steps, i, a, b);
    }
  }

  // ----- the one in charge can move, or waits for a lock that comes free

  /** The lock is held exactly by the context that refreshes, and every context is where it can be. */
  ghost predicate Placed(s: State) {
    && (forall c | c in s.pcs :: s.pcs[c].Refreshing? || s.pcs[c].Snapshotting? <==> s.lock == By(c))
    && (forall c | s.lock == By(c) :: c in s.pcs)
    && (forall c | c in s.pcs :: PlaceOf(s.n, c, s.pcs[c]))
  }

  /** Where context c can be; works belong to ports. */
  predicate PlaceOf(n: nat, c: Ctx, pc: Pc) {
    match c
    case Notifier => pc != Started && pc != BitCleared && !pc.WantLock?
    case UsbWork(j) => j < n && (pc == Started || pc == BitCleared || PassPc(pc))
    case SyncWork => PassPc(pc) || InCompletion(pc)
    case InitWork => PassPc(pc)
  }

  predicate PassPc(pc: Pc) { pc == Idle || pc.WantLock? || pc.Refreshing? || pc.Handling? }

  lemma PlacedFirst(s: State)
    requires Init(s)
    ensures Placed(s)
  {
  }

  lemma PlacedConnector(s: State, step: Step, t: State)
    requires Inv(s) && Roles(s) && Placed(s) && NextConnector(s, step, t)
    ensures Placed(t)
  {
    NotifierOnly(s, step, t);
    NotifierPlaced(s, step, t);
    assert forall c | c in t.pcs && c != Notifier :: PlaceOf(s.n, c, s.pcs[c]);
  }

  lemma NotifierPlaced(s: State, step: Step, t: State)
    requires Placed(s) && NextConnector(s, step, t)
    ensures t.n == s.n && (Notifier in t.pcs ==> PlaceOf(t.n, Notifier, t.pcs[Notifier]))
    ensures PcOf(t, Notifier).Refreshing? || PcOf(t, Notifier).Snapshotting? <==> t.lock == By(Notifier)
    ensures forall c | c != Notifier :: t.lock == By(c) <==> s.lock == By(c)
    ensures t.lock == By(Notifier) ==> Notifier in t.pcs
  {
  }

  lemma PlacedUsb(s: State, step: Step, t: State)
    requires Inv(s) && Roles(s) && Placed(s) && NextUsb(s, step, t)
    ensures Placed(t)
  {
  }

  lemma PlacedWork(s: State, step: Step, t: State)
    requires Inv(s) && Roles(s) && Placed(s) && NextWork(s, step, t)
    ensures Placed(t)
  {
  }

  lemma PlacedRefresh(s: State, step: Step, t: State)
    requires Inv(s) && Roles(s) && Placed(s) && NextRefresh(s, step, t)
    ensures Placed(t)
  {
  }

  lemma PlacedFinish(s: State, step: Step, t: State)
    requires Inv(s) && Roles(s) && Placed(s) && NextFinish(s, step, t)
    ensures Placed(t)
  {
  }

  /** No two contexts refresh at a time. */
  lemma StepKeepsPlaced(s: State, step: Step, t: State)
    requires Inv(s) && Roles(s) && Placed(s) && Next(s, step, t)
    ensures Placed(t)
  {
    if NextConnector(s, step, t) {
      PlacedConnector(s, step, t);
    } else if NextUsb(s, step, t) {
      PlacedUsb(s, step, t);
    } else if NextWork(s, step, t) {
      PlacedWork(s, step, t);
    } else if NextRefresh(s, step, t) {
      PlacedRefresh(s, step, t);
    } else {
      PlacedFinish(s, step, t);
    }
  }

  /** In every reachable state. */
  lemma {:induction false} PlacedEverywhere(run: seq<State>, steps: seq<Step>, k: nat)
    requires IsRun(run, steps) && k < |run|
    ensures Placed(run[k])
    decreases k
  {
    if k == 0 {
      PlacedFirst(run[0]);
    } else {
      PlacedEverywhere(run, steps, k - 1);
      EveryRun(run, steps, k - 1);
      assert Next(run[k - 1], steps[k - 1], run[k - 1 + 1]);
      StepKeepsPlaced(run[k - 1], steps[k - 1], run[k]);
    }
  }

  /** Whoever holds the lock can release it. */
  lemma LockComesFree(s: State) returns (step: Step, t: State)
    requires Placed(s) && s.lock != Free
    ensures Next(s, step, t) && t.lock == Free && ActorOf(step) == s.lock
  {
    if s.lock == Core {
      step, t := CoreUnlock, s.(lock := Free);
      assert NextConnector(s, step, t);
    } else {
      var c := s.lock.ctx;
      if s.pcs[c].Refreshing? {
        step, t := ReadFail(c), Goto(s.(lock := Free, owed := {}), c, Idle);
        assert NextRefresh(s, step, t);
      } else {
        assert c == Notifier;
        step, t := SnapshotFail, Goto(s.(lock := Free, owed := {}), Notifier, Snapshotted(PcOf(s, Notifier).idx));
        assert NextConnector(s, step, t);
      }
    }
  }

  lemma {:induction false} AcksExist(mask: set<nat>, refreshed: set<nat>, handled: set<nat>) returns (acks: seq<Ack>)
    requires mask <= refreshed
    ensures forall k | 0 <= k < |acks| ::
      acks[k].refreshed == refreshed && acks[k].handled == handled && acks[k].port in mask
    ensures forall i | i in mask :: exists k :: 0 <= k < |acks| && acks[k].port == i
  {
    acks := [];
    if mask != {} {
      var i :| i in mask;
      var rest := AcksExist(mask - {i}, refreshed, handled);
      acks := [Ack(i, refreshed, handled)] + rest;
      forall j | j in mask ensures exists k :: 0 <= k < |acks| && acks[k].port == j {
        if j == i {
          assert acks[0].port == j;
        } else {
          assert j in mask - {i};
          var k :| 0 <= k < |rest| && rest[k].port == j;
          assert acks[k + 1].port == j;
        }
      }
    }
  }

  /** A work on its way back from an earlier pass. */
  lemma HandlerMoves(s: State, c: Ctx) returns (step: Step, t: State)
    requires Inv(s) && PcOf(s, c).Handling? && (s.lock == Free || (PcOf(s, c).mask != {} && PcOf(s, c).next < s.n))
    ensures Next(s, step, t) && ActorOf(step) == By(c) && !Looks(step)
    ensures t == Goto(s.(log := t.log), c, PcOf(t, c))
    ensures PcOf(t, c) == Idle || (PcOf(t, c).Handling? && PcOf(s, c).next < PcOf(t, c).next <= s.n)
  {
    var Handling(mask, next, handled) := PcOf(s, c);
    assert PassOk(s, PcOf(s, c));
    if mask == {} {
      step, t := AckNone(c), Goto(s, c, Idle);
    } else if next < s.n {
      step, t := Handle(c), Goto(s, c, Handling(mask, next + 1, if next in mask then handled + {next} else handled));
    } else {
      var acks := AcksExist(mask, mask, handled);
      assert AcksFor(mask, handled, acks);
      step, t := AckAll(c), Goto(s.(log := s.log + acks), c, Idle);
    }
    assert NextFinish(s, step, t);
  }

  /** The follow-up work that has taken the bit. */
  lemma LookerMoves(s: State, i: nat) returns (step: Step, t: State)
    requires Inv(s) && WorkLooking(s, i) && i in s.owed
    requires s.lock == Free || s.lock == By(UsbWork(i)) || PcOf(s, UsbWork(i)) == BitCleared
    requires Placed(s)
    ensures Next(s, step, t) && ActorOf(step) == By(UsbWork(i))
  {
    var c := UsbWork(i);
    if PcOf(s, c).Refreshing? {
      step, t := ReadFail(c), Goto(s.(lock := Free, owed := {}), c, Idle);
      assert NextRefresh(s, step, t);
    } else if PcOf(s, c).WantLock? {
      step, t := Lock(c), Goto(s.(lock := By(c)), c, Refreshing(PcOf(s, c).usb));
      assert NextRefresh(s, step, t);
    } else if Disconnected(s.ports[i]) {
      step, t := WorkGone(i), Goto(s, c, Idle);
      assert NextWork(s, step, t);
    } else {
      step, t := WorkForce(i), Goto(s, c, WantLock(false));
      assert NextWork(s, step, t);
    }
  }

  /** The notifier, until the follow-up is armed and queued. */
  lemma ArmerMoves(s: State, i: nat) returns (step: Step, t: State)
    requires BeforeArm(s, i) || PcOf(s, Notifier) == Armed(i)
    ensures Next(s, step, t) && ActorOf(step) == By(Notifier)
  {
    var c := Notifier;
    var pc := PcOf(s, c);
    if pc.GotConnector? && s.lock == Free {
      step, t := SnapshotLock, Goto(s.(lock := By(c)), c, Snapshotting(i));
    } else if pc.GotConnector? {
      step, t := SnapshotBusy, Goto(s, c, Snapshotted(i));
    } else if pc.Snapshotting? {
      step, t := SnapshotFail, Goto(s.(lock := Free, owed := {}), c, Snapshotted(i));
    } else if pc.Snapshotted? {
      step, t := Note, Goto(s.(last := i), c, Noted(i));
    } else if pc.Noted? {
      step, t := Arm, Goto(s.(pending := s.pending + {i}), c, Armed(i));
    } else {
      step, t := Queue, Goto(s.(queued := s.queued + {i}), c, Idle);
    }
    assert NextConnector(s, step, t);
  }

  /** The context in charge of an owed event can take a step, or somebody else holds the lock it needs. */
  lemma MovesOrWaits(s: State, i: nat)
    requires Inv(s) && Placed(s) && i in s.owed && InCharge(s, i)
    ensures (exists step, t :: Next(s, step, t) && ActorOf(step) == By(InChargeOf(s, i)))
      || (s.lock != Free && s.lock != By(InChargeOf(s, i)))
  {
    var c := UsbWork(i);
    assert i in s.pending ==> Covered(s, i);
    var step, t;
    if s.lock != Free && s.lock != By(InChargeOf(s, i)) {
    } else if InChargeOf(s, i) == Notifier {
      step, t := ArmerMoves(s, i);
    } else if WorkLooking(s, i) {
      step, t := LookerMoves(s, i);
    } else if PcOf(s, c) == Started {
      step, t := WorkClear(i), Goto(s.(pending := s.pending - {i}), c, BitCleared);
      assert NextWork(s, step, t);
    } else if PcOf(s, c) == Idle {
      step, t := WorkStart(i), Goto(s.(queued := s.queued - {i}), c, Started);
      assert NextWork(s, step, t);
    } else {
      assert PcOf(s, c).Handling?;
      step, t := HandlerMoves(s, c);
    }
    assert s.lock == Free || s.lock == By(InChargeOf(s, i)) ==>
      Next(s, step, t) && ActorOf(step) == By(InChargeOf(s, i));
  }
}
