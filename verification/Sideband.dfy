/**
 The Type-C sideband of the embedded controller, after registration: connector events arm a per-port
 follow-up, USB events and three kinds of work refresh the port snapshot, complete the follow-ups
 and acknowledge what they handled. Every context advances one shared-state access at a time; only
 the pending bits of all ports are read at once, with the last connector where a pass infers what it
 completes, and so is what a USB event is judged by.
 */
module Sideband {

  /** The register layout carries two bytes for each of at most two ports. */
  const MAX_PORTS := 2

  const SVID_NONE := 0
  const SVID_PD := 0xff00
  const SVID_DP := 0xff01

  // Orientation codes and mux codes of a port.
  const CCX_NONE := 2
  const MUX_NONE := 0
  const MUX_USB := 1

  datatype Port = Port(ccx: nat, mux: nat, svid: nat)

  /** The snapshot of one port from its first register byte. */
  function Decode(dcc: nat): Port {
    var mux := dcc / 4 % 4;
    Port(dcc % 4, mux, if mux == MUX_NONE then SVID_NONE else if mux == MUX_USB then SVID_PD else SVID_DP)
  }

  predicate Disconnected(p: Port) {
    p.ccx == CCX_NONE && p.mux == MUX_NONE && p.svid == SVID_NONE
  }

  datatype Ctx = Notifier | UsbWork(port: nat) | SyncWork | InitWork

  datatype Holder = Free | Core | By(ctx: Ctx)

  /** What one answer of the controller says: which ports changed, and every port's first byte. */
  datatype Reg = Reg(updates: set<nat>, bytes: seq<nat>)

  /** Program counters. `usb` tells whether a USB event stands behind the pass. */
  datatype Pc =
    | Idle
    | GotConnector(idx: nat)
    | Snapshotting(idx: nat)
    | Snapshotted(idx: nat)
    | Noted(idx: nat)
    | Armed(idx: nat)
    | Deferring
    | Rescheduling(mask: set<nat>)
    | Started
    | BitCleared
    | WantLock(usb: bool)
    | Refreshing(usb: bool)
    | Completing(mask: set<nat>)
    | Clearing(mask: set<nat>, todo: set<nat>)
    | Handling(mask: set<nat>, next: nat, handled: set<nat>)

  /** `owed` records the ports with a connector event that no refresh attempt has followed yet. `log`
      lists individual acknowledgements with what their pass had done. */
  datatype State = State(
    n: nat, ports: seq<Port>, pending: set<nat>, queued: set<nat>, syncQueued: bool,
    lock: Holder, last: int, pcs: map<Ctx, Pc>, owed: set<nat>, log: seq<Ack>)

  datatype Ack = Ack(port: nat, refreshed: set<nat>, handled: set<nat>)

  datatype Step =
    | CoreLock | CoreUnlock
    | ConnectorEvent(cidx: nat)
    | SnapshotLock | SnapshotBusy | SnapshotRead(sreg: Reg) | SnapshotFail
    | Note | Arm | Queue
    | UsbEvent | UsbBusy | ReadPending | Reschedule(rport: nat) | DeferSync
    | WorkStart(wport: nat) | WorkClear(wport: nat) | WorkMiss(wport: nat)
    | WorkGone(wport: nat) | WorkForce(wport: nat)
    | SyncStart
    | Lock(ctx: Ctx) | Read(ctx: Ctx, reg: Reg) | ReadFail(ctx: Ctx)
    | Infer(ctx: Ctx) | ClearBit(ctx: Ctx, cport: nat) | Cleared(ctx: Ctx)
    | Handle(ctx: Ctx) | AckNone(ctx: Ctx) | AckAll(ctx: Ctx)

  function PcOf(s: State, c: Ctx): Pc {
    if c in s.pcs then s.pcs[c] else Idle
  }

  function Valid(s: State, mask: set<nat>): set<nat> {
    set i | i in mask && i < s.n
  }

  /** Port snapshots after an answer that names updated ports. */
  function Refreshed(s: State, reg: Reg): seq<Port> {
    seq(|s.ports|, i requires 0 <= i < |s.ports| =>
      if i in Valid(s, reg.updates) && i < |reg.bytes| then Decode(reg.bytes[i]) else s.ports[i])
  }

  /** Which follow-up a USB event without any update completes. */
  function Inferred(pending: set<nat>, last: int): set<nat> {
    if pending == {} then {}
    else if |pending| == 1 then pending
    else if last >= 0 && last in pending then {last}
    else {}
  }

  function Completed(s: State, mask: set<nat>): set<nat> {
    if mask != {} then mask else Inferred(s.pending, s.last)
  }

  function Goto(s: State, c: Ctx, pc: Pc): State {
    s.(pcs := s.pcs[c := pc])
  }

  /** A USB event is looked at while a follow-up is pending, a port runs DisplayPort, or some
      connector event came before; how recent that one must be is left open. */
  predicate WorthHandling(s: State) {
    s.pending != {} || s.last >= 0 || exists i :: 0 <= i < |s.ports| && s.ports[i].svid == SVID_DP
  }

  /** After a refresh that named `mask`. Only passes behind a USB event complete follow-ups; the
      initial sync ends early when nothing changed. */
  function AfterRead(s: State, c: Ctx, usb: bool, mask: set<nat>): Pc {
    if usb then Completing(mask)
    else if c == InitWork && mask == {} then Idle
    else Handling(mask, 0, {})
  }

  ghost predicate Next(s: State, step: Step, t: State) {
    || NextConnector(s, step, t) || NextUsb(s, step, t) || NextWork(s, step, t)
    || NextRefresh(s, step, t) || NextFinish(s, step, t)
  }

  /** The core taking its lock, and the notifier on a connector event: it takes a snapshot if it can,
      and arms the follow-up. */
  ghost predicate NextConnector(s: State, step: Step, t: State) {
    match step
    case CoreLock => s.lock == Free && t == s.(lock := Core)
    case CoreUnlock => s.lock == Core && t == s.(lock := Free)
    case ConnectorEvent(idx) =>
      PcOf(s, Notifier) == Idle && idx < s.n && t == Goto(s.(owed := s.owed + {idx}), Notifier, GotConnector(idx))
    case SnapshotBusy =>
      PcOf(s, Notifier).GotConnector? && s.lock != Free && t == Goto(s, Notifier, Snapshotted(PcOf(s, Notifier).idx))
    case SnapshotLock =>
      PcOf(s, Notifier).GotConnector? && s.lock == Free
      && t == Goto(s.(lock := By(Notifier)), Notifier, Snapshotting(PcOf(s, Notifier).idx))
    case SnapshotRead(reg) =>
      PcOf(s, Notifier).Snapshotting?
      && t == Goto(s.(ports := Refreshed(s, reg), lock := Free, owed := {}), Notifier,
          Snapshotted(PcOf(s, Notifier).idx))
    case SnapshotFail =>
      PcOf(s, Notifier).Snapshotting?
      && t == Goto(s.(lock := Free, owed := {}), Notifier, Snapshotted(PcOf(s, Notifier).idx))
    case Note =>
      PcOf(s, Notifier).Snapshotted?
      && var idx := PcOf(s, Notifier).idx; t == Goto(s.(last := idx), Notifier, Noted(idx))
    case Arm =>
      PcOf(s, Notifier).Noted?
      && var idx := PcOf(s, Notifier).idx; t == Goto(s.(pending := s.pending + {idx}), Notifier, Armed(idx))
    case Queue =>
      PcOf(s, Notifier).Armed?
      && t == Goto(s.(queued := s.queued + {PcOf(s, Notifier).idx}), Notifier, Idle)
    case _ => false
  }

  /** The notifier on a USB event: it starts a pass or, if the lock is taken, puts off the pending
      follow-ups and hands the pass to the deferred worker. */
  ghost predicate NextUsb(s: State, step: Step, t: State) {
    match step
    case UsbEvent =>
      PcOf(s, Notifier) == Idle && s.lock == Free && WorthHandling(s)
      && t == Goto(s.(lock := By(Notifier)), Notifier, Refreshing(true))
    case UsbBusy =>
      PcOf(s, Notifier) == Idle && s.lock != Free && WorthHandling(s) && t == Goto(s, Notifier, Deferring)
    case ReadPending =>
      PcOf(s, Notifier) == Deferring && t == Goto(s, Notifier, Rescheduling(s.pending))
    case Reschedule(i) =>
      PcOf(s, Notifier).Rescheduling? && i in PcOf(s, Notifier).mask
      && t == Goto(s.(queued := s.queued + {i}), Notifier, Rescheduling(PcOf(s, Notifier).mask - {i}))
    case DeferSync =>
      PcOf(s, Notifier) == Rescheduling({}) && t == Goto(s.(syncQueued := true), Notifier, Idle)
    case _ => false
  }

  /** A port's follow-up work. */
  ghost predicate NextWork(s: State, step: Step, t: State) {
    match step
    case WorkStart(i) =>
      i in s.queued && PcOf(s, UsbWork(i)) == Idle
      && t == Goto(s.(queued := s.queued - {i}), UsbWork(i), Started)
    case WorkMiss(i) =>
      PcOf(s, UsbWork(i)) == Started && i !in s.pending && t == Goto(s, UsbWork(i), Idle)
    case WorkClear(i) =>
      PcOf(s, UsbWork(i)) == Started && i in s.pending
      && t == Goto(s.(pending := s.pending - {i}), UsbWork(i), BitCleared)
    case WorkGone(i) =>
      PcOf(s, UsbWork(i)) == BitCleared && i < |s.ports| && Disconnected(s.ports[i])
      && t == Goto(s, UsbWork(i), Idle)
    case WorkForce(i) =>
      PcOf(s, UsbWork(i)) == BitCleared && i < |s.ports| && !Disconnected(s.ports[i])
      && t == Goto(s, UsbWork(i), WantLock(false))
    case _ => false
  }

  /** The first half of a pass: one refresh under the lock. */
  ghost predicate NextRefresh(s: State, step: Step, t: State) {
    match step
    case SyncStart =>
      s.syncQueued && PcOf(s, SyncWork) == Idle && t == Goto(s.(syncQueued := false), SyncWork, WantLock(true))
    case Lock(c) =>
      PcOf(s, c).WantLock? && s.lock == Free && t == Goto(s.(lock := By(c)), c, Refreshing(PcOf(s, c).usb))
    case Read(c, reg) =>
      PcOf(s, c).Refreshing?
      && t == Goto(s.(ports := Refreshed(s, reg), lock := Free, owed := {}), c,
                   AfterRead(s, c, PcOf(s, c).usb, Valid(s, reg.updates)))
    case ReadFail(c) =>
      PcOf(s, c).Refreshing? && t == Goto(s.(lock := Free, owed := {}), c, Idle)
    case _ => false
  }

  /** The second half: complete follow-ups, handle altmodes in port order, acknowledge. */
  ghost predicate NextFinish(s: State, step: Step, t: State) {
    match step
    case Infer(c) =>
      PcOf(s, c).Completing?
      && var mask := PcOf(s, c).mask; t == Goto(s, c, Clearing(mask, Completed(s, mask)))
    case ClearBit(c, i) =>
      PcOf(s, c).Clearing? && i in PcOf(s, c).todo
      && t == Goto(s.(pending := s.pending - {i}), c, PcOf(s, c).(todo := PcOf(s, c).todo - {i}))
    case Cleared(c) =>
      PcOf(s, c).Clearing? && PcOf(s, c).todo == {} && t == Goto(s, c, Handling(PcOf(s, c).mask, 0, {}))
    case Handle(c) =>
      PcOf(s, c).Handling? && PcOf(s, c).mask != {} && PcOf(s, c).next < s.n
      && var Handling(mask, next, handled) := PcOf(s, c);
         t == Goto(s, c, Handling(mask, next + 1, if next in mask then handled + {next} else handled))
    case AckNone(c) =>
      PcOf(s, c).Handling? && PcOf(s, c).mask == {} && s.lock == Free && t == Goto(s, c, Idle)
    case AckAll(c) =>
      PcOf(s, c).Handling? && PcOf(s, c).mask != {} && PcOf(s, c).next == s.n && s.lock == Free
      && (exists acks ::
            AcksFor(PcOf(s, c).mask, PcOf(s, c).handled, acks) && t == Goto(s.(log := s.log + acks), c, Idle))
    case _ => false
  }

  /** One individual acknowledgement per port of the mask, tagged with what the pass had done. */
  ghost predicate AcksFor(mask: set<nat>, handled: set<nat>, acks: seq<Ack>) {
    && (forall k | 0 <= k < |acks| :: acks[k].refreshed == mask && acks[k].handled == handled && acks[k].port in mask)
    && (forall i | i in mask :: exists k :: 0 <= k < |acks| && acks[k].port == i)
  }

  ghost predicate Init(s: State) {
    && s.n <= MAX_PORTS && |s.ports| == s.n
    && (forall i | 0 <= i < s.n :: s.ports[i] == Port(CCX_NONE, MUX_NONE, SVID_NONE))
    && s.pending == {} && s.queued == {} && !s.syncQueued
    && s.lock == Free && s.last == -1 && s.owed == {} && s.log == []
    && s.pcs == map[InitWork := WantLock(false)]
  }

  // ----- what every interleaving keeps

  /** Everything named by a pass is a port, and altmodes were handled in order below `next`. */
  ghost predicate PassOk(s: State, pc: Pc) {
    match pc
    case GotConnector(i) => i < s.n
    case Snapshotting(i) => i < s.n
    case Snapshotted(i) => i < s.n
    case Noted(i) => i < s.n
    case Armed(i) => i < s.n
    case Rescheduling(mask) => mask == Valid(s, mask)
    case Completing(mask) => mask == Valid(s, mask)
    case Clearing(mask, todo) => mask == Valid(s, mask)
    case Handling(mask, next, handled) =>
      mask == Valid(s, mask) && next <= s.n && handled == set i | i in mask && i < next
    case _ => true
  }

  /** Pending follow-ups name ports, and each one has its work queued, or about to be queued by the
      notifier, or just started. */
  ghost predicate Inv(s: State) {
    && |s.ports| == s.n
    && Named(s)
    && s.last < s.n
    && (forall c | c in s.pcs :: PassOk(s, s.pcs[c]))
    && (forall i | i in s.pending :: Covered(s, i))
    && (forall k | 0 <= k < |s.log| :: AckOk(s, s.log[k]))
  }

  /** The pending follow-ups, the queued works and the events still owed a look all name ports. */
  ghost predicate Named(s: State) {
    && (forall i | i in s.pending :: i < s.n)
    && (forall i | i in s.queued :: i < s.n)
    && (forall i | i in s.owed :: i < s.n)
  }

  /** A port acknowledged by itself was refreshed by the same pass, and its altmode handled. */
  ghost predicate AckOk(s: State, a: Ack) {
    a.port < s.n && a.port in a.refreshed && a.port in a.handled
  }

  ghost predicate Covered(s: State, i: nat) {
    i in s.queued || PcOf(s, Notifier) == Armed(i) || PcOf(s, UsbWork(i)) == Started
  }

  lemma InitInv(s: State)
    requires Init(s)
    ensures Inv(s)
  {
  }

  lemma PassesConnector(s: State, step: Step, t: State)
    requires Inv(s) && NextConnector(s, step, t)
    ensures t.n == s.n && |t.ports| == t.n && forall c | c in t.pcs :: PassOk(t, t.pcs[c])
  {
    forall c | c in t.pcs ensures PassOk(t, t.pcs[c]) {
      assert forall d | d in s.pcs :: PassOk(s, s.pcs[d]);
    }
  }

  lemma PassesUsb(s: State, step: Step, t: State)
    requires Inv(s) && NextUsb(s, step, t)
    ensures t.n == s.n && |t.ports| == t.n && forall c | c in t.pcs :: PassOk(t, t.pcs[c])
  {
    forall c | c in t.pcs ensures PassOk(t, t.pcs[c]) {
      assert forall d | d in s.pcs :: PassOk(s, s.pcs[d]);
    }
  }

  lemma PassesWork(s: State, step: Step, t: State)
    requires Inv(s) && NextWork(s, step, t)
    ensures t.n == s.n && |t.ports| == t.n && forall c | c in t.pcs :: PassOk(t, t.pcs[c])
  {
    forall c | c in t.pcs ensures PassOk(t, t.pcs[c]) {
      assert forall d | d in s.pcs :: PassOk(s, s.pcs[d]);
    }
  }

  lemma PassesRefresh(s: State, step: Step, t: State)
    requires Inv(s) && NextRefresh(s, step, t)
    ensures t.n == s.n && |t.ports| == t.n && forall c | c in t.pcs :: PassOk(t, t.pcs[c])
  {
    forall c | c in t.pcs ensures PassOk(t, t.pcs[c]) {
      assert forall d | d in s.pcs :: PassOk(s, s.pcs[d]);
    }
  }

  lemma PassesFinish(s: State, step: Step, t: State)
    requires Inv(s) && NextFinish(s, step, t)
    ensures t.n == s.n && |t.ports| == t.n && forall c | c in t.pcs :: PassOk(t, t.pcs[c])
  {
    forall c | c in t.pcs ensures PassOk(t, t.pcs[c]) {
      assert forall d | d in s.pcs :: PassOk(s, s.pcs[d]);
    }
  }

  lemma StepKeepsPasses(s: State, step: Step, t: State)
    requires Inv(s) && Next(s, step, t)
    ensures t.n == s.n && |t.ports| == t.n && forall c | c in t.pcs :: PassOk(t, t.pcs[c])
  {
    if NextConnector(s, step, t) {
      PassesConnector(s, step, t);
    } else if NextUsb(s, step, t) {
      PassesUsb(s, step, t);
    } else if NextWork(s, step, t) {
      PassesWork(s, step, t);
    } else if NextRefresh(s, step, t) {
      PassesRefresh(s, step, t);
    } else {
      PassesFinish(s, step, t);
    }
  }

  lemma PendingConnector(s: State, step: Step, t: State, i: nat)
    requires NextConnector(s, step, t) && i in t.pending && (i in s.pending ==> Covered(s, i))
    ensures Covered(t, i)
  {
  }

  lemma PendingUsb(s: State, step: Step, t: State, i: nat)
    requires NextUsb(s, step, t) && i in t.pending && (i in s.pending ==> Covered(s, i))
    ensures Covered(t, i)
  {
  }

  lemma PendingWork(s: State, step: Step, t: State, i: nat)
    requires NextWork(s, step, t) && i in t.pending && (i in s.pending ==> Covered(s, i))
    ensures Covered(t, i)
  {
  }

  lemma PendingRefresh(s: State, step: Step, t: State, i: nat)
    requires NextRefresh(s, step, t) && i in t.pending && (i in s.pending ==> Covered(s, i))
    ensures Covered(t, i)
  {
  }

  lemma PendingFinish(s: State, step: Step, t: State, i: nat)
    requires NextFinish(s, step, t) && i in t.pending && (i in s.pending ==> Covered(s, i))
    ensures Covered(t, i)
  {
  }

  lemma StepKeepsPending(s: State, step: Step, t: State)
    requires Inv(s) && Next(s, step, t)
    ensures forall i | i in t.pending :: Covered(t, i)
  {
    forall i | i in t.pending ensures Covered(t, i) {
      assert i in s.pending ==> Covered(s, i);
      if NextConnector(s, step, t) {
        PendingConnector(s, step, t, i);
      } else if NextUsb(s, step, t) {
        PendingUsb(s, step, t, i);
      } else if NextWork(s, step, t) {
        PendingWork(s, step, t, i);
      } else if NextRefresh(s, step, t) {
        PendingRefresh(s, step, t, i);
      } else {
        PendingFinish(s, step, t, i);
      }
    }
  }

  /** A refresh, tried by anybody. */
  predicate Looks(step: Step) { step.SnapshotRead? || step.SnapshotFail? || step.Read? || step.ReadFail? }

  /** What a step does to the events owed, the snapshots and the log. */
  ghost predicate Effect(s: State, step: Step, t: State) {
    && (Looks(step) ==> t.owed == {})
    && (!Looks(step) ==>
          t.ports == s.ports && t.owed == if step.ConnectorEvent? then s.owed + {step.cidx} else s.owed)
    && (step.ConnectorEvent? ==> PcOf(t, Notifier) == GotConnector(step.cidx))
    && t.n == s.n && (!step.AckAll? ==> t.log == s.log)
  }

  lemma EffectConnector(s: State, step: Step, t: State)
    requires NextConnector(s, step, t)
    ensures Effect(s, step, t)
  {
  }

  lemma EffectUsb(s: State, step: Step, t: State)
    requires NextUsb(s, step, t)
    ensures Effect(s, step, t)
  {
  }

  lemma EffectWork(s: State, step: Step, t: State)
    requires NextWork(s, step, t)
    ensures Effect(s, step, t)
  {
  }

  lemma EffectRefresh(s: State, step: Step, t: State)
    requires NextRefresh(s, step, t)
    ensures Effect(s, step, t)
  {
  }

  lemma EffectFinish(s: State, step: Step, t: State)
    requires NextFinish(s, step, t)
    ensures Effect(s, step, t)
  {
  }

  lemma StepEffect(s: State, step: Step, t: State)
    requires Next(s, step, t)
    ensures Effect(s, step, t)
  {
    if NextConnector(s, step, t) {
      EffectConnector(s, step, t);
    } else if NextUsb(s, step, t) {
      EffectUsb(s, step, t);
    } else if NextWork(s, step, t) {
      EffectWork(s, step, t);
    } else if NextRefresh(s, step, t) {
      EffectRefresh(s, step, t);
    } else {
      EffectFinish(s, step, t);
    }
  }

  lemma LogAfterAck(s: State, step: Step, t: State)
    requires Inv(s) && step.AckAll? && NextFinish(s, step, t)
    ensures forall k | 0 <= k < |t.log| :: AckOk(t, t.log[k])
  {
    var pc := PcOf(s, step.ctx);
    assert PassOk(s, pc);
    assert pc.handled == pc.mask == Valid(s, pc.mask);
    var acks :| AcksFor(pc.mask, pc.handled, acks) && t == Goto(s.(log := s.log + acks), step.ctx, Idle);
    forall k | 0 <= k < |t.log| ensures AckOk(t, t.log[k]) {
      if k < |s.log| {
        assert AckOk(s, s.log[k]);
      } else {
        assert t.log[k] == acks[k - |s.log|];
      }
    }
  }

  lemma StepKeepsLog(s: State, step: Step, t: State)
    requires Inv(s) && Next(s, step, t)
    ensures forall k | 0 <= k < |t.log| :: AckOk(t, t.log[k])
  {
    if step.AckAll? {
      LogAfterAck(s, step, t);
    } else {
      StepEffect(s, step, t);
      assert forall k | 0 <= k < |s.log| :: AckOk(s, s.log[k]);
    }
  }

  /** Every step of every interleaving keeps the invariant. */
  lemma StepKeepsInv(s: State, step: Step, t: State)
    requires Inv(s) && Next(s, step, t)
    ensures Inv(t)
  {
    StepKeepsPasses(s, step, t);
    StepKeepsPending(s, step, t);
    StepKeepsLog(s, step, t);
    StepKeepsNames(s, step, t);
  }

  lemma NamesConnector(s: State, step: Step, t: State)
    requires Inv(s) && NextConnector(s, step, t)
    ensures t.last < t.n && t.n == s.n && Named(t)
  {
    if Notifier in s.pcs {
      assert PassOk(s, s.pcs[Notifier]);
    }
  }

  lemma NamesUsb(s: State, step: Step, t: State)
    requires Inv(s) && NextUsb(s, step, t)
    ensures t.last < t.n && t.n == s.n && Named(t)
  {
    if Notifier in s.pcs {
      assert PassOk(s, s.pcs[Notifier]);
    }
  }

  lemma NamesElsewhere(s: State, step: Step, t: State)
    requires Inv(s) && (NextWork(s, step, t) || NextRefresh(s, step, t) || NextFinish(s, step, t))
    ensures t.last < t.n && t.n == s.n && Named(t)
  {
    assert t.pending <= s.pending && t.queued <= s.queued && t.owed <= s.owed;
  }

  lemma StepKeepsNames(s: State, step: Step, t: State)
    requires Inv(s) && Next(s, step, t)
    ensures t.last < t.n && t.n == s.n && Named(t)
  {
    if NextConnector(s, step, t) {
      NamesConnector(s, step, t);
    } else if NextUsb(s, step, t) {
      NamesUsb(s, step, t);
    } else {
      NamesElsewhere(s, step, t);
    }
  }

  // ----- who will refresh after a connector event, and the two steps that leave it to nobody

  /** The notifier has not yet armed the follow-up of its connector event on port i. */
  ghost predicate BeforeArm(s: State, i: nat) {
    var pc := PcOf(s, Notifier);
    pc == GotConnector(i) || pc == Snapshotting(i) || pc == Snapshotted(i) || pc == Noted(i)
  }

  /** The follow-up work of port i has taken the bit and has not given up. */
  ghost predicate WorkLooking(s: State, i: nat) {
    var pc := PcOf(s, UsbWork(i));
    pc == BitCleared || pc.WantLock? || pc.Refreshing?
  }

  /** Somebody may still refresh because of the event on port i. */
  ghost predicate InCharge(s: State, i: nat) {
    BeforeArm(s, i) || i in s.pending || WorkLooking(s, i)
  }

  predicate InCompletion(pc: Pc) { pc.Completing? || pc.Clearing? }

  /** Only the notifier and the deferred worker complete follow-ups, and the former owes nothing then. */
  ghost predicate Roles(s: State) {
    && (InCompletion(PcOf(s, Notifier)) ==> s.owed == {})
    && (forall c | c in s.pcs && InCompletion(s.pcs[c]) :: c == Notifier || c == SyncWork)
    && (forall c | c in s.pcs && (s.pcs[c].WantLock? || s.pcs[c].Refreshing?) && s.pcs[c].usb ::
          c == Notifier || c == SyncWork)
  }

  /** Every event still owed a refresh has someone in charge of it. */
  ghost predicate Tracked(s: State) {
    (forall i | i in s.owed :: InCharge(s, i)) && Roles(s)
  }

  /** The deferred worker clears the follow-up of port i, which no work has taken yet. */
  ghost predicate Stale(s: State, step: Step, i: nat) {
    step == ClearBit(SyncWork, i) && !BeforeArm(s, i) && !WorkLooking(s, i)
  }

  /** The follow-up work of port i gives up, and no other follow-up is armed or about to be. */
  ghost predicate Blind(s: State, step: Step, i: nat) {
    step == WorkGone(i) && !BeforeArm(s, i) && i !in s.pending
  }

  ghost predicate Drops(s: State, step: Step, i: nat) { Stale(s, step, i) || Blind(s, step, i) }

  lemma InitTracked(s: State)
    requires Init(s)
    ensures Tracked(s)
  {
  }

  /** An event that somebody is in charge of is left to nobody exactly by a stale completion or a blind
      give-up of its port. */
  lemma ChargeLostExactlyByDrop(s: State, step: Step, t: State, i: nat)
    requires Inv(s) && Roles(s) && Next(s, step, t) && i in s.owed && InCharge(s, i) && i in t.owed
    ensures InCharge(t, i) <==> !Drops(s, step, i)
  {
    if NextConnector(s, step, t) {
      ChargeConnector(s, step, t, i);
    } else if NextUsb(s, step, t) {
      ChargeUsb(s, step, t, i);
    } else if NextWork(s, step, t) {
      ChargeWork(s, step, t, i);
    } else if NextRefresh(s, step, t) {
      ChargeRefresh(s, step, t, i);
    } else {
      ChargeFinish(s, step, t, i);
    }
  }

  /** A step keeps every owed event in charge exactly when it drops none of them. */
  lemma TrackedExactlyUnlessDropped(s: State, step: Step, t: State)
    requires Inv(s) && Tracked(s) && Next(s, step, t)
    ensures Tracked(t) <==> forall i | i in s.owed :: !Drops(s, step, i)
  {
    StepKeepsRoles(s, step, t);
    StepEffect(s, step, t);
    forall i | i in s.owed && i in t.owed ensures InCharge(t, i) <==> !Drops(s, step, i) {
      ChargeLostExactlyByDrop(s, step, t, i);
    }
    TrackedByEffect(s, step, t);
  }

  lemma TrackedByEffect(s: State, step: Step, t: State)
    requires Effect(s, step, t) && Roles(t)
    requires forall i | i in s.owed && i in t.owed :: InCharge(t, i) <==> !Drops(s, step, i)
    ensures Tracked(t) <==> forall i | i in s.owed :: !Drops(s, step, i)
  {
    if i :| i in s.owed && Drops(s, step, i) {
      assert !InCharge(t, i);
    }
  }

  lemma NotifierOnly(s: State, step: Step, t: State)
    requires NextConnector(s, step, t)
    ensures forall c | c != Notifier :: PcOf(t, c) == PcOf(s, c)
    ensures forall c | c in s.pcs && c != Notifier :: c in t.pcs && t.pcs[c] == s.pcs[c]
    ensures forall c | c in t.pcs && c != Notifier :: c in s.pcs
  {
  }

  lemma ChargeConnector(s: State, step: Step, t: State, i: nat)
    requires NextConnector(s, step, t) && InCharge(s, i) && i in t.owed
    ensures InCharge(t, i) && !Drops(s, step, i)
  {
  }

  lemma ChargeUsb(s: State, step: Step, t: State, i: nat)
    requires NextUsb(s, step, t) && InCharge(s, i)
    ensures InCharge(t, i) && !Drops(s, step, i)
  {
  }

  lemma ChargeWork(s: State, step: Step, t: State, i: nat)
    requires NextWork(s, step, t) && InCharge(s, i)
    ensures InCharge(t, i) <==> !Drops(s, step, i)
  {
  }

  lemma ChargeRefresh(s: State, step: Step, t: State, i: nat)
    requires NextRefresh(s, step, t) && InCharge(s, i) && i in t.owed
    ensures InCharge(t, i) && !Drops(s, step, i)
  {
  }

  lemma ChargeFinish(s: State, step: Step, t: State, i: nat)
    requires Roles(s) && NextFinish(s, step, t) && i in s.owed && InCharge(s, i)
    ensures InCharge(t, i) <==> !Drops(s, step, i)
  {
    if step.ClearBit? {
      assert step.ctx == Notifier || step.ctx == SyncWork;
    }
  }

  lemma RolesConnector(s: State, step: Step, t: State)
    requires Roles(s) && NextConnector(s, step, t)
    ensures Roles(t)
  {
  }

  lemma RolesUsb(s: State, step: Step, t: State)
    requires Roles(s) && NextUsb(s, step, t)
    ensures Roles(t)
  {
  }

  lemma RolesWork(s: State, step: Step, t: State)
    requires Roles(s) && NextWork(s, step, t)
    ensures Roles(t)
  {
  }

  lemma RolesRefresh(s: State, step: Step, t: State)
    requires Roles(s) && NextRefresh(s, step, t)
    ensures Roles(t)
  {
  }

  lemma RolesFinish(s: State, step: Step, t: State)
    requires Roles(s) && NextFinish(s, step, t)
    ensures Roles(t)
  {
  }

  lemma StepKeepsRoles(s: State, step: Step, t: State)
    requires Roles(s) && Next(s, step, t)
    ensures Roles(t)
  {
    if NextConnector(s, step, t) {
      RolesConnector(s, step, t);
    } else if NextUsb(s, step, t) {
      RolesUsb(s, step, t);
    } else if NextWork(s, step, t) {
      RolesWork(s, step, t);
    } else if NextRefresh(s, step, t) {
      RolesRefresh(s, step, t);
    } else {
      RolesFinish(s, step, t);
    }
  }

  ghost predicate IsRun(run: seq<State>, steps: seq<Step>) {
    |run| == |steps| + 1 && Init(run[0]) && forall k | 0 <= k < |steps| :: Next(run[k], steps[k], run[k + 1])
  }

  /** Over every run: the invariant holds, pending follow-ups always have their work, and as long
      as no step drops an owed event all of them have somebody in charge. */
  lemma {:induction false} EveryRun(run: seq<State>, steps: seq<Step>, k: nat)
    requires IsRun(run, steps) && k < |run|
    ensures Inv(run[k]) && Roles(run[k])
    ensures (forall m, i | 0 <= m < k && i in run[m].owed :: !Drops(run[m], steps[m], i)) ==> Tracked(run[k])
    decreases k
  {
    if k == 0 {
      InitInv(run[0]);
      InitTracked(run[0]);
    } else {
      EveryRun(run, steps, k - 1);
      assert Next(run[k - 1], steps[k - 1], run[k - 1 + 1]);
      StepKeepsInv(run[k - 1], steps[k - 1], run[k]);
      StepKeepsRoles(run[k - 1], steps[k - 1], run[k]);
      if forall m, i | 0 <= m < k && i in run[m].owed :: !Drops(run[m], steps[m], i) {
        TrackedExactlyUnlessDropped(run[k - 1], steps[k - 1], run[k]);
      }
    }
  }

  /** With the notifier and the follow-up work at rest, every event somebody is in charge of has its
      follow-up work queued. */
  lemma OwedIsQueued(s: State, i: nat)
    requires Inv(s) && InCharge(s, i) && PcOf(s, Notifier) == Idle && PcOf(s, UsbWork(i)) == Idle
    ensures i in s.pending && i in s.queued
  {
    assert i in s.pending && Covered(s, i);
  }
}
