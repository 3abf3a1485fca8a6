/** What one pass over the sideband learns and completes. */
module SidebandPass {
  import opened Sideband

  /** The two low bits of a port's byte are its orientation, the next two its mux; DisplayPort runs unless the
      mux is off or on USB alone. */
  lemma DecodesFields(orientation: nat, mux: nat, rest: nat)
    requires orientation < 4 && mux < 4
    ensures Decode(orientation + 4 * mux + 16 * rest)
      == Port(orientation, mux, if mux == 0 then 0 else if mux == 1 then 0xff00 else 0xff01)
    ensures Disconnected(Decode(orientation + 4 * mux + 16 * rest)) <==> orientation == 2 && mux == 0
  {
    assert (orientation + 4 * mux + 16 * rest) / 4 == mux + 4 * rest;
  }

  /** A refresh changes the ports it names, and no others. */
  lemma RefreshesNamedPorts(s: State, reg: Reg, i: nat)
    requires |s.ports| == s.n && i < s.n
    ensures |Refreshed(s, reg)| == s.n
    ensures i in reg.updates && i < |reg.bytes| ==> Refreshed(s, reg)[i] == Decode(reg.bytes[i])
    ensures i !in reg.updates ==> Refreshed(s, reg)[i] == s.ports[i]
  {
  }

  /** A USB event that names no port completes a follow-up exactly when that is the only one, or the one of
      the newest connector event. */
  lemma InfersExactly(pending: set<nat>, last: int, i: nat)
    ensures i in Inferred(pending, last) <==> i in pending && (pending == {i} || last == i)
  {
    if |pending| == 1 {
      var x :| x in pending;
      assert |pending - {x}| == 0;
      assert pending == {x};
    }
    if pending == {i} {
      assert |pending| == 1;
    }
  }

  /** What a pass behind a USB event is about to complete: the ports it named, or what it infers. */
  lemma CompletesExactly(s: State, c: Ctx, t: State, i: nat)
    requires NextFinish(s, Infer(c), t)
    ensures PcOf(t, c).Clearing? && t.pending == s.pending
    ensures i in PcOf(t, c).todo <==>
      if PcOf(s, c).mask != {} then i in PcOf(s, c).mask
      else i in s.pending && (s.pending == {i} || s.last == i)
  {
    InfersExactly(s.pending, s.last, i);
  }

  /** So with two follow-ups pending, a pass that named no port leaves alone the one of the older event. */
  lemma OlderFollowUpStays(s: State, c: Ctx, t: State, i: nat, j: nat)
    requires NextFinish(s, Infer(c), t) && PcOf(s, c).mask == {} && s.pending == {i, j} && i != j && s.last == j
    ensures PcOf(t, c).todo == {j} && i in t.pending
  {
    forall k: nat ensures k in PcOf(t, c).todo <==> k == j {
      CompletesExactly(s, c, t, k);
    }
  }

  /** `last` is the port of the newest event the notifier has noted. */
  ghost predicate NewestNoted(run: seq<State>, steps: seq<Step>, k: nat, m: nat)
    requires |run| == |steps| + 1
  {
    && m < k <= |steps| && steps[m] == Note
    && run[k].last >= 0 && PcOf(run[m], Notifier) == Snapshotted(run[k].last)
    && forall j | m < j < k :: steps[j] != Note
  }

  lemma LastStep(s: State, step: Step, t: State)
    requires Next(s, step, t)
    ensures step != Note ==> t.last == s.last
    ensures step == Note ==> t.last >= 0 && PcOf(s, Notifier) == Snapshotted(t.last)
  {
    if NextConnector(s, step, t) {
      LastConnector(s, step, t);
    } else if NextUsb(s, step, t) {
      LastUsb(s, step, t);
    } else if NextWork(s, step, t) {
      LastWork(s, step, t);
    } else if NextRefresh(s, step, t) {
      LastRefresh(s, step, t);
    } else {
      LastFinish(s, step, t);
    }
  }

  lemma LastConnector(s: State, step: Step, t: State)
    requires NextConnector(s, step, t)
    ensures step != Note ==> t.last == s.last
    ensures step == Note ==> t.last >= 0 && PcOf(s, Notifier) == Snapshotted(t.last)
  {
  }

  lemma LastUsb(s: State, step: Step, t: State)
    requires NextUsb(s, step, t)
    ensures t.last == s.last && step != Note
  {
  }

  lemma LastWork(s: State, step: Step, t: State)
    requires NextWork(s, step, t)
    ensures t.last == s.last && step != Note
  {
  }

  lemma LastRefresh(s: State, step: Step, t: State)
    requires NextRefresh(s, step, t)
    ensures t.last == s.last && step != Note
  {
  }

  lemma LastFinish(s: State, step: Step, t: State)
    requires NextFinish(s, step, t)
    ensures t.last == s.last && step != Note
  {
  }

  lemma LastIsNewest(run: seq<State>, steps: seq<Step>, k: nat)
    requires IsRun(run, steps) && k <= |steps|
    ensures if forall j | 0 <= j < k :: steps[j] != Note then run[k].last == -1
            else exists m: nat :: NewestNoted(run, steps, k, m)
  {
    forall m | 0 <= m < |steps|
      ensures steps[m] != Note ==> run[m + 1].last == run[m].last
      ensures steps[m] == Note ==> run[m + 1].last >= 0 && PcOf(run[m], Notifier) == Snapshotted(run[m + 1].last)
    {
      assert Next(run[m], steps[m], run[m + 1]);
      LastStep(run[m], steps[m], run[m + 1]);
    }
    NewestByInduction(run, steps, k);
  }

  lemma {:induction false} NewestByInduction(run: seq<State>, steps: seq<Step>, k: nat)
    requires |run| == |steps| + 1 && k <= |steps| && run[0].last == -1
    requires forall m | 0 <= m < |steps| ::
      && (steps[m] != Note ==> run[m + 1].last == run[m].last)
      && (steps[m] == Note ==> run[m + 1].last >= 0 && PcOf(run[m], Notifier) == Snapshotted(run[m + 1].last))
    ensures if forall j | 0 <= j < k :: steps[j] != Note then run[k].last == -1
            else exists m: nat :: NewestNoted(run, steps, k, m)
  {
    if k > 0 {
      NewestByInduction(run, steps, k - 1);
      if steps[k - 1] == Note {
        assert run[k - 1 + 1].last == run[k].last;
        assert NewestNoted(run, steps, k, k - 1);
      } else if !(forall j | 0 <= j < k - 1 :: steps[j] != Note) {
        var m: nat :| NewestNoted(run, steps, k - 1, m);
        assert run[k - 1 + 1].last == run[k - 1].last;
        assert NewestNoted(run, steps, k, m);
      }
    }
  }

  /** Some port runs DisplayPort, some follow-up is pending, or some connector event was noted. */
  ghost predicate Concerned(run: seq<State>, steps: seq<Step>, k: nat)
    requires k < |run| == |steps| + 1
  {
    || (exists j | 0 <= j < k :: steps[j] == Note) || (exists i: nat :: i in run[k].pending)
    || (exists i | 0 <= i < |run[k].ports| :: run[k].ports[i].svid == SVID_DP)
  }

  ghost predicate TakesUsb(s: State) { exists t :: Next(s, UsbEvent, t) || Next(s, UsbBusy, t) }

  /** An idle notifier looks at a USB event exactly when that can concern it: so at every one after the first
      connector event. */
  lemma UsbTakenExactlyWhen(run: seq<State>, steps: seq<Step>, k: nat)
    requires IsRun(run, steps) && k <= |steps| && PcOf(run[k], Notifier) == Idle
    ensures TakesUsb(run[k]) <==> Concerned(run, steps, k)
  {
    LastIsNewest(run, steps, k);
    var s := run[k];
    if s.pending != {} {
      var i :| i in s.pending;
    }
    assert WorthHandling(s) <==> Concerned(run, steps, k);
    if WorthHandling(s) {
      if s.lock == Free {
        assert Next(s, UsbEvent, Goto(s.(lock := By(Notifier)), Notifier, Refreshing(true)));
      } else {
        assert Next(s, UsbBusy, Goto(s, Notifier, Deferring));
      }
    }
  }
}
