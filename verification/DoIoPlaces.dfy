/** Where callers and timeout callbacks can wait: what every run of the blocking-call protocol keeps besides its invariant,
    and what stopping() means for the calls. */
module DoIoPlaces {
  import opened IoEvents
  import Semaphores
  import opened Runtime
  import opened RuntimeProofs
  import RR = RuntimeRuns
  import SlotLedger
  import opened DoIo
  import opened DoIoProofs
  import opened DoIoRuns

  ghost predicate InAnySem(s: Rt, f: nat) { exists id :: id in s.sems && f in s.sems[id].waiters }

  /** A caller is in no semaphore and was not dropped. */
  ghost predicate CallerPlaced(s: Rt, f: nat) { WFiber(f) !in s.dropped && !InAnySem(s, f) }

  predicate UnpinnedEntry(t: Task, c: nat) { t.work == WCallback(c) ==> t.thread == -1 }

  /** A callback is in no event slot, and may run on any thread when it is queued. */
  ghost predicate CallbackPlaced(s: Rt, c: nat)
  {
    && (forall fd: nat, ev :: WaiterAt(s.io, fd, ev) != Some(WCallback(c)))
    && (forall i :: 0 <= i < |s.queue| ==> UnpinnedEntry(s.queue[i], c))
  }

  ghost predicate Placed(s: Sys)
  {
    (forall f :: f in s.calls ==> CallerPlaced(s.rt, f)) && (forall c :: c in s.owner ==> CallbackPlaced(s.rt, c))
  }

  // ---- steps of the runtime ----

  predicate DropsFiber(s: Rt, x: RR.Step, f: nat) { x.DoDropEvent? && WaiterAt(s.io, x.fd, x.ev) == Some(WFiber(f)) }

  lemma CallerThrough(s: Rt, x: RR.Step, f: nat)
    requires RR.Enabled(s, x) && CallerPlaced(s, f) && !TakenBy(s, x, f) && !DropsFiber(s, x, f)
    ensures CallerPlaced(RR.Next(s, x), f)
  {
    hide FirstEligible, AddEvent, Covered, CancelEvent, CancelAll, Dispatch, DispatchSafe, DelEvent, WaiterAt;
    var t := RR.Next(s, x);
    forall id | id in t.sems ensures f !in t.sems[id].waiters {
      assert id in s.sems && f !in s.sems[id].waiters;
    }
  }

  /** The step puts callback c somewhere. */
  predicate Issues(x: RR.Step, c: nat) { (x.DoSubmitCallback? || x.DoRegisterCallback?) && x.c == c }

  lemma QueueThrough(s: Rt, x: RR.Step, c: nat)
    requires RR.Enabled(s, x) && !Issues(x, c) && forall i :: 0 <= i < |s.queue| ==> UnpinnedEntry(s.queue[i], c)
    ensures forall i :: 0 <= i < |RR.Next(s, x).queue| ==> UnpinnedEntry(RR.Next(s, x).queue[i], c)
  {
    hide Eligible, AddEvent, Covered, CancelEvent, CancelAll, Dispatch, DispatchSafe, DelEvent, WaiterAt;
    var t := RR.Next(s, x);
    forall k | 0 <= k < |t.queue| ensures UnpinnedEntry(t.queue[k], c) {
      if x.DoPick? {
        assert t.queue[k] == if k < x.i then s.queue[k] else s.queue[k + 1];
      } else if k < |s.queue| {
        assert t.queue[k] == s.queue[k];
      }
    }
  }

  lemma SlotsThrough(s: Rt, x: RR.Step, c: nat)
    requires RtInv(s) && RR.Enabled(s, x) && !Issues(x, c)
    requires forall fd: nat, ev :: WaiterAt(s.io, fd, ev) != Some(WCallback(c))
    ensures forall fd: nat, ev :: WaiterAt(RR.Next(s, x).io, fd, ev) != Some(WCallback(c))
  {
    hide RR.Enabled, RR.Next, RtInv, WaiterAt, SlotLedger.Queued, SlotLedger.Dropped, SlotLedger.Drops, SlotLedger.Releases;
    forall fd: nat, ev ensures WaiterAt(RR.Next(s, x).io, fd, ev) != Some(WCallback(c)) {
      SlotLedger.SlotStep(s, x, fd, ev);
    }
  }

  lemma CallbackThrough(s: Rt, x: RR.Step, c: nat)
    requires RtInv(s) && RR.Enabled(s, x) && !Issues(x, c) && CallbackPlaced(s, c)
    ensures CallbackPlaced(RR.Next(s, x), c)
  {
    hide RR.Enabled, RR.Next, RtInv, WaiterAt, UnpinnedEntry;
    QueueThrough(s, x, c);
    SlotsThrough(s, x, c);
  }

  /** A callback that was never issued is nowhere. */
  lemma UnissuedPlaced(s: Rt, c: nat)
    requires RtInv(s) && c !in s.issued
    ensures CallbackPlaced(s, c)
  {
    hide IoEvents.Inv, Waits, WaiterAt;
    assert CallbackOk(s, c);
    forall fd: nat, ev ensures WaiterAt(s.io, fd, ev) != Some(WCallback(c)) {
      if WaiterAt(s.io, fd, ev) == Some(WCallback(c)) { SlotWaits(s, fd, ev); }
    }
    forall i | 0 <= i < |s.queue| ensures UnpinnedEntry(s.queue[i], c) {
      QueuedWaits(s, i);
    }
  }

  /** A fiber that runs and has not registered is placed as a caller should be. */
  lemma RunningPlaced(s: Rt, w: int)
    requires RtInv(s) && RR.IsFreeToAct(s, w)
    ensures CallerPlaced(s, s.workers[w].f)
  {
    hide IoEvents.Inv, Waits;
    var f := s.workers[w].f;
    RunningCaller(s, w);
    RunningWaitsNowhere(s, w);
    assert FiberOk(s, f);
    if InAnySem(s, f) { SemWaits(s, f); }
  }

  lemma SemWaits(s: Rt, f: nat)
    requires InAnySem(s, f)
    ensures Waits(s, WFiber(f))
  {
    var id :| id in s.sems && f in s.sems[id].waiters;
    var i :| 0 <= i < |s.sems[id].waiters| && s.sems[id].waiters[i] == f;
    assert At(s, WFiber(f), InSem(id, i));
  }

  // ---- every step ----

  /** The runtime part took one step that is none of the caller's own and issues none of the timeout callbacks. */
  lemma PlacedThrough(s: Sys, t: Sys, x: RR.Step)
    requires Placed(s) && RtInv(s.rt) && RR.Enabled(s.rt, x) && t.rt == RR.Next(s.rt, x)
    requires t.calls.Keys <= s.calls.Keys && t.owner == s.owner
    requires forall f :: f in t.calls ==> !DropsFiber(s.rt, x, f) && (TakenBy(s.rt, x, f) ==> !x.DoSemWait?)
    requires forall c :: c in s.owner ==> !Issues(x, c)
    ensures Placed(t)
  {
    hide RR.Enabled, RR.Next, RtInv, CallerPlaced, CallbackPlaced, TakenBy;
    forall f | f in t.calls ensures CallerPlaced(t.rt, f) {
      if TakenBy(s.rt, x, f) { OwnStepPlaced(s.rt, x, f); } else { CallerThrough(s.rt, x, f); }
    }
    forall c | c in t.owner ensures CallbackPlaced(t.rt, c) { CallbackThrough(s.rt, x, c); }
  }

  lemma OwnStepPlaced(s: Rt, x: RR.Step, f: nat)
    requires RR.Enabled(s, x) && CallerPlaced(s, f) && TakenBy(s, x, f) && !x.DoSemWait?
    ensures CallerPlaced(RR.Next(s, x), f)
  {
    hide AddEvent, Covered, WaiterAt;
    var t := RR.Next(s, x);
    assert t.sems == s.sems && t.dropped == s.dropped;
  }

  lemma StepPlaced(s: Sys, step: Step)
    requires SysInv(s) && Placed(s) && Enabled(s, step)
    ensures Placed(Next(s, step))
  {
    hide RtInv, RR.Enabled, RR.Next, CallerPlaced, CallbackPlaced, CallOk, TimerOk, StartCallback, Finish, CancelIn;
    match step
    case SBegin(w, _, _, _, _) => RunningPlaced(s.rt, w);
    case SReturn(w) =>
    case SArm(w, c) => UnissuedPlaced(s.rt, c);
    case SRegister(w, kernel) => RegisterPlaced(s, w, kernel);
    case SYield(w) => YieldPlaced(s, w);
    case SResume(w) =>
    case SExpire(c) => ExpirePlaced(s, c);
    case SRunTimer(w, g, f, alive, kernel) => TimerPlaced(s, w, g, f, alive, kernel);
    case SRuntime(x) => RuntimePlaced(s, x);
  }

  lemma RegisterPlaced(s: Sys, w: int, kernel: bool)
    requires SysInv(s) && Placed(s) && Enabled(s, SRegister(w, kernel))
    ensures Placed(Register(s, w, RunningFiber(s, w), kernel))
  {
    hide RtInv, RR.Next, CallerPlaced, CallbackPlaced, CallOk, TimerOk, AddEvent, Covered, WaiterAt;
    var x := s.calls[RunningFiber(s, w)];
    PlacedThrough(s, Register(s, w, RunningFiber(s, w), kernel), RR.DoRegisterFiber(w, x.fd, x.ev, kernel));
  }

  lemma YieldPlaced(s: Sys, w: int)
    requires SysInv(s) && Placed(s) && Enabled(s, SYield(w))
    ensures Placed(s.(rt := YieldHold(s.rt, w)))
  {
    hide RtInv, CallerPlaced, CallbackPlaced, CallOk, TimerOk;
    PlacedThrough(s, s.(rt := YieldHold(s.rt, w)), RR.DoYieldHold(w));
  }

  lemma ExpirePlaced(s: Sys, c: nat)
    requires SysInv(s) && Placed(s) && Enabled(s, SExpire(c))
    ensures Placed(Expire(s, c))
  {
    hide RtInv, CallOk, WaiterAt;
    var t := Expire(s, c);
    assert TimerOk(s, c);
    forall f | f in t.calls ensures CallerPlaced(t.rt, f) {
      assert CallerPlaced(s.rt, f);
      assert forall id :: id in t.rt.sems ==> f !in t.rt.sems[id].waiters;
    }
    forall d | d in t.owner ensures CallbackPlaced(t.rt, d) { assert CallbackPlaced(s.rt, d); }
  }

  lemma RuntimePlaced(s: Sys, x: RR.Step)
    requires SysInv(s) && Placed(s) && Enabled(s, SRuntime(x))
    ensures Placed(s.(rt := RR.Next(s.rt, x), calls := Woken(s, x)))
  {
    hide RtInv, RR.Enabled, RR.Next, CallerPlaced, CallbackPlaced, CallOk, TimerOk, WaiterAt;
    PlacedThrough(s, s.(rt := RR.Next(s.rt, x), calls := Woken(s, x)), x);
  }

  lemma TimerPlaced(s: Sys, w: int, g: nat, f: nat, alive: bool, kernel: bool)
    requires SysInv(s) && Placed(s) && Enabled(s, SRunTimer(w, g, f, alive, kernel))
    ensures Placed(RunTimer(s, w, g, f, alive, kernel))
  {
    hide RtInv, CallerPlaced, CallbackPlaced, CallOk, TimerOk, StartCallback, CancelIn, Finish, RR.Enabled, LeavesAlone;
    var t := RunTimer(s, w, g, f, alive, kernel);
    if alive && !s.calls[f].cancelled {
      BodyPlaced(s, w, g, true, s.calls[f].fd, s.calls[f].ev, kernel);
    } else {
      BodyPlaced(s, w, g, false, 0, READ, kernel);
    }
    assert t.owner == s.owner && t.calls.Keys == s.calls.Keys;
  }

  lemma BodyPlaced(s: Sys, w: int, g: nat, cancels: bool, fd: nat, ev: Event, kernel: bool)
    requires RtInv(s.rt) && Placed(s) && RR.Enabled(s.rt, RR.DoStartCallback(w, g))
    ensures Placed(s.(rt := TimerBody(s.rt, w, g, cancels, fd, ev, kernel)))
  {
    hide RtInv, Placed, StartCallback, CancelIn, Finish;
    var a := StartCallback(s.rt, w, g);
    StartLeaves(s.rt, w, g);
    CallbackFiberFree(s.rt, w, g);
    StartPlaced(s, w, g);
    CancelLeaves(a, fd, ev, kernel, 0);
    CancelPlaced(s.(rt := a), fd, ev, kernel);
    var b := if cancels then CancelIn(a, fd, ev, kernel) else a;
    FinishPlaced(s.(rt := b), w);
  }

  lemma StartPlaced(s: Sys, w: int, g: nat)
    requires RtInv(s.rt) && Placed(s) && RR.Enabled(s.rt, RR.DoStartCallback(w, g))
    ensures Placed(s.(rt := StartCallback(s.rt, w, g)))
  {
    hide RtInv, CallerPlaced, CallbackPlaced;
    PlacedThrough(s, s.(rt := StartCallback(s.rt, w, g)), RR.DoStartCallback(w, g));
  }

  lemma CancelPlaced(s: Sys, fd: nat, ev: Event, kernel: bool)
    requires RtInv(s.rt) && Placed(s)
    ensures Placed(s.(rt := CancelIn(s.rt, fd, ev, kernel)))
  {
    hide RtInv, CallerPlaced, CallbackPlaced;
    if fd < |s.rt.io.ctxs| {
      PlacedThrough(s, s.(rt := CancelIn(s.rt, fd, ev, kernel)), RR.DoCancelEvent(fd, ev, kernel));
    }
  }

  lemma FinishPlaced(s: Sys, w: int)
    requires RtInv(s.rt) && Placed(s) && RR.IsFreeToAct(s.rt, w)
    ensures Placed(s.(rt := Finish(s.rt, w, true)))
  {
    hide RtInv, CallerPlaced, CallbackPlaced;
    PlacedThrough(s, s.(rt := Finish(s.rt, w, true)), RR.DoFinish(w, true));
  }

  // ---- runs ----

  lemma {:induction false} RunPlaced(s: Sys, steps: seq<Step>)
    requires SysInv(s) && Placed(s) && Run(s, steps)
    ensures Placed(Exec(s, steps))
    decreases |steps|
  {
    hide SysInv, Placed, Enabled, Next;
    if steps != [] {
      StepKeeps(s, steps[0]);
      StepPlaced(s, steps[0]);
      RunPlaced(Next(s, steps[0]), steps[1..]);
    }
  }

  lemma ReachablePlaced(s0: Sys, steps: seq<Step>)
    requires Init(s0) && Run(s0, steps)
    ensures SysInv(Exec(s0, steps)) && Placed(Exec(s0, steps))
  {
    hide Run, Exec, SysInv;
    RunNone(s0);
    Reachable(s0, []);
    Reachable(s0, steps);
    RunPlaced(s0, steps);
  }

  /** In every run, when stopping() says true no blocking call is in progress and no timeout timer is armed, and the
      runtime is quiet. */
  lemma StoppingEndsCalls(s0: Sys, steps: seq<Step>, ts: RR.TM.State, now: nat, autoStop: bool, stopRequested: bool)
    requires Init(s0) && Run(s0, steps) && RR.TM.Known(ts)
    requires RR.Stopping(Exec(s0, steps).rt, ts, now, autoStop, stopRequested)
    ensures var s := Exec(s0, steps); s.calls == map[] && s.armed == {} && RR.Quiet(s.rt)
  {
    hide Run, Exec, SysInv, Placed, RR.Quiet;
    ReachablePlaced(s0, steps);
    IdleHasNoCalls(Exec(s0, steps));
  }

  lemma IdleHasNoCalls(s: Sys)
    requires SysInv(s) && Placed(s) && s.rt.io.pending == 0 && s.rt.queue == [] && s.rt.active == 0
    ensures s.calls == map[] && s.armed == {} && RR.Quiet(s.rt)
  {
    hide RtInv, Waits;
    RR.IdleIsQuiet(s.rt);
    forall f ensures f !in s.calls {
      if f in s.calls {
        assert CallOk(s, f) && CallerPlaced(s.rt, f);
        ParkedNowhere(s.rt, f);
      }
    }
    forall c ensures c !in s.armed { assert TimerOk(s, c); }
  }

  /** A sleeping caller waits in a slot, in the queue or with a worker. */
  lemma ParkedNowhere(s: Rt, f: nat)
    requires RtInv(s) && RR.Quiet(s) && s.queue == [] && CallerPlaced(s, f)
    ensures !(f in s.fibers && s.fibers[f] in {EXEC, HOLD})
  {
    hide IoEvents.Inv, Hosted, WaiterAt;
    assert FiberOk(s, f);
    forall l ensures !At(s, WFiber(f), l) {
      if l.InSem? && l.id in s.sems && 0 <= l.i < |s.sems[l.id].waiters| {
        assert s.sems[l.id].waiters[l.i] in s.sems[l.id].waiters;
      }
    }
  }
}
