/** The blocking-call protocol keeps its invariant, and what follows for its callers. */
module DoIoProofs {
  import opened IoEvents
  import opened Runtime
  import opened RuntimeTokens
  import opened RuntimeProofs
  import RR = RuntimeRuns
  import opened DoIo

  // ---- what a runtime step leaves alone ----

  /** The step is taken by fiber f itself. */
  predicate TakenBy(s: Rt, step: RR.Step, f: nat)
  {
    (step.DoYieldHold? || step.DoYieldReady? || step.DoFinish? || step.DoRegisterFiber? || step.DoSemWait?)
    && RR.IsRunning(s, step.w) && s.workers[step.w].f == f
  }

  predicate SwapsIn(s: Rt, step: RR.Step, f: nat)
  {
    step.DoSwapIn? && RR.Holds(s, step.w) && s.workers[step.w].task.work == WFiber(f)
  }

  /** A started fiber changes state only by its own steps, except that a sleeping one is swapped in. */
  lemma FiberFrame(s: Rt, step: RR.Step, f: nat)
    requires RtInv(s) && RR.Enabled(s, step) && f in s.fibers && s.fibers[f] in {EXEC, HOLD} && !TakenBy(s, step, f)
    ensures var t := RR.Next(s, step);
            && f in t.fibers && t.fibers[f] == (if SwapsIn(s, step, f) then EXEC else s.fibers[f])
            && (f in t.registered <==> f in s.registered)
            && (SwapsIn(s, step, f) ==> s.fibers[f] == HOLD && f !in s.registered)
  {
    hide At, Waits, WaiterAt, IoEvents.Inv, FirstEligible, Unique, Execution, CallbackOk;
    if step.DoStartCallback? {
      assert KeepOk(s, step.w);
    } else if step.DoSwapIn? {
      assert FiberOk(s, f);
    }
  }

  lemma CtxsGrow(s: Rt, step: RR.Step)
    requires RtInv(s) && RR.Enabled(s, step)
    ensures |RR.Next(s, step).io.ctxs| >= |s.io.ctxs|
  {
    hide RtInv, At, Waits, WaiterAt, FirstEligible;
  }

  predicate StartsCallback(s: Rt, step: RR.Step, c: nat)
  {
    step.DoStartCallback? && RR.Holds(s, step.w) && s.workers[step.w].task.work == WCallback(c)
  }

  predicate DropsCallback(s: Rt, step: RR.Step, c: nat)
  {
    step.DoDropEvent? && WaiterAt(s.io, step.fd, step.ev) == Some(WCallback(c))
  }

  /** A waiting callback goes on waiting until it is started or deleted. */
  lemma CallbackFrame(s: Rt, step: RR.Step, c: nat)
    requires RtInv(s) && RR.Enabled(s, step) && Waits(s, WCallback(c))
    requires !StartsCallback(s, step, c) && !DropsCallback(s, step, c)
    ensures Waits(RR.Next(s, step), WCallback(c))
  {
    hide At, Waits, WaiterAt, IoEvents.Inv, FirstEligible, Unique, Execution, FiberOk;
    var t := RR.Next(s, step);
    assert CallbackOk(s, c);
    RR.NextKeeps(s, step);
    assert CallbackOk(t, c);
    NotHosted(s, c);
    assert forall f :: f in t.host ==> t.host[f] != c;
    assert !Hosted(t, c);
  }

  lemma IssuedGrows(s: Rt, step: RR.Step)
    requires RR.Enabled(s, step)
    ensures RR.Next(s, step).issued ==
            s.issued + (if step.DoSubmitCallback? || step.DoRegisterCallback? then {step.c} else {})
  {
    hide FirstEligible, WaiterAt;
  }

  // ---- the invariant under a change elsewhere ----

  ghost predicate Ids(s: Sys)
  {
    forall f, g :: f in s.calls && g in s.calls && s.calls[f].id == s.calls[g].id ==> f == g
  }

  /** The ledgers only grow. */
  ghost predicate Extends(s: Sys, t: Sys)
  {
    && s.used <= t.used && |s.rt.io.ctxs| <= |t.rt.io.ctxs|
    && (forall c :: c in s.owner ==> c in t.owner && t.owner[c] == s.owner[c])
  }

  ghost predicate OnItsWay(s: Sys, c: nat) { c in s.armed || Waits(s.rt, WCallback(c)) }

  /** Nothing the invariant says about the call of fiber f changed. */
  ghost predicate SameCall(s: Sys, t: Sys, f: nat)
    requires f in s.calls && f in s.rt.fibers
  {
    && f in t.calls && t.calls[f] == s.calls[f]
    && f in t.rt.fibers && t.rt.fibers[f] == s.rt.fibers[f] && (f in t.rt.registered <==> f in s.rt.registered)
    && (s.calls[f].id in s.fired ==> s.calls[f].id in t.fired && t.fired[s.calls[f].id] == s.fired[s.calls[f].id])
    && (s.calls[f].timer.Some? && OnItsWay(s, s.calls[f].timer.value) ==> OnItsWay(t, s.calls[f].timer.value))
  }

  lemma CallKept(s: Sys, t: Sys, f: nat)
    requires f in s.calls && CallOk(s, f) && Extends(s, t) && SameCall(s, t, f)
    ensures CallOk(t, f)
  {
    hide Waits;
  }

  /** No timer is newly armed, and every one that stays armed keeps its call. */
  lemma TimersKept(s: Sys, t: Sys)
    requires (forall c :: TimerOk(s, c)) && t.armed <= s.armed && t.owner == s.owner && s.used <= t.used
    requires forall c :: c in t.armed && c in t.rt.issued ==> c in s.rt.issued
    requires forall f :: f in s.calls && s.calls[f].timer.Some? && s.calls[f].timer.value in t.armed ==>
                         f in t.calls && t.calls[f].timer == s.calls[f].timer
    ensures forall c :: TimerOk(t, c)
  {
    forall c ensures TimerOk(t, c) {
      assert TimerOk(s, c);
      if c in t.armed {
        var g :| g in s.calls && s.calls[g].timer == Some(c);
        assert g in t.calls && t.calls[g].timer == Some(c);
      }
    }
  }

  // ---- the caller's steps ----

  lemma RunningCaller(s: Rt, w: int)
    requires RtInv(s) && RR.IsRunning(s, w)
    ensures s.workers[w].f in s.fibers && s.fibers[s.workers[w].f] == EXEC
  {
    hide At, Waits, IoEvents.Inv;
    assert Runs(s, s.workers[w].f, w);
  }

  lemma BeginKeeps(s: Sys, w: int, id: nat, fd: nat, ev: Event, timed: bool)
    requires SysInv(s) && Enabled(s, SBegin(w, id, fd, ev, timed))
    ensures SysInv(Begin(s, RunningFiber(s, w), id, fd, ev, timed))
  {
    hide RtInv, Waits;
    RunningCaller(s.rt, w);
    var f := RunningFiber(s, w);
    var t := Begin(s, f, id, fd, ev, timed);
    forall g | g in t.calls && g != f ensures CallOk(t, g) { CallKept(s, t, g); }
    TimersKept(s, t);
  }

  lemma ReturnKeeps(s: Sys, w: int)
    requires SysInv(s) && Enabled(s, SReturn(w))
    ensures SysInv(Return(s, RunningFiber(s, w)))
  {
    hide RtInv, Waits;
    var f := RunningFiber(s, w);
    var t := Return(s, f);
    forall g | g in t.calls ensures CallOk(t, g) { CallKept(s, t, g); }
    TimersKept(s, t);
  }

  lemma ArmKeeps(s: Sys, w: int, c: nat)
    requires SysInv(s) && Enabled(s, SArm(w, c))
    ensures SysInv(Arm(s, RunningFiber(s, w), c))
  {
    hide RtInv, Waits;
    var f := RunningFiber(s, w);
    var t := Arm(s, f, c);
    forall g | g in t.calls && g != f ensures CallOk(t, g) { CallKept(s, t, g); }
    ArmTimers(s, w, c);
  }

  lemma ArmTimers(s: Sys, w: int, c: nat)
    requires SysInv(s) && Enabled(s, SArm(w, c))
    ensures forall d :: TimerOk(Arm(s, RunningFiber(s, w), c), d)
  {
    hide RtInv, Waits;
    var f := RunningFiber(s, w);
    var t := Arm(s, f, c);
    assert CallOk(s, f);
    forall d ensures TimerOk(t, d) {
      assert TimerOk(s, d);
      if d in s.armed {
        var g :| g in s.calls && s.calls[g].timer == Some(d);
        assert g in t.calls && t.calls[g].timer == Some(d);
      } else if d in t.armed {
        assert f in t.calls && t.calls[f].timer == Some(d);
      }
    }
  }

  /** A timer belongs to one call. */
  lemma OwnTimer(s: Sys, f: nat, g: nat)
    requires Ids(s) && f in s.calls && g in s.calls && CallOk(s, f) && CallOk(s, g) && f != g
    ensures s.calls[f].timer.Some? ==> s.calls[g].timer != s.calls[f].timer
  {
    hide Waits;
  }

  lemma ResumeKeeps(s: Sys, w: int)
    requires SysInv(s) && Enabled(s, SResume(w))
    ensures SysInv(Resume(s, RunningFiber(s, w)))
  {
    hide RtInv, Waits;
    RunningCaller(s.rt, w);
    var f := RunningFiber(s, w);
    var t := Resume(s, f);
    forall g | g in t.calls && g != f ensures CallOk(t, g) {
      OwnTimer(s, f, g);
      CallKept(s, t, g);
    }
    TimersKept(s, t);
  }

  // ---- steps of the runtime ----

  /** A runtime step that neither the caller takes nor wakes it, and that leaves its timer's callback waiting. */
  lemma CallThrough(s: Sys, t: Sys, step: RR.Step, f: nat)
    requires RtInv(s.rt) && RR.Enabled(s.rt, step) && t.rt == RR.Next(s.rt, step)
    requires f in s.calls && CallOk(s, f) && f in t.calls && t.calls[f] == s.calls[f]
    requires s.used <= t.used && t.owner == s.owner && t.fired == s.fired
    requires !TakenBy(s.rt, step, f) && !SwapsIn(s.rt, step, f)
    requires s.calls[f].timer.Some? ==>
               var c := s.calls[f].timer.value;
               (c in s.armed ==> OnItsWay(t, c)) && !StartsCallback(s.rt, step, c) && !DropsCallback(s.rt, step, c)
    ensures CallOk(t, f)
  {
    hide RtInv, Waits, RR.Enabled, RR.Next, TakenBy, SwapsIn, StartsCallback, DropsCallback;
    FiberFrame(s.rt, step, f);
    CtxsGrow(s.rt, step);
    var x := s.calls[f];
    if x.timer.Some? && Waits(s.rt, WCallback(x.timer.value)) {
      CallbackFrame(s.rt, step, x.timer.value);
    }
    CallKept(s, t, f);
  }

  lemma YieldKeeps(s: Sys, w: int)
    requires SysInv(s) && Enabled(s, SYield(w))
    ensures SysInv(s.(rt := YieldHold(s.rt, w)))
  {
    hide RtInv, Waits;
    var t, f, step := s.(rt := YieldHold(s.rt, w)), RunningFiber(s, w), RR.DoYieldHold(w);
    RunningCaller(s.rt, w);
    RR.NextKeeps(s.rt, step);
    forall g | g in t.calls ensures CallOk(t, g) {
      if g != f { CallThrough(s, t, step, g); } else { YieldCall(s, w); }
    }
    TimersKept(s, t);
  }

  lemma YieldCall(s: Sys, w: int)
    requires SysInv(s) && Enabled(s, SYield(w))
    ensures CallOk(s.(rt := YieldHold(s.rt, w)), RunningFiber(s, w))
  {
    hide Waits;
    var t, f := s.(rt := YieldHold(s.rt, w)), RunningFiber(s, w);
    RunningCaller(s.rt, w);
    assert CallOk(s, f);
    var x := s.calls[f];
    if x.timer.Some? && Waits(s.rt, WCallback(x.timer.value)) {
      CallbackFrame(s.rt, RR.DoYieldHold(w), x.timer.value);
    }
  }

  lemma RegisterKeeps(s: Sys, w: int, kernel: bool)
    requires SysInv(s) && Enabled(s, SRegister(w, kernel))
    ensures SysInv(Register(s, w, RunningFiber(s, w), kernel))
  {
    hide RtInv, Waits, RR.Next, RR.Enabled;
    var f := RunningFiber(s, w);
    var x := s.calls[f];
    var t, step := Register(s, w, f, kernel), RR.DoRegisterFiber(w, x.fd, x.ev, kernel);
    RunningCaller(s.rt, w);
    RR.NextKeeps(s.rt, step);
    IssuedGrows(s.rt, step);
    forall g | g in t.calls ensures CallOk(t, g) {
      if g != f {
        OwnTimer(s, f, g);
        CallThrough(s, t, step, g);
      } else {
        RegisterCall(s, w);
      }
    }
    TimersKept(s, t);
  }

  lemma RegisterCall(s: Sys, w: int)
    requires SysInv(s) && Enabled(s, SRegister(w, true))
    ensures CallOk(Register(s, w, RunningFiber(s, w), true), RunningFiber(s, w))
  {
    hide RtInv, Waits, RR.Next, RR.Enabled;
    var f := RunningFiber(s, w);
    var x := s.calls[f];
    var t, step := Register(s, w, f, true), RR.DoRegisterFiber(w, x.fd, x.ev, true);
    RunningCaller(s.rt, w);
    if x.timer.Some? && Waits(s.rt, WCallback(x.timer.value)) {
      CallbackFrame(s.rt, step, x.timer.value);
    }
    RegisterRt(s.rt, w, x.fd, x.ev);
    assert CallOk(s, f);
  }

  lemma RegisterRt(s: Rt, w: int, fd: nat, ev: Event)
    requires RtInv(s) && RR.Enabled(s, RR.DoRegisterFiber(w, fd, ev, true))
    ensures var t := RR.Next(s, RR.DoRegisterFiber(w, fd, ev, true));
            t.fibers == s.fibers && t.registered == s.registered + {s.workers[w].f} && fd < |t.io.ctxs|
  {
    hide RtInv, IoEvents.Inv, WaiterAt;
    RR.RtIo(s);
    AddEventKeeps(s.io, fd, ev, WFiber(s.workers[w].f), true);
  }

  lemma ExpireKeeps(s: Sys, c: nat)
    requires SysInv(s) && Enabled(s, SExpire(c))
    ensures SysInv(Expire(s, c))
  {
    hide RtInv, Waits;
    assert TimerOk(s, c);
    var t, step := Expire(s, c), RR.DoSubmitCallback(c, -1);
    RR.NextKeeps(s.rt, step);
    IssuedGrows(s.rt, step);
    QueuedWaits(t.rt, |s.rt.queue|);
    forall g | g in t.calls ensures CallOk(t, g) { CallThrough(s, t, step, g); }
    TimersKept(s, t);
  }

  // ---- the timeout callback ----

  /** Everything a timeout callback does to the runtime, as three of its steps. */
  function TimerBody(s: Rt, w: int, g: nat, cancels: bool, fd: nat, ev: Event, kernel: bool): Rt
    requires RR.Enabled(s, RR.DoStartCallback(w, g))
  {
    var started := StartCallback(s, w, g);
    Finish(if cancels then CancelIn(started, fd, ev, kernel) else started, w, true)
  }

  /** The callback fiber waits nowhere and is in no call. */
  lemma CallbackFiberFree(s: Rt, w: int, g: nat)
    requires RtInv(s) && RR.Enabled(s, RR.DoStartCallback(w, g))
    ensures var t := StartCallback(s, w, g);
            && RR.IsFreeToAct(t, w)
            && !(t.workers[w].f in s.fibers && s.fibers[t.workers[w].f] in {EXEC, HOLD})
            && |t.io.ctxs| == |s.io.ctxs|
  {
    hide At, Waits, IoEvents.Inv;
    assert KeepOk(s, w);
    var t := StartCallback(s, w, g);
    assert FiberOk(s, t.workers[w].f);
  }

  /** What a timeout callback leaves alone: started fibers, registrations, and every other waiting callback. */
  ghost predicate LeavesAlone(s: Rt, t: Rt, c: nat)
  {
    && RtInv(t) && t.issued == s.issued && t.registered == s.registered && |t.io.ctxs| >= |s.io.ctxs|
    && (forall f :: f in s.fibers && s.fibers[f] in {EXEC, HOLD} ==> f in t.fibers && t.fibers[f] == s.fibers[f])
    && (forall d :: d != c && Waits(s, WCallback(d)) ==> Waits(t, WCallback(d)))
  }

  lemma StartLeaves(s: Rt, w: int, g: nat)
    requires RtInv(s) && RR.Enabled(s, RR.DoStartCallback(w, g))
    ensures LeavesAlone(s, StartCallback(s, w, g), s.workers[w].task.work.c)
  {
    hide RtInv, Waits;
    var step := RR.DoStartCallback(w, g);
    RR.NextKeeps(s, step);
    CallbackFiberFree(s, w, g);
    forall d | d != s.workers[w].task.work.c && Waits(s, WCallback(d)) ensures Waits(RR.Next(s, step), WCallback(d)) {
      CallbackFrame(s, step, d);
    }
  }

  lemma CancelLeaves(s: Rt, fd: nat, ev: Event, kernel: bool, c: nat)
    requires RtInv(s)
    ensures LeavesAlone(s, CancelIn(s, fd, ev, kernel), c)
    ensures CancelIn(s, fd, ev, kernel).workers == s.workers
  {
    hide RtInv, Waits;
    if fd < |s.io.ctxs| {
      var step := RR.DoCancelEvent(fd, ev, kernel);
      RR.NextKeeps(s, step);
      CtxsGrow(s, step);
      forall d | Waits(s, WCallback(d)) ensures Waits(RR.Next(s, step), WCallback(d)) {
        CallbackFrame(s, step, d);
      }
    }
  }

  lemma FinishLeaves(s: Rt, w: int, c: nat)
    requires RtInv(s) && RR.IsFreeToAct(s, w)
    ensures var t := Finish(s, w, true);
            && RtInv(t) && t.issued == s.issued && t.registered == s.registered && t.io == s.io
            && (forall f :: f in s.fibers && f != s.workers[w].f ==> f in t.fibers && t.fibers[f] == s.fibers[f])
            && (forall d :: d != c && Waits(s, WCallback(d)) ==> Waits(t, WCallback(d)))
  {
    hide RtInv, Waits;
    var step := RR.DoFinish(w, true);
    RR.NextKeeps(s, step);
    forall d | Waits(s, WCallback(d)) ensures Waits(RR.Next(s, step), WCallback(d)) {
      CallbackFrame(s, step, d);
    }
  }

  lemma TimerBodyLeaves(s: Rt, w: int, g: nat, cancels: bool, fd: nat, ev: Event, kernel: bool)
    requires RtInv(s) && RR.Enabled(s, RR.DoStartCallback(w, g))
    ensures LeavesAlone(s, TimerBody(s, w, g, cancels, fd, ev, kernel), s.workers[w].task.work.c)
  {
    hide RtInv, Waits, StartCallback, CancelIn, Finish;
    var a, c := StartCallback(s, w, g), s.workers[w].task.work.c;
    StartLeaves(s, w, g);
    CallbackFiberFree(s, w, g);
    CancelLeaves(a, fd, ev, kernel, c);
    var b := if cancels then CancelIn(a, fd, ev, kernel) else a;
    FinishLeaves(b, w, c);
  }

  lemma RunTimerRt(s: Sys, w: int, g: nat, f: nat, alive: bool, kernel: bool)
    requires SysInv(s) && Enabled(s, SRunTimer(w, g, f, alive, kernel))
    ensures LeavesAlone(s.rt, RunTimer(s, w, g, f, alive, kernel).rt, HeldCallback(s.rt, w))
  {
    hide RtInv, Waits, StartCallback, CancelIn, Finish, LeavesAlone, CallOk, TimerOk;
    if alive && !s.calls[f].cancelled {
      TimerBodyLeaves(s.rt, w, g, true, s.calls[f].fd, s.calls[f].ev, kernel);
    } else {
      TimerBodyLeaves(s.rt, w, g, false, 0, READ, kernel);
    }
  }

  /** The callback c ran: a call other than the one it marks keeps what it has, and a marked one needs no timer. */
  lemma CallPastTimer(s: Sys, t: Sys, c: nat, h: nat)
    requires h in s.calls && CallOk(s, h) && h in t.calls && LeavesAlone(s.rt, t.rt, c)
    requires t.armed == s.armed && t.owner == s.owner && t.used == s.used
    requires t.calls[h] == s.calls[h] || t.calls[h] == s.calls[h].(cancelled := true)
    requires s.calls[h].timer == Some(c) ==> t.calls[h].cancelled
    requires t.calls[h].cancelled ==>
               var id := s.calls[h].id; id in t.fired && t.fired[id] in t.owner && t.owner[t.fired[id]] == id
    ensures CallOk(t, h)
  {
    hide RtInv, Waits;
  }

  lemma RunTimerKeeps(s: Sys, w: int, g: nat, f: nat, alive: bool, kernel: bool)
    requires SysInv(s) && Enabled(s, SRunTimer(w, g, f, alive, kernel))
    ensures SysInv(RunTimer(s, w, g, f, alive, kernel))
  {
    hide RtInv, Waits, StartCallback, CancelIn, Finish, RR.Enabled, CallOk, TimerOk, HoldsCallback, HeldCallback, LeavesAlone;
    var c, t := HeldCallback(s.rt, w), RunTimer(s, w, g, f, alive, kernel);
    RunTimerRt(s, w, g, f, alive, kernel);
    TimerLedgers(s, w, g, f, alive, kernel);
    forall h | h in t.calls ensures CallOk(t, h) {
      TimerTouches(s, w, g, f, alive, kernel, h);
      CallPastTimer(s, t, c, h);
    }
    TimersKept(s, t);
  }

  /** What a timeout callback does to the calls: at most it marks its own, and records itself as the cause. */
  lemma TimerTouches(s: Sys, w: int, g: nat, f: nat, alive: bool, kernel: bool, h: nat)
    requires SysInv(s) && Enabled(s, SRunTimer(w, g, f, alive, kernel)) && h in s.calls
    ensures var t, c := RunTimer(s, w, g, f, alive, kernel), HeldCallback(s.rt, w);
            && t.armed == s.armed && t.owner == s.owner && t.used == s.used && t.calls.Keys == s.calls.Keys
            && t.calls[h] == (if s.calls[h].id == s.owner[c] then s.calls[h].(cancelled := true) else s.calls[h])
            && (s.calls[h].timer == Some(c) ==> t.calls[h].cancelled)
            && (t.calls[h].cancelled ==>
                  var id := s.calls[h].id; id in t.fired && t.fired[id] in t.owner && t.owner[t.fired[id]] == id)
  {
    hide RtInv, Waits, StartCallback, CancelIn, Finish, RR.Enabled, TimerOk, HoldsCallback, HeldCallback;
    var c := HeldCallback(s.rt, w);
    assert CallOk(s, h);
    if s.calls[h].id == s.owner[c] { assert LiveCall(s, s.owner[c], h); }
  }

  lemma TimerLedgers(s: Sys, w: int, g: nat, f: nat, alive: bool, kernel: bool)
    requires SysInv(s) && Enabled(s, SRunTimer(w, g, f, alive, kernel))
    ensures var t := RunTimer(s, w, g, f, alive, kernel);
            && RtInv(t.rt) && t.rt.issued == s.rt.issued && t.armed == s.armed && t.owner == s.owner && t.used == s.used
            && t.calls.Keys == s.calls.Keys
            && (forall h :: h in s.calls ==> t.calls[h].id == s.calls[h].id && t.calls[h].timer == s.calls[h].timer)
  {
    hide RtInv, Waits, StartCallback, CancelIn, Finish, RR.Enabled, CallOk, TimerOk, HoldsCallback, HeldCallback;
    RunTimerRt(s, w, g, f, alive, kernel);
  }

  // ---- everybody else's steps ----

  lemma RuntimeKeeps(s: Sys, step: RR.Step)
    requires SysInv(s) && Enabled(s, SRuntime(step))
    ensures SysInv(s.(rt := RR.Next(s.rt, step), calls := Woken(s, step)))
  {
    hide RtInv, RR.Next, RR.Enabled, WaiterAt, CallOk;
    var t := s.(rt := RR.Next(s.rt, step), calls := Woken(s, step));
    RR.NextKeeps(s.rt, step);
    IssuedGrows(s.rt, step);
    assert forall c :: c in s.armed ==> TimerOk(s, c);
    forall f | f in t.calls ensures CallOk(t, f) {
      RuntimeCall(s, step, f);
    }
    TimersKept(s, t);
  }

  lemma RuntimeCall(s: Sys, step: RR.Step, f: nat)
    requires SysInv(s) && Enabled(s, SRuntime(step)) && f in s.calls
    ensures CallOk(s.(rt := RR.Next(s.rt, step), calls := Woken(s, step)), f)
  {
    hide RtInv, Waits, RR.Next, RR.Enabled, WaiterAt, TimerOk;
    assert CallOk(s, f);
    if SwapsIn(s.rt, step, f) {
      WokenCall(s, step, f);
    } else {
      CallThrough(s, s.(rt := RR.Next(s.rt, step), calls := Woken(s, step)), step, f);
    }
  }

  lemma WokenCall(s: Sys, step: RR.Step, f: nat)
    requires SysInv(s) && Enabled(s, SRuntime(step)) && f in s.calls && SwapsIn(s.rt, step, f)
    ensures CallOk(s.(rt := RR.Next(s.rt, step), calls := Woken(s, step)), f)
  {
    hide RtInv, Waits, RR.Next, RR.Enabled, WaiterAt;
    FiberFrame(s.rt, step, f);
    CtxsGrow(s.rt, step);
    assert CallOk(s, f);
    var x := s.calls[f];
    if x.timer.Some? && Waits(s.rt, WCallback(x.timer.value)) {
      CallbackFrame(s.rt, step, x.timer.value);
    }
  }

  /** Every step of callers, timers and the rest of the runtime keeps the invariant. */
  lemma StepKeeps(s: Sys, step: Step)
    requires SysInv(s) && Enabled(s, step)
    ensures SysInv(Next(s, step))
  {
    hide SysInv, Begin, Return, Arm, Register, YieldHold, Resume, Expire, RunTimer, RR.Enabled, RR.Next, Woken;
    match step
    case SBegin(w, id, fd, ev, timed) => BeginKeeps(s, w, id, fd, ev, timed);
    case SReturn(w) => ReturnKeeps(s, w);
    case SArm(w, c) => ArmKeeps(s, w, c);
    case SRegister(w, kernel) => RegisterKeeps(s, w, kernel);
    case SYield(w) => YieldKeeps(s, w);
    case SResume(w) => ResumeKeeps(s, w);
    case SExpire(c) => ExpireKeeps(s, c);
    case SRunTimer(w, g, f, alive, kernel) => RunTimerKeeps(s, w, g, f, alive, kernel);
    case SRuntime(r) => RuntimeKeeps(s, r);
  }
}
