/** Three runs from the initial state, each ending with a caller in its event slot that has a timeout and that no timer
    will release: the callback runs before the first registration, between two rounds, or while the kernel refuses. */
module DoIoWitness {
  import opened IoEvents
  import opened Runtime
  import RR = RuntimeRuns
  import opened DoIo
  import opened DoIoProofs
  import opened DoIoRuns
  import opened DoIoTimeouts

  /** Two workers, nothing submitted. */
  ghost function Fresh(): Sys
  {
    Sys(Rt(map[], {}, [], map[0 := Free, 1 := Free], map[], 0, Io(FreshCtxs(32), map[], 0), map[], map[], {}, {}, {}),
        map[], {}, map[], {}, map[])
  }

  /** Call 7 of fiber 0 on descriptor 3, in the given phase. */
  function TheCall(phase: Phase, cancelled: bool, timer: Option<nat>, wakes: nat): Call
  {
    Call(7, 3, READ, true, phase, cancelled, timer, wakes)
  }

  /** The states of the runs: fiber 0, its call, the queue, the two workers and who is in the slot. */
  ghost predicate Looks(s: Sys, calls: map<nat, Call>, st: FiberState, registered: bool, queue: seq<Task>, w0: Worker,
                        w1: Worker, slot: Option<Waiter>)
  {
    && s.rt.fibers == map[0 := st] && s.rt.registered == (if registered then {0} else {}) && s.rt.queue == queue
    && s.rt.cbFiber == map[] && s.rt.workers == map[0 := w0, 1 := w1] && s.rt.issued <= {9}
    && IoEvents.Inv(s.rt.io) && WaiterAt(s.rt.io, 3, READ) == slot && s.calls == calls
  }

  const RUN0: Worker := Running(0, false, -1)
  const FIBER: Task := Task(WFiber(0), -1)
  const TIMER: Task := Task(WCallback(9), -1)

  /** The ledgers before and after the first arming, and after the timer has expired. */
  ghost predicate Unarmed(s: Sys) { s.owner == map[] && s.armed == {} && s.rt.issued == {} && 7 !in s.used }
  ghost predicate ArmedOnce(s: Sys) { s.owner == map[9 := 7] && s.armed == {9} }
  ghost predicate Expired(s: Sys) { s.owner == map[9 := 7] && s.armed == {} }

  // ---- the steps they share ----

  lemma Submit()
    ensures Init(Fresh()) && var step := SRuntime(RR.DoSubmitFiber(0, -1));
            Enabled(Fresh(), step) && var t := Next(Fresh(), step);
            Unarmed(t) && t.used == {} && Looks(t, map[], INIT, false, [FIBER], Free, Free, None)
  {
    hide AddEvent, DispatchSafe, FirstEligible, IoEvents.Inv;
    RR.InitIo(Fresh().rt.io, 32);
  }

  lemma PickFiber(s: Sys)
    requires Unarmed(s) && Looks(s, map[], INIT, false, [FIBER], Free, Free, None)
    ensures var step := SRuntime(RR.DoPick(0, 0));
            Enabled(s, step) && var t := Next(s, step);
            Unarmed(t) && Looks(t, map[], INIT, false, [], Held(FIBER), Free, None)
  {
    hide AddEvent, DispatchSafe, IoEvents.Inv, WaiterAt;
  }

  lemma SwapFiber(s: Sys)
    requires Unarmed(s) && Looks(s, map[], INIT, false, [], Held(FIBER), Free, None)
    ensures var step := SRuntime(RR.DoSwapIn(0));
            Enabled(s, step) && var t := Next(s, step);
            Unarmed(t) && Looks(t, map[], EXEC, false, [], RUN0, Free, None)
  {
    hide AddEvent, DispatchSafe, IoEvents.Inv, WaiterAt;
  }

  lemma Begins(s: Sys)
    requires Unarmed(s) && Looks(s, map[], EXEC, false, [], RUN0, Free, None)
    ensures var step := SBegin(0, 7, 3, READ, true);
            Enabled(s, step) && var t := Next(s, step);
            t.owner == map[] && t.armed == {} && t.rt.issued == {}
            && Looks(t, map[0 := TheCall(Trying, false, None, 0)], EXEC, false, [], RUN0, Free, None)
  {
    hide IoEvents.Inv, WaiterAt, RR.Enabled;
  }

  lemma ArmsFirst(s: Sys)
    requires s.owner == map[] && s.armed == {} && s.rt.issued == {}
    requires Looks(s, map[0 := TheCall(Trying, false, None, 0)], EXEC, false, [], RUN0, Free, None)
    ensures Enabled(s, SArm(0, 9)) && var t := Next(s, SArm(0, 9));
            ArmedOnce(t) && Looks(t, map[0 := TheCall(Armed, false, Some(9), 0)], EXEC, false, [], RUN0, Free, None)
  {
    hide IoEvents.Inv, WaiterAt, RR.Enabled;
  }

  lemma Expires(s: Sys, call: Call, st: FiberState, registered: bool, w0: Worker, slot: Option<Waiter>)
    requires ArmedOnce(s) && Looks(s, map[0 := call], st, registered, [], w0, Free, slot)
    ensures Enabled(s, SExpire(9)) && var t := Next(s, SExpire(9));
            Expired(t) && Looks(t, map[0 := call], st, registered, [TIMER], w0, Free, slot)
  {
    hide IoEvents.Inv, WaiterAt, RR.Enabled;
  }

  lemma PicksTimer(s: Sys, call: Call, st: FiberState, registered: bool, rest: seq<Task>, w0: Worker, slot: Option<Waiter>)
    requires Expired(s) && Looks(s, map[0 := call], st, registered, [TIMER] + rest, w0, Free, slot)
    ensures var step := SRuntime(RR.DoPick(1, 0));
            Enabled(s, step) && var t := Next(s, step);
            Expired(t) && Looks(t, map[0 := call], st, registered, rest, w0, Held(TIMER), slot)
  {
    hide AddEvent, DispatchSafe, IoEvents.Inv, WaiterAt;
  }

  lemma Registers(s: Sys, call: Call, queue: seq<Task>, w1: Worker)
    requires call.phase == Armed && call.fd == 3 && call.ev == READ
    requires Looks(s, map[0 := call], EXEC, false, queue, RUN0, w1, None)
    ensures Enabled(s, SRegister(0, true)) && var t := Next(s, SRegister(0, true));
            t.owner == s.owner && t.armed == s.armed
            && Looks(t, map[0 := call.(phase := Parked, wakes := 0)], EXEC, true, queue, RUN0, w1, Some(WFiber(0)))
  {
    hide AddEvent, Covered, IoEvents.Inv, WaiterAt, DispatchSafe;
    AddEventKeeps(s.rt.io, 3, READ, WFiber(0), true);
  }

  // ---- a timeout callback runs ----

  /** Worker 1 runs the callback of timer 9 while nobody is in the slot: the call is marked and nothing else happens. */
  lemma Marks(s: Sys, call: Call)
    requires SysInv(s) && Expired(s) && call.id == 7 && call.fd == 3 && call.ev == READ && !call.cancelled
    requires Looks(s, map[0 := call], EXEC, false, [], RUN0, Held(TIMER), None)
    ensures var step := SRunTimer(1, 1, 0, true, true);
            Enabled(s, step) && var t := Next(s, step);
            && t.owner == s.owner && t.armed == s.armed && t.rt.issued <= {9} && t.rt.registered == {} && t.rt.queue == []
            && 0 in t.rt.workers && t.rt.workers[0] == RUN0 && IoEvents.Inv(t.rt.io) && WaiterAt(t.rt.io, 3, READ) == None
            && t.calls == map[0 := call.(cancelled := true)]
  {
    hide IoEvents.Inv, WaiterAt, CancelEvent, RtInv, CallOk, TimerOk;
    assert LiveCall(s, 7, 0);
    assert 3 < |s.rt.io.ctxs| by { Wide(s.rt.io); }
    var step := SRunTimer(1, 1, 0, true, true);
    StepKeeps(s, step);
    RR.RtIo(Next(s, step).rt);
    TimerSlots(s, 1, 1, 0, true, true, 3, READ);
    CancelSlots(StartCallback(s.rt, 1, 1), 3, READ, true, 3, READ);
  }

  lemma Wide(io: Io)
    requires IoEvents.Inv(io)
    ensures |io.ctxs| >= 32
  {
  }

  ghost predicate Lost(s: Sys) { InItsSlot(s, 0) && s.calls[0].timed && s.calls[0].cancelled }

  /** A marked call that is armed and may register parks in its slot. */
  lemma RegistersMarked(s: Sys, call: Call)
    requires call.phase == Armed && call.fd == 3 && call.ev == READ && call.timed && call.cancelled && s.calls == map[0 := call]
    requires 0 in s.rt.workers && s.rt.workers[0] == RUN0 && s.rt.registered == {}
    requires IoEvents.Inv(s.rt.io) && WaiterAt(s.rt.io, 3, READ) == None
    ensures Enabled(s, SRegister(0, true)) && Lost(Next(s, SRegister(0, true)))
  {
    hide AddEvent, Covered, IoEvents.Inv, WaiterAt, DispatchSafe;
    AddEventKeeps(s.rt.io, 3, READ, WFiber(0), true);
  }

  lemma ArmsAgain(s: Sys, call: Call)
    requires call.phase == Trying && call.timed && s.calls == map[0 := call]
    requires 0 in s.rt.workers && s.rt.workers[0] == RUN0 && s.rt.registered == {} && s.owner == map[9 := 7] && s.rt.issued <= {9}
    ensures Enabled(s, SArm(0, 10)) && var t := Next(s, SArm(0, 10));
            t.calls == map[0 := call.(phase := Armed, timer := Some(10))] && t.rt == s.rt
  {
    hide RR.Enabled;
  }

  // ---- the round in between ----

  lemma Yields(s: Sys, call: Call)
    requires ArmedOnce(s) && Looks(s, map[0 := call], EXEC, true, [], RUN0, Free, Some(WFiber(0)))
    ensures Enabled(s, SYield(0)) && var t := Next(s, SYield(0));
            ArmedOnce(t) && Looks(t, map[0 := call], HOLD, false, [], Free, Free, Some(WFiber(0)))
  {
    hide IoEvents.Inv, WaiterAt;
  }

  lemma EventComes(s: Sys, call: Call)
    requires Expired(s) && Looks(s, map[0 := call], HOLD, false, [TIMER], Free, Free, Some(WFiber(0)))
    ensures var step := SRuntime(RR.DoCancelEvent(3, READ, true));
            Enabled(s, step) && var t := Next(s, step);
            Expired(t) && Looks(t, map[0 := call], HOLD, false, [TIMER] + [FIBER], Free, Free, None)
  {
    hide IoEvents.Inv, CancelEvent, WaiterAt, AddEvent, DispatchSafe;
    Wide(s.rt.io);
    CancelEventKeeps(s.rt.io, 3, READ, true);
  }

  lemma PicksCaller(s: Sys, call: Call)
    requires Expired(s) && Looks(s, map[0 := call], HOLD, false, [FIBER], Free, Held(TIMER), None)
    ensures var step := SRuntime(RR.DoPick(0, 0));
            Enabled(s, step) && var t := Next(s, step);
            Expired(t) && Looks(t, map[0 := call], HOLD, false, [], Held(FIBER), Held(TIMER), None)
  {
    hide AddEvent, DispatchSafe, IoEvents.Inv, WaiterAt;
  }

  lemma WakesCaller(s: Sys, call: Call)
    requires Expired(s) && Looks(s, map[0 := call], HOLD, false, [], Held(FIBER), Held(TIMER), None)
    ensures var step := SRuntime(RR.DoSwapIn(0));
            Enabled(s, step) && var t := Next(s, step);
            Expired(t) && Looks(t, map[0 := call.(wakes := call.wakes + 1)], EXEC, false, [], RUN0, Held(TIMER), None)
  {
    hide AddEvent, DispatchSafe, IoEvents.Inv, WaiterAt;
  }

  lemma Resumes(s: Sys, call: Call)
    requires call.phase == Parked && !call.cancelled && call.timer == Some(9)
    requires Expired(s) && Looks(s, map[0 := call], EXEC, false, [], RUN0, Held(TIMER), None)
    ensures Enabled(s, SResume(0)) && var t := Next(s, SResume(0));
            Expired(t) && Looks(t, map[0 := call.(phase := Trying, timer := None)], EXEC, false, [], RUN0, Held(TIMER), None)
  {
    hide IoEvents.Inv, WaiterAt, RR.Enabled;
  }

  // ---- runs ----

  /** A run to the armed caller, its timer armed as well. */
  lemma RunToArmed() returns (steps: seq<Step>)
    ensures Init(Fresh()) && Run(Fresh(), steps) && ArmedOnce(Exec(Fresh(), steps))
    ensures Looks(Exec(Fresh(), steps), map[0 := TheCall(Armed, false, Some(9), 0)], EXEC, false, [], RUN0, Free, None)
  {
    hide Run, Exec, Enabled, Next, Fresh, Looks, Init;
    Submit();
    steps := [];
    RunNone(Fresh());
    RunSnoc(Fresh(), steps, SRuntime(RR.DoSubmitFiber(0, -1))); steps := steps + [SRuntime(RR.DoSubmitFiber(0, -1))];
    PickFiber(Exec(Fresh(), steps));
    RunSnoc(Fresh(), steps, SRuntime(RR.DoPick(0, 0))); steps := steps + [SRuntime(RR.DoPick(0, 0))];
    SwapFiber(Exec(Fresh(), steps));
    RunSnoc(Fresh(), steps, SRuntime(RR.DoSwapIn(0))); steps := steps + [SRuntime(RR.DoSwapIn(0))];
    Begins(Exec(Fresh(), steps));
    RunSnoc(Fresh(), steps, SBegin(0, 7, 3, READ, true)); steps := steps + [SBegin(0, 7, 3, READ, true)];
    ArmsFirst(Exec(Fresh(), steps));
    RunSnoc(Fresh(), steps, SArm(0, 9)); steps := steps + [SArm(0, 9)];
  }

  /** The callback runs after the timer was armed and before the caller registers. */
  lemma LostBeforeRegistering() returns (steps: seq<Step>)
    ensures Init(Fresh()) && Run(Fresh(), steps) && Lost(Exec(Fresh(), steps))
  {
    hide Run, Exec, Enabled, Next, Fresh, Init, Lost, SysInv, WaiterAt, IoEvents.Inv;
    steps := RunToArmed();
    var call := TheCall(Armed, false, Some(9), 0);
    Expires(Exec(Fresh(), steps), call, EXEC, false, RUN0, None);
    RunSnoc(Fresh(), steps, SExpire(9)); steps := steps + [SExpire(9)];
    assert [TIMER] + [] == [TIMER];
    PicksTimer(Exec(Fresh(), steps), call, EXEC, false, [], RUN0, None);
    RunSnoc(Fresh(), steps, SRuntime(RR.DoPick(1, 0))); steps := steps + [SRuntime(RR.DoPick(1, 0))];
    Reachable(Fresh(), steps);
    Marks(Exec(Fresh(), steps), call);
    RunSnoc(Fresh(), steps, SRunTimer(1, 1, 0, true, true)); steps := steps + [SRunTimer(1, 1, 0, true, true)];
    RegistersMarked(Exec(Fresh(), steps), call.(cancelled := true));
    RunSnoc(Fresh(), steps, SRegister(0, true)); steps := steps + [SRegister(0, true)];
  }

  /** A run through a whole first round: the event came while the timer's callback was on its way already. */
  lemma RunToRetry() returns (steps: seq<Step>)
    ensures Init(Fresh()) && Run(Fresh(), steps) && Expired(Exec(Fresh(), steps))
    ensures Looks(Exec(Fresh(), steps), map[0 := TheCall(Trying, false, None, 1)], EXEC, false, [], RUN0, Held(TIMER), None)
  {
    hide Run, Exec, Enabled, Next, Fresh, Looks, Init, WaiterAt, IoEvents.Inv;
    steps := RunToArmed();
    var call := TheCall(Parked, false, Some(9), 0);
    Registers(Exec(Fresh(), steps), TheCall(Armed, false, Some(9), 0), [], Free);
    RunSnoc(Fresh(), steps, SRegister(0, true)); steps := steps + [SRegister(0, true)];
    Yields(Exec(Fresh(), steps), call);
    RunSnoc(Fresh(), steps, SYield(0)); steps := steps + [SYield(0)];
    Expires(Exec(Fresh(), steps), call, HOLD, false, Free, Some(WFiber(0)));
    RunSnoc(Fresh(), steps, SExpire(9)); steps := steps + [SExpire(9)];
    EventComes(Exec(Fresh(), steps), call);
    var event := SRuntime(RR.DoCancelEvent(3, READ, true));
    RunSnoc(Fresh(), steps, event); steps := steps + [event];
    PicksTimer(Exec(Fresh(), steps), call, HOLD, false, [FIBER], Free, None);
    RunSnoc(Fresh(), steps, SRuntime(RR.DoPick(1, 0))); steps := steps + [SRuntime(RR.DoPick(1, 0))];
    PicksCaller(Exec(Fresh(), steps), call);
    RunSnoc(Fresh(), steps, SRuntime(RR.DoPick(0, 0))); steps := steps + [SRuntime(RR.DoPick(0, 0))];
    WakesCaller(Exec(Fresh(), steps), call);
    RunSnoc(Fresh(), steps, SRuntime(RR.DoSwapIn(0))); steps := steps + [SRuntime(RR.DoSwapIn(0))];
    Resumes(Exec(Fresh(), steps), call.(wakes := 1));
    RunSnoc(Fresh(), steps, SResume(0)); steps := steps + [SResume(0)];
  }

  /** The callback of the first round's timer runs while the caller tries again, before it arms the next timer. */
  lemma LostBetweenRounds() returns (steps: seq<Step>)
    ensures Init(Fresh()) && Run(Fresh(), steps) && Lost(Exec(Fresh(), steps))
  {
    hide Run, Exec, Enabled, Next, Fresh, Init, Lost, SysInv, WaiterAt, IoEvents.Inv;
    steps := RunToRetry();
    var call := TheCall(Trying, false, None, 1);
    Reachable(Fresh(), steps);
    Marks(Exec(Fresh(), steps), call);
    RunSnoc(Fresh(), steps, SRunTimer(1, 1, 0, true, true)); steps := steps + [SRunTimer(1, 1, 0, true, true)];
    ArmsAgain(Exec(Fresh(), steps), call.(cancelled := true));
    RunSnoc(Fresh(), steps, SArm(0, 10)); steps := steps + [SArm(0, 10)];
    RegistersMarked(Exec(Fresh(), steps), call.(cancelled := true, phase := Armed, timer := Some(10)));
    RunSnoc(Fresh(), steps, SRegister(0, true)); steps := steps + [SRegister(0, true)];
  }

  lemma RefusedMarks(s: Sys, call: Call)
    requires SysInv(s) && Expired(s) && call == TheCall(Parked, false, Some(9), 0)
    requires Looks(s, map[0 := call], EXEC, true, [], RUN0, Held(TIMER), Some(WFiber(0)))
    ensures Enabled(s, SRunTimer(1, 1, 0, true, false)) && Lost(Next(s, SRunTimer(1, 1, 0, true, false)))
  {
    hide IoEvents.Inv, WaiterAt, CancelEvent, RtInv, CallOk, TimerOk;
    assert LiveCall(s, 7, 0);
    Wide(s.rt.io);
    TimerReleasesExact(s, 1, 1, 0, false);
  }

  /** The callback runs while the caller is in its slot, and epoll_ctl refuses. */
  lemma LostByRefusal() returns (steps: seq<Step>)
    ensures Init(Fresh()) && Run(Fresh(), steps) && Lost(Exec(Fresh(), steps))
  {
    hide Run, Exec, Enabled, Next, Fresh, Init, Lost, SysInv, WaiterAt, IoEvents.Inv, Looks;
    steps := RunToArmed();
    var call := TheCall(Parked, false, Some(9), 0);
    Registers(Exec(Fresh(), steps), TheCall(Armed, false, Some(9), 0), [], Free);
    RunSnoc(Fresh(), steps, SRegister(0, true)); steps := steps + [SRegister(0, true)];
    Expires(Exec(Fresh(), steps), call, EXEC, true, RUN0, Some(WFiber(0)));
    RunSnoc(Fresh(), steps, SExpire(9)); steps := steps + [SExpire(9)];
    assert [TIMER] + [] == [TIMER];
    PicksTimer(Exec(Fresh(), steps), call, EXEC, true, [], RUN0, Some(WFiber(0)));
    RunSnoc(Fresh(), steps, SRuntime(RR.DoPick(1, 0))); steps := steps + [SRuntime(RR.DoPick(1, 0))];
    Reachable(Fresh(), steps);
    RefusedMarks(Exec(Fresh(), steps), call);
    RunSnoc(Fresh(), steps, SRunTimer(1, 1, 0, true, false)); steps := steps + [SRunTimer(1, 1, 0, true, false)];
  }
}
