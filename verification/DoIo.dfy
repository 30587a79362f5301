/** The blocking-call protocol of bobliew/hook.cc (do_io, and connect_with_timeout as its one-round form) on top of the
    fiber runtime: try, arm a timeout timer, register for the event, yield, and on waking cancel the timer and either
    report the timeout or try again. */
module DoIo {
  import opened IoEvents
  import opened Runtime
  import opened RuntimeTokens
  import opened RuntimeProofs
  import RR = RuntimeRuns

  datatype Phase = Trying | Armed | Parked

  /** One call in progress: its timer_info (id, cancelled), what it waits for, its present timer, and how often its fiber
      was swapped in since it registered. */
  datatype Call = Call(id: nat, fd: nat, ev: Event, timed: bool, phase: Phase, cancelled: bool, timer: Option<nat>, wakes: nat)

  /** Calls by fiber; armed timers and the call each timer was ever created for, by callback; used call ids; and the
      timer whose callback set the cancelled mark of a call. */
  datatype Sys = Sys(rt: Rt, calls: map<nat, Call>, armed: set<nat>, owner: map<nat, nat>, used: set<nat>, fired: map<nat, nat>)

  function RunningFiber(s: Sys, w: int): nat
    requires RR.IsRunning(s.rt, w)
  {
    s.rt.workers[w].f
  }

  /** Worker w runs a fiber that is inside a call in the given phase and has not registered. */
  predicate InPhase(s: Sys, w: int, phase: Phase)
  {
    RR.IsFreeToAct(s.rt, w) && RunningFiber(s, w) in s.calls && s.calls[RunningFiber(s, w)].phase == phase
  }

  // ---- the caller's steps ----

  function Begin(s: Sys, f: nat, id: nat, fd: nat, ev: Event, timed: bool): Sys
  {
    s.(calls := s.calls[f := Call(id, fd, ev, timed, Trying, false, None, 0)], used := s.used + {id})
  }

  /** The system call succeeded or failed for good: the call returns. */
  function Return(s: Sys, f: nat): Sys { s.(calls := s.calls - {f}) }

  /** EAGAIN: addConditionTimer when there is a timeout; c is the new timer's callback. */
  function Arm(s: Sys, f: nat, c: nat): Sys
    requires f in s.calls
  {
    var x := s.calls[f];
    if x.timed then
      s.(calls := s.calls[f := x.(phase := Armed, timer := Some(c))], armed := s.armed + {c}, owner := s.owner[c := x.id])
    else s.(calls := s.calls[f := x.(phase := Armed, timer := None)])
  }

  function DisarmSet(x: Call): set<nat> { if x.timer.Some? then {x.timer.value} else {} }

  /** addEvent; on failure the timer is cancelled and the call returns. */
  function Register(s: Sys, w: int, f: nat, kernel: bool): Sys
    requires RR.IsRunning(s.rt, w) && f in s.calls && RR.Enabled(s.rt, RR.DoRegisterFiber(w, s.calls[f].fd, s.calls[f].ev, kernel))
  {
    var x := s.calls[f];
    var rt := RR.Next(s.rt, RR.DoRegisterFiber(w, x.fd, x.ev, kernel));
    if kernel then s.(rt := rt, calls := s.calls[f := x.(phase := Parked, wakes := 0)])
    else s.(rt := rt, calls := s.calls - {f}, armed := s.armed - DisarmSet(x))
  }

  /** After the yield: timer->cancel(), then the timeout error or another try. */
  function Resume(s: Sys, f: nat): Sys
    requires f in s.calls
  {
    var x := s.calls[f];
    var t := s.(armed := s.armed - DisarmSet(x));
    if x.cancelled then t.(calls := t.calls - {f})
    else t.(calls := t.calls[f := x.(phase := Trying, timer := None)])
  }

  // ---- the timers' steps ----

  /** listExpireCb takes an armed timer out of the set and its callback is scheduled. */
  function Expire(s: Sys, c: nat): Sys
  {
    s.(armed := s.armed - {c}, rt := SubmitCallback(s.rt, c, -1))
  }

  ghost predicate LiveCall(s: Sys, id: nat, f: nat) { f in s.calls && s.calls[f].id == id }

  /** cancelEvent with its range test: beyond the contexts it does nothing. */
  function CancelIn(rt: Rt, fd: nat, ev: Event, kernel: bool): Rt
  {
    if fd < |rt.io.ctxs| then var (io, _, ws) := CancelEvent(rt.io, fd, ev, kernel); Release(rt, io, ws) else rt
  }

  predicate HoldsCallback(s: Rt, w: int) { RR.Holds(s, w) && s.workers[w].task.work.WCallback? }

  function HeldCallback(s: Rt, w: int): nat
    requires HoldsCallback(s, w)
  {
    s.workers[w].task.work.c
  }

  /** A worker runs a timeout callback: if the call is alive and not marked yet, mark it and cancel its event. */
  function RunTimer(s: Sys, w: int, g: nat, f: nat, alive: bool, kernel: bool): Sys
    requires RR.Enabled(s.rt, RR.DoStartCallback(w, g)) && (alive ==> f in s.calls)
  {
    var c := HeldCallback(s.rt, w);
    var started := StartCallback(s.rt, w, g);
    if alive && !s.calls[f].cancelled then
      var x := s.calls[f];
      s.(rt := Finish(CancelIn(started, x.fd, x.ev, kernel), w, true), calls := s.calls[f := x.(cancelled := true)],
         fired := s.fired[x.id := c])
    else s.(rt := Finish(started, w, true))
  }

  // ---- all steps ----

  datatype Step =
    | SBegin(w: int, id: nat, fd: nat, ev: Event, timed: bool)
    | SReturn(w: int)
    | SArm(w: int, c: nat)
    | SRegister(w: int, kernel: bool)
    | SYield(w: int)
    | SResume(w: int)
    | SExpire(c: nat)
    | SRunTimer(w: int, g: nat, f: nat, alive: bool, kernel: bool)
    | SRuntime(step: RR.Step)

  /** A runtime step that a fiber inside a call would take by itself. */
  predicate ActsInside(s: Sys, step: RR.Step)
  {
    (step.DoYieldHold? || step.DoYieldReady? || step.DoFinish? || step.DoRegisterFiber? || step.DoSemWait?)
    && RR.IsRunning(s.rt, step.w) && s.rt.workers[step.w].f in s.calls
  }

  /** Timeout callbacks are new when submitted, run by SRunTimer, and nobody deletes a caller's waiter. */
  predicate Foreign(s: Sys, step: RR.Step)
  {
    && !ActsInside(s, step)
    && (step.DoSubmitCallback? || step.DoRegisterCallback? ==> step.c !in s.owner)
    && (step.DoStartCallback? && RR.Holds(s.rt, step.w) && s.rt.workers[step.w].task.work.WCallback? ==>
          s.rt.workers[step.w].task.work.c !in s.owner)
    && (step.DoDropEvent? && WaiterAt(s.rt.io, step.fd, step.ev).Some? ==>
          var x := WaiterAt(s.rt.io, step.fd, step.ev).value;
          (x.WFiber? ==> x.f !in s.calls) && (x.WCallback? ==> x.c !in s.owner))
  }

  ghost predicate Enabled(s: Sys, step: Step)
  {
    match step
    case SBegin(w, id, _, _, _) => RR.IsFreeToAct(s.rt, w) && RunningFiber(s, w) !in s.calls && id !in s.used
    case SReturn(w) => InPhase(s, w, Trying)
    case SArm(w, c) => InPhase(s, w, Trying) && c !in s.owner && c !in s.rt.issued
    case SRegister(w, kernel) => InPhase(s, w, Armed)
      && var x := s.calls[RunningFiber(s, w)]; RR.Enabled(s.rt, RR.DoRegisterFiber(w, x.fd, x.ev, kernel))
    case SYield(w) => RR.Enabled(s.rt, RR.DoYieldHold(w)) && RunningFiber(s, w) in s.calls
    case SResume(w) => InPhase(s, w, Parked)
    case SExpire(c) => c in s.armed
    case SRunTimer(w, g, f, alive, _) =>
      && RR.Enabled(s.rt, RR.DoStartCallback(w, g)) && HoldsCallback(s.rt, w) && HeldCallback(s.rt, w) in s.owner
      && (alive <==> exists h :: LiveCall(s, s.owner[HeldCallback(s.rt, w)], h))
      && (alive ==> LiveCall(s, s.owner[HeldCallback(s.rt, w)], f) && s.calls[f].fd != |s.rt.io.ctxs|)
    case SRuntime(step) => RR.Enabled(s.rt, step) && Foreign(s, step)
  }

  /** Swapping in a fiber inside a call counts as one wake-up. */
  function Woken(s: Sys, step: RR.Step): map<nat, Call>
  {
    if step.DoSwapIn? && RR.Holds(s.rt, step.w) && s.rt.workers[step.w].task.work.WFiber?
       && s.rt.workers[step.w].task.work.f in s.calls
    then
      var f := s.rt.workers[step.w].task.work.f;
      s.calls[f := s.calls[f].(wakes := s.calls[f].wakes + 1)]
    else s.calls
  }

  ghost function Next(s: Sys, step: Step): Sys
    requires Enabled(s, step)
  {
    match step
    case SBegin(w, id, fd, ev, timed) => Begin(s, RunningFiber(s, w), id, fd, ev, timed)
    case SReturn(w) => Return(s, RunningFiber(s, w))
    case SArm(w, c) => Arm(s, RunningFiber(s, w), c)
    case SRegister(w, kernel) => Register(s, w, RunningFiber(s, w), kernel)
    case SYield(w) => s.(rt := YieldHold(s.rt, w))
    case SResume(w) => Resume(s, RunningFiber(s, w))
    case SExpire(c) => Expire(s, c)
    case SRunTimer(w, g, f, alive, kernel) => RunTimer(s, w, g, f, alive, kernel)
    case SRuntime(step) => s.(rt := RR.Next(s.rt, step), calls := Woken(s, step))
  }

  // ---- the invariant ----

  ghost predicate CallOk(s: Sys, f: nat)
    requires f in s.calls
  {
    var x := s.calls[f];
    var rt := s.rt;
    && x.id in s.used
    && f in rt.fibers && rt.fibers[f] in {EXEC, HOLD}
    // before it registers the caller runs and waits nowhere
    && (!x.phase.Parked? ==> rt.fibers[f] == EXEC && f !in rt.registered)
    // one wake-up per registration
    && (x.phase.Parked? ==> x.wakes == if rt.fibers[f] == EXEC && f !in rt.registered then 1 else 0)
    && (x.phase.Parked? ==> x.fd < |rt.io.ctxs|)
    // the timeout mark comes from a timer of this call
    && (x.cancelled ==> x.id in s.fired && s.fired[x.id] in s.owner && s.owner[s.fired[x.id]] == x.id)
    && (x.timer.Some? ==> x.timer.value in s.owner && s.owner[x.timer.value] == x.id)
    && (x.phase.Trying? ==> x.timer.None?)
    // an unmarked caller with a timeout has a timer that is armed or whose callback is on its way
    && (x.timed && !x.phase.Trying? ==> x.timer.Some?)
    && (x.timed && !x.phase.Trying? && !x.cancelled ==>
          x.timer.value in s.armed || Waits(rt, WCallback(x.timer.value)))
  }

  ghost predicate TimerOk(s: Sys, c: nat)
  {
    && (c in s.armed ==> c in s.owner && c !in s.rt.issued && exists f :: f in s.calls && s.calls[f].timer == Some(c))
    && (c in s.owner ==> s.owner[c] in s.used)
  }

  ghost predicate SysInv(s: Sys)
  {
    && RtInv(s.rt)
    && (forall f :: f in s.calls ==> CallOk(s, f))
    && (forall f, g :: f in s.calls && g in s.calls && s.calls[f].id == s.calls[g].id ==> f == g)
    && (forall c :: TimerOk(s, c))
  }
}
