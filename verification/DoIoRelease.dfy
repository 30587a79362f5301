/** A caller with a timeout that waits in its event slot can still be released by one of its own timers exactly when it is
    not marked: the continuation that does it is constructed. */
module DoIoRelease {
  import opened IoEvents
  import opened Runtime
  import opened RuntimeProofs
  import RR = RuntimeRuns
  import opened DoIo
  import opened DoIoProofs
  import opened DoIoRuns
  import opened DoIoPlaces
  import opened DoIoTimeouts

  /** A timer of the caller's own call moves it from its event slot to the queue. */
  ghost predicate TimerReleases(s: Sys, step: Step, f: nat)
  {
    && InItsSlot(s, f) && Enabled(s, step) && RunsTimerOf(s, step, s.calls[f].id)
    && !InItsSlot(Next(s, step), f) && Next(s, step).rt.queue == s.rt.queue + [Task(WFiber(f), -1)]
  }

  /** The caller stays in its slot all through the run. */
  ghost predicate Stays(s: Sys, steps: seq<Step>, f: nat)
    requires Run(s, steps)
    decreases |steps|
  {
    InItsSlot(s, f) && (steps == [] || Stays(Next(s, steps[0]), steps[1..], f))
  }

  /** In some continuation the caller waits on in its slot until one of its own timers releases it. */
  ghost predicate CanRelease(s: Sys, f: nat)
  {
    exists steps, last :: Run(s, steps) && Stays(s, steps, f) && TimerReleases(Exec(s, steps), last, f)
  }

  lemma CanNow(s: Sys, last: Step, f: nat)
    requires TimerReleases(s, last, f)
    ensures CanRelease(s, f)
  {
    hide TimerReleases;
    assert Run(s, []) && InItsSlot(s, f) by { InSlotBefore(s, last, f); }
    assert Stays(s, [], f) && Exec(s, []) == s;
  }

  lemma InSlotBefore(s: Sys, last: Step, f: nat)
    requires TimerReleases(s, last, f)
    ensures InItsSlot(s, f)
  {
  }

  lemma CanVia(s: Sys, step: Step, f: nat)
    requires InItsSlot(s, f) && Enabled(s, step) && CanRelease(Next(s, step), f)
    ensures CanRelease(s, f)
  {
    hide TimerReleases, Enabled, Next, InItsSlot;
    var t := Next(s, step);
    var rest, last :| Run(t, rest) && Stays(t, rest, f) && TimerReleases(Exec(t, rest), last, f);
    var steps := [step] + rest;
    assert steps[1..] == rest;
    assert Run(s, steps) && Exec(s, steps) == Exec(t, rest);
    assert Stays(s, steps, f);
  }

  // ---- a marked caller ----

  lemma {:induction false} MarkedCannot(s: Sys, steps: seq<Step>, last: Step, f: nat)
    requires SysInv(s) && f in s.calls && s.calls[f].cancelled && Run(s, steps) && Stays(s, steps, f)
    ensures !TimerReleases(Exec(s, steps), last, f)
    decreases |steps|
  {
    hide SysInv, Enabled, Next, WaiterAt, RunsTimerOf;
    if steps == [] {
      if TimerReleases(s, last, f) { MarkedIsDeaf(s, last, f); }
    } else {
      StepKeeps(s, steps[0]);
      StaysMarked(s, steps[0], f);
      MarkedCannot(Next(s, steps[0]), steps[1..], last, f);
    }
  }

  lemma StaysMarked(s: Sys, step: Step, f: nat)
    requires SysInv(s) && Enabled(s, step) && f in s.calls && s.calls[f].cancelled && InItsSlot(Next(s, step), f)
    ensures Next(s, step).calls[f].cancelled
  {
    hide RtInv, WaiterAt, CallOk, TimerOk, RR.Enabled, RR.Next, StartCallback, Finish, CancelIn;
  }

  // ---- an unmarked caller ----

  /** The caller waits in its slot with a timeout and is not marked. */
  predicate WaitsUnmarked(s: Sys, f: nat)
  {
    InItsSlot(s, f) && s.calls[f].timed && s.calls[f].phase == Parked && !s.calls[f].cancelled
  }

  /** cancelEvent would not read past the contexts for any call. */
  ghost predicate Roomy(s: Sys) { forall g :: g in s.calls ==> s.calls[g].fd < |s.rt.io.ctxs| }

  lemma {:induction false} FreshNat(used: set<nat>) returns (n: nat)
    ensures forall m :: m in used ==> m < n
  {
    n := 0;
    if used != {} {
      var m :| m in used;
      var k := FreshNat(used - {m});
      n := if m < k then k else m + 1;
      assert forall l :: l in used ==> l == m || l in used - {m};
    }
  }

  /** A worker holds the callback of a timer of the call: running it releases the caller. */
  lemma ReleaseNow(s: Sys, f: nat, w: int)
    requires SysInv(s) && WaitsUnmarked(s, f) && HoldsCallback(s.rt, w) && HeldCallback(s.rt, w) in s.owner
    requires s.owner[HeldCallback(s.rt, w)] == s.calls[f].id
    ensures CanRelease(s, f)
  {
    hide RtInv, Waits, WaiterAt, CanRelease, TimerOk;
    var g := FreshNat(s.rt.fibers.Keys);
    var step := SRunTimer(w, g, f, true, true);
    assert LiveCall(s, s.calls[f].id, f) && CallOk(s, f);
    TimerSlots(s, w, g, f, true, true, s.calls[f].fd, s.calls[f].ev);
    CanNow(s, step, f);
  }

  /** Everything the construction needs: the callback of the caller's timer is entry i of the queue. */
  ghost predicate Ready(s: Sys, f: nat, c: nat, i: nat)
  {
    && SysInv(s) && Placed(s) && Roomy(s) && WaitsUnmarked(s, f)
    && s.calls[f].timer == Some(c) && i < |s.rt.queue| && s.rt.queue[i].work == WCallback(c)
  }

  /** Nothing that concerns the caller changed. */
  ghost predicate Undisturbed(s: Sys, t: Sys, f: nat)
    requires f in s.calls
  {
    && f in t.calls && t.calls[f] == s.calls[f]
    && WaiterAt(t.rt.io, s.calls[f].fd, s.calls[f].ev) == WaiterAt(s.rt.io, s.calls[f].fd, s.calls[f].ev)
    && (forall g :: g in t.calls ==> g in s.calls && t.calls[g].fd == s.calls[g].fd)
    && |s.rt.io.ctxs| <= |t.rt.io.ctxs|
  }

  lemma ReadyAfter(s: Sys, step: Step, f: nat, c: nat, i: nat, j: nat)
    requires Ready(s, f, c, i) && Enabled(s, step) && Undisturbed(s, Next(s, step), f)
    requires j < |Next(s, step).rt.queue| && Next(s, step).rt.queue[j].work == WCallback(c)
    ensures Ready(Next(s, step), f, c, j)
  {
    hide SysInv, Placed, Enabled, Next, WaiterAt;
    StepKeeps(s, step);
    StepPlaced(s, step);
  }

  /** Worker w is not at the failing assertion of addEvent, registering for a slot that is taken. */
  predicate Movable(s: Sys, w: int)
  {
    && w in s.rt.workers
    && !(InPhase(s, w, Armed) && WaiterAt(s.rt.io, s.calls[RunningFiber(s, w)].fd, s.calls[RunningFiber(s, w)].ev) != None)
  }

  /** How far worker w is from being free. */
  function Rank(s: Sys, w: int): nat
    requires w in s.rt.workers
  {
    match s.rt.workers[w]
    case Free => 0
    case Held(_) => 4
    case Running(h, _, _) =>
      if h in s.rt.registered || h !in s.calls then 1 else if s.calls[h].phase == Parked then 3 else 2
  }

  /** The step brings worker w nearer to the callback. */
  ghost predicate Nearer(s: Sys, step: Step, f: nat, c: nat, i: nat, w: int)
  {
    && Enabled(s, step) && Ready(Next(s, step), f, c, i) && Movable(Next(s, step), w)
    && Movable(s, w) && Rank(Next(s, step), w) < Rank(s, w)
  }

  /** The waiting caller is not what a worker holds, nor what one runs freely. */
  lemma CallerElsewhere(s: Sys, f: nat, w: int)
    requires SysInv(s) && InItsSlot(s, f)
    ensures RR.Holds(s.rt, w) ==> s.rt.workers[w].task.work != WFiber(f)
    ensures RR.IsFreeToAct(s.rt, w) ==> s.rt.workers[w].f != f
  {
    hide IoEvents.Inv, CallOk, TimerOk;
    var l := InSlot(s.calls[f].fd, s.calls[f].ev);
    assert At(s.rt, WFiber(f), l) && Waits(s.rt, WFiber(f)) && FiberOk(s.rt, f);
    NotAlso(s.rt, WFiber(f), l, HeldBy(w));
    if RR.IsFreeToAct(s.rt, w) { RunningCaller(s.rt, w); }
  }

  // ---- the steps of one worker ----

  lemma RunTimerFrees(s: Sys, w: int, g: nat, h: nat, alive: bool, f: nat)
    requires SysInv(s) && Enabled(s, SRunTimer(w, g, h, alive, false)) && f in s.calls && s.owner[HeldCallback(s.rt, w)] != s.calls[f].id
    ensures var t := RunTimer(s, w, g, h, alive, false);
            && Undisturbed(s, t, f) && t.rt.queue == s.rt.queue && w in t.rt.workers && t.rt.workers[w] == Free
  {
    hide RtInv, WaiterAt, IoEvents.Inv, CallOk, TimerOk, CancelEvent;
    TimerSlots(s, w, g, h, alive, false, s.calls[f].fd, s.calls[f].ev);
    RunTimerRt(s, w, g, h, alive, false);
    RR.RtIo(s.rt);
    if alive && !s.calls[h].cancelled {
      CancelSlots(StartCallback(s.rt, w, g), s.calls[h].fd, s.calls[h].ev, false, 0, READ);
    }
  }

  /** A held timeout callback of another call runs to its end; the kernel refuses what it would cancel. */
  lemma MoveTimer(s: Sys, f: nat, c: nat, i: nat, w: int) returns (step: Step)
    requires Ready(s, f, c, i) && HoldsCallback(s.rt, w) && HeldCallback(s.rt, w) in s.owner
    requires s.owner[HeldCallback(s.rt, w)] != s.calls[f].id
    ensures Nearer(s, step, f, c, i, w)
  {
    hide RtInv, WaiterAt, CallOk, TimerOk, Placed, RunTimer;
    var g := FreshNat(s.rt.fibers.Keys);
    var id := s.owner[HeldCallback(s.rt, w)];
    if h :| LiveCall(s, id, h) {
      step := SRunTimer(w, g, h, true, false);
    } else {
      step := SRunTimer(w, g, 0, false, false);
    }
    RunTimerFrees(s, w, g, step.f, step.alive, f);
    ReadyAfter(s, step, f, c, i, i);
  }

  lemma MoveCallback(s: Sys, f: nat, c: nat, i: nat, w: int) returns (step: Step)
    requires Ready(s, f, c, i) && HoldsCallback(s.rt, w) && HeldCallback(s.rt, w) !in s.owner
    ensures Nearer(s, step, f, c, i, w)
  {
    hide RtInv, Waits, WaiterAt, TimerOk, Placed;
    var g := FreshNat(s.rt.fibers.Keys);
    step := SRuntime(RR.DoStartCallback(w, g));
    CallbackFiberFree(s.rt, w, g);
    var h := StartCallback(s.rt, w, g).workers[w].f;
    assert h in s.calls ==> CallOk(s, h);
    ReadyAfter(s, step, f, c, i, i);
  }

  lemma MoveFiber(s: Sys, f: nat, c: nat, i: nat, w: int) returns (step: Step)
    requires Ready(s, f, c, i) && RR.Holds(s.rt, w) && s.rt.workers[w].task.work.WFiber?
    ensures Nearer(s, step, f, c, i, w)
  {
    hide SysInv, WaiterAt, Placed;
    step := SRuntime(RR.DoSwapIn(w));
    CallerElsewhere(s, f, w);
    HeldCallerParked(s, w);
    ReadyAfter(s, step, f, c, i, i);
  }

  /** A held fiber inside a call is parked. */
  lemma HeldCallerParked(s: Sys, w: int)
    requires SysInv(s) && RR.Holds(s.rt, w) && s.rt.workers[w].task.work.WFiber?
    ensures var h := s.rt.workers[w].task.work.f; h in s.calls ==> s.calls[h].phase == Parked
  {
    hide RtInv, Waits, TimerOk;
    HeldSleeps(s.rt, w);
    var h := s.rt.workers[w].task.work.f;
    assert h in s.calls ==> CallOk(s, h);
  }

  lemma HeldSleeps(s: Rt, w: int)
    requires RtInv(s) && RR.Holds(s, w) && s.workers[w].task.work.WFiber?
    ensures var h := s.workers[w].task.work.f; h in s.fibers && s.fibers[h] != EXEC
  {
    hide IoEvents.Inv, At, Waits, Unique, Execution;
  }

  lemma MoveRunning(s: Sys, f: nat, c: nat, i: nat, w: int) returns (step: Step)
    requires Ready(s, f, c, i) && RR.IsRunning(s.rt, w) && Movable(s, w)
    ensures Nearer(s, step, f, c, i, w)
  {
    hide SysInv, WaiterAt, Placed, Nearer, Ready;
    var h := s.rt.workers[w].f;
    if h in s.rt.registered {
      step := MoveRegistered(s, f, c, i, w);
    } else if h !in s.calls {
      step := MoveOther(s, f, c, i, w);
    } else if s.calls[h].phase == Armed {
      step := MoveArmed(s, f, c, i, w);
    } else {
      step := MoveCaller(s, f, c, i, w);
    }
  }

  /** A fiber that registered yields. */
  lemma MoveRegistered(s: Sys, f: nat, c: nat, i: nat, w: int) returns (step: Step)
    requires Ready(s, f, c, i) && RR.IsRunning(s.rt, w) && s.rt.workers[w].f in s.rt.registered
    ensures Nearer(s, step, f, c, i, w)
  {
    hide SysInv, WaiterAt, Placed;
    step := if s.rt.workers[w].f in s.calls then SYield(w) else SRuntime(RR.DoYieldHold(w));
    ReadyAfter(s, step, f, c, i, i);
  }

  /** A fiber outside any call finishes. */
  lemma MoveOther(s: Sys, f: nat, c: nat, i: nat, w: int) returns (step: Step)
    requires Ready(s, f, c, i) && RR.IsFreeToAct(s.rt, w) && s.rt.workers[w].f !in s.calls
    ensures Nearer(s, step, f, c, i, w)
  {
    hide SysInv, WaiterAt, Placed;
    step := SRuntime(RR.DoFinish(w, true));
    ReadyAfter(s, step, f, c, i, i);
  }

  /** A caller that tries returns, and one that was woken goes on. */
  lemma MoveCaller(s: Sys, f: nat, c: nat, i: nat, w: int) returns (step: Step)
    requires Ready(s, f, c, i) && (InPhase(s, w, Trying) || InPhase(s, w, Parked))
    ensures Nearer(s, step, f, c, i, w)
  {
    hide SysInv, WaiterAt, Placed, RR.Enabled, RR.Next;
    CallerElsewhere(s, f, w);
    step := if InPhase(s, w, Trying) then SReturn(w) else SResume(w);
    ReadyAfter(s, step, f, c, i, i);
  }

  lemma MoveArmed(s: Sys, f: nat, c: nat, i: nat, w: int) returns (step: Step)
    requires Ready(s, f, c, i) && InPhase(s, w, Armed) && Movable(s, w)
    ensures Nearer(s, step, f, c, i, w)
  {
    hide SysInv, WaiterAt, Placed, AddEvent, Covered, IoEvents.Inv;
    CallerElsewhere(s, f, w);
    step := SRegister(w, false);
    var x := s.calls[RunningFiber(s, w)];
    SysIo(s);
    AddEventKeeps(s.rt.io, x.fd, x.ev, WFiber(RunningFiber(s, w)), false);
    RegisterGrows(s, w, x.fd, x.ev);
    ReadyAfter(s, step, f, c, i, i);
  }

  lemma SysIo(s: Sys)
    requires SysInv(s)
    ensures IoEvents.Inv(s.rt.io) && RtInv(s.rt)
  {
    RR.RtIo(s.rt);
  }

  lemma RegisterGrows(s: Sys, w: int, fd: nat, ev: Event)
    requires SysInv(s) && RR.Enabled(s.rt, RR.DoRegisterFiber(w, fd, ev, false))
    ensures |RR.Next(s.rt, RR.DoRegisterFiber(w, fd, ev, false)).io.ctxs| >= |s.rt.io.ctxs|
  {
    hide RR.Enabled, RR.Next, RtInv;
    CtxsGrow(s.rt, RR.DoRegisterFiber(w, fd, ev, false));
  }

  // ---- taking the callback from the queue ----

  lemma {:induction false} EligibleUpTo(s: Rt, w: int, i: nat) returns (k: nat)
    requires i < |s.queue| && Eligible(s.queue[i], w, s.fibers)
    ensures k <= i && FirstEligible(s, w, k)
  {
    k := 0;
    while !Eligible(s.queue[k], w, s.fibers)
      invariant k <= i && forall j :: 0 <= j < k ==> !Eligible(s.queue[j], w, s.fibers)
      decreases i - k
    {
      k := k + 1;
    }
  }

  /** A free worker picks the first entry it may run: an earlier one, or the callback itself. */
  lemma MoveFree(s: Sys, f: nat, c: nat, i: nat, w: int) returns (k: nat)
    requires Ready(s, f, c, i) && w in s.rt.workers && s.rt.workers[w] == Free
    ensures k <= i && Enabled(s, SRuntime(RR.DoPick(w, k))) && Movable(Next(s, SRuntime(RR.DoPick(w, k))), w)
    ensures k < i ==> Ready(Next(s, SRuntime(RR.DoPick(w, k))), f, c, i - 1)
    ensures k == i ==> var t := Next(s, SRuntime(RR.DoPick(w, k)));
              SysInv(t) && WaitsUnmarked(t, f) && HoldsCallback(t.rt, w) && HeldCallback(t.rt, w) == c
              && c in t.owner && t.owner[c] == t.calls[f].id
  {
    hide RtInv, Waits, WaiterAt, TimerOk, FirstEligible;
    assert CallOk(s, f) && CallbackPlaced(s.rt, c) && UnpinnedEntry(s.rt.queue[i], c);
    k := EligibleUpTo(s.rt, w, i);
    var step := SRuntime(RR.DoPick(w, k));
    var t := Next(s, step);
    if k < i {
      assert t.rt.queue[i - 1] == s.rt.queue[i];
      ReadyAfter(s, step, f, c, i, i - 1);
    } else {
      StepKeeps(s, step);
    }
  }

  lemma {:induction false} GoOn(s: Sys, f: nat, c: nat, i: nat, w: int)
    requires Ready(s, f, c, i) && Movable(s, w)
    ensures CanRelease(s, f)
    decreases i, Rank(s, w), 1
  {
    hide SysInv, Placed, Enabled, Next, WaiterAt, CanRelease, Roomy;
    if s.rt.workers[w].Free? {
      var k := MoveFree(s, f, c, i, w);
      var step := SRuntime(RR.DoPick(w, k));
      if k < i { GoOn(Next(s, step), f, c, i - 1, w); } else { ReleaseNow(Next(s, step), f, w); }
      CanVia(s, step, f);
    } else if s.rt.workers[w].Running? {
      var step := MoveRunning(s, f, c, i, w);
      GoOn(Next(s, step), f, c, i, w);
      CanVia(s, step, f);
    } else if s.rt.workers[w].task.work.WFiber? {
      var step := MoveFiber(s, f, c, i, w);
      GoOn(Next(s, step), f, c, i, w);
      CanVia(s, step, f);
    } else {
      GoOnCallback(s, f, c, i, w);
    }
  }

  lemma {:induction false} GoOnCallback(s: Sys, f: nat, c: nat, i: nat, w: int)
    requires Ready(s, f, c, i) && HoldsCallback(s.rt, w)
    ensures CanRelease(s, f)
    decreases i, Rank(s, w), 0
  {
    hide SysInv, Placed, Enabled, Next, WaiterAt, CanRelease, Roomy;
    var d := HeldCallback(s.rt, w);
    if d in s.owner && s.owner[d] == s.calls[f].id {
      ReleaseNow(s, f, w);
    } else {
      var step: Step;
      if d in s.owner { step := MoveTimer(s, f, c, i, w); } else { step := MoveCallback(s, f, c, i, w); }
      GoOn(Next(s, step), f, c, i, w);
      CanVia(s, step, f);
    }
  }

  // ---- from any state ----

  /** A callback nobody knows and a descriptor beyond the contexts and all calls. */
  lemma Beyond(s: Sys) returns (c: nat, fd: nat)
    ensures c !in s.rt.issued && c !in s.owner && fd > |s.rt.io.ctxs| && forall g :: g in s.calls ==> s.calls[g].fd < fd
  {
    c := FreshNat(s.rt.issued + s.owner.Keys);
    var fds := (set g | g in s.calls :: s.calls[g].fd) + {|s.rt.io.ctxs|};
    fd := FreshNat(fds);
    assert |s.rt.io.ctxs| in fds && forall g :: g in s.calls ==> s.calls[g].fd in fds;
    assert forall d :: d in s.rt.issued || d in s.owner ==> d in s.rt.issued + s.owner.Keys;
  }

  /** Some other code tries to register on a descriptor beyond all calls and is refused; the contexts have grown. */
  lemma MakeRoom(s: Sys, f: nat) returns (step: Step)
    requires SysInv(s) && Placed(s) && WaitsUnmarked(s, f)
    ensures Enabled(s, step) && var t := Next(s, step);
            && SysInv(t) && Placed(t) && WaitsUnmarked(t, f) && Roomy(t) && t.calls == s.calls && t.armed == s.armed
            && t.rt.workers == s.rt.workers && (forall w :: Movable(s, w) ==> Movable(t, w))
  {
    hide SysInv, WaiterAt, Placed, AddEvent, Covered, IoEvents.Inv;
    var c, fd := Beyond(s);
    step := SRuntime(RR.DoRegisterCallback(c, fd, READ, false));
    SysIo(s);
    BeyondIsFree(s.rt.io, fd, READ);
    AddEventKeeps(s.rt.io, fd, READ, WCallback(c), false);
    GrownPast(s.rt.io, fd, WCallback(c));
    StepKeeps(s, step);
    StepPlaced(s, step);
  }

  lemma BeyondIsFree(io: Io, fd: nat, ev: Event)
    requires fd >= |io.ctxs|
    ensures WaiterAt(io, fd, ev) == None
  {
  }

  lemma GrownPast(io: Io, fd: nat, x: Waiter)
    requires IoEvents.Inv(io) && fd >= |io.ctxs| && fd < |Covered(io, fd).ctxs| && READ !in Covered(io, fd).ctxs[fd].events
    ensures |AddEvent(io, fd, READ, x, false).0.ctxs| > fd
  {
  }

  /** The callback of its timer is on its way, so that some continuation has it run while the caller still waits. */
  lemma UnmarkedCan(s: Sys, f: nat, w: int)
    requires SysInv(s) && Placed(s) && Roomy(s) && WaitsUnmarked(s, f) && Movable(s, w)
    ensures CanRelease(s, f)
  {
    hide RtInv, Waits, WaiterAt, CanRelease, Placed, TimerOk;
    assert CallOk(s, f);
    var c := s.calls[f].timer.value;
    if c in s.armed {
      ExpireFirst(s, f, c, w);
    } else {
      WaitingCan(s, f, c, w);
    }
  }

  lemma ExpireFirst(s: Sys, f: nat, c: nat, w: int)
    requires SysInv(s) && Placed(s) && Roomy(s) && WaitsUnmarked(s, f) && Movable(s, w)
    requires s.calls[f].timer == Some(c) && c in s.armed
    ensures CanRelease(s, f)
  {
    hide RtInv, Waits, WaiterAt, CanRelease, Placed, TimerOk, CallOk;
    var step := SExpire(c);
    var t := Next(s, step);
    StepKeeps(s, step);
    StepPlaced(s, step);
    assert t.rt.queue[|s.rt.queue|].work == WCallback(c);
    GoOn(t, f, c, |s.rt.queue|, w);
    CanVia(s, step, f);
  }

  lemma WaitingCan(s: Sys, f: nat, c: nat, w: int)
    requires SysInv(s) && Placed(s) && Roomy(s) && WaitsUnmarked(s, f) && Movable(s, w)
    requires s.calls[f].timer == Some(c) && Waits(s.rt, WCallback(c))
    ensures CanRelease(s, f)
  {
    hide RtInv, WaiterAt, CanRelease, TimerOk, CallerPlaced;
    assert CallOk(s, f) && CallbackPlaced(s.rt, c);
    var l :| At(s.rt, WCallback(c), l);
    match l
    case InQueue(i) => GoOn(s, f, c, i, w);
    case HeldBy(v) => ReleaseNow(s, f, v);
    case InSlot(fd, ev) => assert false;
    case InSem(_, _) => assert false;
  }

  /** In every run: a caller with a timeout that waits in its event slot can no longer be released by a timer of its own
      exactly when it is marked. Some worker must not be at the failing assertion of addEvent, which ends the program. */
  lemma TimeoutLostExact(s0: Sys, steps: seq<Step>, f: nat, w: int)
    requires Init(s0) && Run(s0, steps)
    requires var s := Exec(s0, steps); InItsSlot(s, f) && s.calls[f].timed && Movable(s, w)
    ensures var s := Exec(s0, steps); !CanRelease(s, f) <==> s.calls[f].cancelled
  {
    hide Run, Exec, SysInv, Placed, CanRelease, WaiterAt;
    ReachablePlaced(s0, steps);
    var s := Exec(s0, steps);
    if s.calls[f].cancelled {
      MarkedCannotEver(s, f);
    } else {
      InSlotIsParked(s, f);
      var step := MakeRoom(s, f);
      UnmarkedCan(Next(s, step), f, w);
      CanVia(s, step, f);
    }
  }

  lemma MarkedCannotEver(s: Sys, f: nat)
    requires SysInv(s) && f in s.calls && s.calls[f].cancelled
    ensures !CanRelease(s, f)
  {
    hide SysInv, TimerReleases;
    forall steps, last | Run(s, steps) && Stays(s, steps, f) ensures !TimerReleases(Exec(s, steps), last, f) {
      MarkedCannot(s, steps, last, f);
    }
  }

  lemma InSlotIsParked(s: Sys, f: nat)
    requires SysInv(s) && InItsSlot(s, f)
    ensures s.calls[f].phase == Parked
  {
    hide IoEvents.Inv, TimerOk;
    assert At(s.rt, WFiber(f), InSlot(s.calls[f].fd, s.calls[f].ev)) && Waits(s.rt, WFiber(f));
    assert FiberOk(s.rt, f) && CallOk(s, f);
  }

  /** ... that is, exactly when a timeout callback of this call ran before the caller had registered, or the kernel
      refused to cancel. */
  lemma TimeoutLostCause(s0: Sys, steps: seq<Step>, f: nat, w: int)
    requires Init(s0) && Run(s0, steps)
    requires var s := Exec(s0, steps); InItsSlot(s, f) && s.calls[f].timed && Movable(s, w)
    ensures var s := Exec(s0, steps); !CanRelease(s, f) <==> EverEarly(s0, steps, f, s.calls[f].id)
  {
    hide Run, Exec, CanRelease, EverEarly, Movable, WaiterAt;
    TimeoutLostExact(s0, steps, f, w);
    MarkedInSlotExact(s0, steps, f);
  }
}
