/** Runs of the fiber runtime: what holds in every reachable state, over every interleaving of the steps. */
module RuntimeRuns {
  import opened IoEvents
  import Semaphores
  import opened Runtime
  import opened RuntimeTokens
  import opened RuntimeProofs
  import TM = TimerMachine

  datatype Step =
    | DoSubmitFiber(f: nat, thread: int)
    | DoSubmitCallback(c: nat, thread: int)
    | DoPick(w: int, i: nat)
    | DoSwapIn(w: int)
    | DoStartCallback(w: int, g: nat)
    | DoYieldHold(w: int)
    | DoYieldReady(w: int)
    | DoFinish(w: int, ok: bool)
    | DoRegisterFiber(w: int, fd: nat, ev: Event, kernel: bool)
    | DoRegisterCallback(c: nat, fd: nat, ev: Event, kernel: bool)
    | DoDropEvent(fd: nat, ev: Event, kernel: bool)
    | DoCancelEvent(fd: nat, ev: Event, kernel: bool)
    | DoCancelAll(fd: nat, kernel: bool)
    | DoDispatch(fd: nat, reported: set<Event>, failed: bool, kernel: bool)
    | DoSemWait(w: int, id: nat)
    | DoSemTryWait(id: nat)
    | DoSemNotify(id: nat)

  predicate IsRunning(s: Rt, w: int) { w in s.workers && s.workers[w].Running? }

  /** Running code that has not registered as a waiter. */
  predicate IsFreeToAct(s: Rt, w: int) { IsRunning(s, w) && s.workers[w].f !in s.registered }

  predicate Holds(s: Rt, w: int) { w in s.workers && s.workers[w].Held? }

  /** Fibers block by registering and then yielding; callback fibers do not call YieldToReady; a descriptor's event has
      one waiter at a time; ids of new fibers and callbacks are new. */
  predicate Enabled(s: Rt, step: Step)
  {
    match step
    case DoSubmitFiber(f, _) => f !in s.fibers
    case DoSubmitCallback(c, _) => c !in s.issued
    case DoPick(w, i) => w in s.workers && s.workers[w] == Free && FirstEligible(s, w, i)
    case DoSwapIn(w) => Holds(s, w) && s.workers[w].task.work.WFiber?
    case DoStartCallback(w, g) => Holds(s, w) && s.workers[w].task.work.WCallback? && (w !in s.cbFiber ==> g !in s.fibers)
    case DoYieldHold(w) => IsRunning(s, w) && s.workers[w].f in s.registered
    case DoYieldReady(w) => IsFreeToAct(s, w) && !s.workers[w].viaCb
    case DoFinish(w, _) => IsFreeToAct(s, w)
    case DoRegisterFiber(w, fd, ev, _) => IsFreeToAct(s, w) && WaiterAt(s.io, fd, ev) == None
      && fd < |Covered(s.io, fd).ctxs| && ev !in Covered(s.io, fd).ctxs[fd].events
    case DoRegisterCallback(c, fd, ev, _) => c !in s.issued && WaiterAt(s.io, fd, ev) == None
      && fd < |Covered(s.io, fd).ctxs| && ev !in Covered(s.io, fd).ctxs[fd].events
    case DoDropEvent(fd, _, _) => fd < |s.io.ctxs|
    case DoCancelEvent(fd, _, _) => fd < |s.io.ctxs|
    case DoCancelAll(fd, _) => fd < |s.io.ctxs|
    case DoDispatch(fd, reported, failed, kernel) => fd < |s.io.ctxs| && DispatchSafe(s.io, fd, reported, failed, kernel)
    case DoSemWait(w, id) => IsFreeToAct(s, w) && id in s.sems
    case DoSemTryWait(id) => id in s.sems
    case DoSemNotify(id) => id in s.sems
  }

  function Next(s: Rt, step: Step): Rt
    requires Enabled(s, step)
  {
    match step
    case DoSubmitFiber(f, thread) => SubmitFiber(s, f, thread)
    case DoSubmitCallback(c, thread) => SubmitCallback(s, c, thread)
    case DoPick(w, i) => Pick(s, w, i)
    case DoSwapIn(w) => SwapIn(s, w)
    case DoStartCallback(w, g) => StartCallback(s, w, g)
    case DoYieldHold(w) => YieldHold(s, w)
    case DoYieldReady(w) => YieldReady(s, w)
    case DoFinish(w, ok) => Finish(s, w, ok)
    case DoRegisterFiber(w, fd, ev, kernel) => RegisterFiber(s, w, fd, ev, kernel)
    case DoRegisterCallback(c, fd, ev, kernel) => RegisterCallback(s, c, fd, ev, kernel)
    case DoDropEvent(fd, ev, kernel) => DropEvent(s, fd, ev, kernel)
    case DoCancelEvent(fd, ev, kernel) => var (io, _, ws) := CancelEvent(s.io, fd, ev, kernel); Release(s, io, ws)
    case DoCancelAll(fd, kernel) => var (io, _, ws) := CancelAll(s.io, fd, kernel); Release(s, io, ws)
    case DoDispatch(fd, reported, failed, kernel) =>
      var (io, ws) := Dispatch(s.io, fd, reported, failed, kernel); Release(s, io, ws)
    case DoSemWait(w, id) => SemWait(s, w, id)
    case DoSemTryWait(id) => SemTryWait(s, id)
    case DoSemNotify(id) => SemNotify(s, id)
  }

  lemma NextKeeps(s: Rt, step: Step)
    requires RtInv(s) && Enabled(s, step)
    ensures RtInv(Next(s, step))
  {
    hide RtInv, WaiterAt, FirstEligible, SubmitFiber, SubmitCallback, Pick, SwapIn, StartCallback, YieldHold;
    hide YieldReady, Finish, RegisterFiber, RegisterCallback, DropEvent, Release, SemWait, SemTryWait, SemNotify;
    match step
    case DoSubmitFiber(f, thread) => SubmitFiberKeeps(s, f, thread);
    case DoSubmitCallback(c, thread) => SubmitCallbackKeeps(s, c, thread);
    case DoPick(w, i) => PickKeeps(s, w, i);
    case DoSwapIn(w) => SwapInKeeps(s, w);
    case DoStartCallback(w, g) => StartCallbackKeeps(s, w, g);
    case DoYieldHold(w) => YieldHoldKeeps(s, w);
    case DoYieldReady(w) => YieldReadyKeeps(s, w);
    case DoFinish(w, ok) => FinishKeeps(s, w, ok);
    case DoRegisterFiber(w, fd, ev, kernel) => RegisterFiberKeeps(s, w, fd, ev, kernel);
    case DoRegisterCallback(c, fd, ev, kernel) => RegisterCallbackKeeps(s, c, fd, ev, kernel);
    case DoDropEvent(fd, ev, kernel) => DropEventKeeps(s, fd, ev, kernel);
    case DoCancelEvent(fd, ev, kernel) => CancelEventStep(s, fd, ev, kernel);
    case DoCancelAll(fd, kernel) => CancelAllStep(s, fd, kernel);
    case DoDispatch(fd, reported, failed, kernel) => DispatchStep(s, fd, reported, failed, kernel);
    case DoSemWait(w, id) => SemWaitKeeps(s, w, id);
    case DoSemTryWait(id) => SemTryWaitKeeps(s, id);
    case DoSemNotify(id) => SemNotifyKeeps(s, id);
  }

  // ---- runs ----

  /** Started workers, 32 descriptor contexts, nothing submitted, semaphores without waiters. */
  ghost predicate Init(s: Rt)
  {
    && s.fibers == map[] && s.registered == {} && s.queue == [] && s.cbFiber == map[] && s.active == 0
    && (forall w :: w in s.workers ==> s.workers[w] == Free)
    && s.io == Io(FreshCtxs(32), map[], 0)
    && (forall id :: id in s.sems ==> s.sems[id].waiters == [])
    && s.host == map[] && s.issued == {} && s.finished == {} && s.dropped == {}
  }

  lemma InitHolds(s: Rt)
    requires Init(s)
    ensures RtInv(s)
  {
    hide IoEvents.Inv;
    InitIo(s.io, 32);
    InitPlaces(s);
    assert forall w :: w !in Busy(s);
    hide At, Waits;
    assert forall f, w :: !KeptBy(s, f, w);
    assert forall c, f :: !HostedBy(s, c, f);
    forall f ensures FiberOk(s, f) {}
    forall c ensures CallbackOk(s, c) {}
  }

  lemma InitPlaces(s: Rt)
    requires Init(s)
    ensures Unique(s) && forall x :: !Waits(s, x)
  {
    forall x, l ensures !At(s, x, l) {}
  }

  lemma InitIo(io: Io, n: nat)
    requires io == Io(FreshCtxs(n), map[], 0) && n >= 32
    ensures IoEvents.Inv(io)
  {
    TotalFresh([], n);
    assert [] + FreshCtxs(n) == io.ctxs;
  }

  ghost predicate Run(s: Rt, steps: seq<Step>)
    decreases |steps|
  {
    steps == [] || (Enabled(s, steps[0]) && Run(Next(s, steps[0]), steps[1..]))
  }

  ghost function Exec(s: Rt, steps: seq<Step>): Rt
    requires Run(s, steps)
    decreases |steps|
  {
    if steps == [] then s else Exec(Next(s, steps[0]), steps[1..])
  }

  lemma {:induction false} RunKeeps(s: Rt, steps: seq<Step>)
    requires RtInv(s) && Run(s, steps)
    ensures RtInv(Exec(s, steps))
    decreases |steps|
  {
    hide RtInv, Enabled, Next;
    if steps != [] {
      NextKeeps(s, steps[0]);
      RunKeeps(Next(s, steps[0]), steps[1..]);
    }
  }

  // ---- the theorems ----

  /** In every run no fiber is executed by two workers, even when its event fires or its permit arrives between
      registering and yielding; and the assertions of swapIn and of the callback fiber's reset hold. */
  lemma NoDoubleExecution(s0: Rt, steps: seq<Step>)
    requires Init(s0) && Run(s0, steps)
    ensures var s := Exec(s0, steps);
            && (forall f, w, v :: Runs(s, f, w) && Runs(s, f, v) ==> w == v)
            && (forall w :: Holds(s, w) && s.workers[w].task.work.WFiber? ==>
                  s.workers[w].task.work.f in s.fibers && s.fibers[s.workers[w].task.work.f] != EXEC)
            && (forall w :: Holds(s, w) && w in s.cbFiber ==>
                  s.cbFiber[w] in s.fibers && s.fibers[s.cbFiber[w]] == INIT)
  {
    InitHolds(s0);
    RunKeeps(s0, steps);
    var s := Exec(s0, steps);
    forall w | Holds(s, w) && w in s.cbFiber ensures s.cbFiber[w] in s.fibers && s.fibers[s.cbFiber[w]] == INIT {
      assert KeepOk(s, w);
    }
  }

  /** A fiber executes code, that is it has not stored itself as a waiter. */
  predicate Executes(s: Rt, f: nat) { f in s.fibers && s.fibers[f] == EXEC && f !in s.registered }

  predicate Ended(s: Rt, f: nat) { f in s.fibers && s.fibers[f] in {TERM, EXCEPT} }

  ghost predicate IdleKept(s: Rt, f: nat) { f in s.fibers && s.fibers[f] == INIT && Kept(s, f) }

  /** Each fiber waits in one place, executes, has ended, had its waiter deleted or is kept for reuse: exactly one. */
  ghost predicate FiberConserved(s: Rt, f: nat)
  {
    Count(Waits(s, WFiber(f))) + Count(Executes(s, f)) + Count(Ended(s, f))
    + Count(WFiber(f) in s.dropped) + Count(IdleKept(s, f)) == 1
  }

  /** Each submitted callback waits in one place, is inside one fiber, has finished or was dropped: exactly one. */
  ghost predicate CallbackConserved(s: Rt, c: nat)
  {
    Count(Waits(s, WCallback(c))) + Count(Hosted(s, c))
    + Count(WCallback(c) in s.finished) + Count(WCallback(c) in s.dropped) == 1
  }

  /** Work conservation over every run and any number of workers: nothing waits in two places, each fiber and each
      callback is in exactly one of its places, entries are with their thread, and the active count is the number of
      workers with a task. */
  lemma WorkConserved(s0: Rt, steps: seq<Step>)
    requires Init(s0) && Run(s0, steps)
    ensures var s := Exec(s0, steps);
            && (forall x, l, m :: At(s, x, l) && At(s, x, m) ==> l == m)
            && (forall c :: c in s.issued ==> CallbackConserved(s, c))
            && (forall f :: f in s.fibers ==> FiberConserved(s, f))
            && Pinned(s)
            && s.active == |set w | w in s.workers && s.workers[w] != Free|
  {
    hide RtInv, At, Waits, Hosted, Pinned, Busy, CallbackConserved, FiberConserved;
    InitHolds(s0);
    RunKeeps(s0, steps);
    ConservedParts(Exec(s0, steps));
  }

  lemma ConservedParts(s: Rt)
    requires RtInv(s)
    ensures forall x, l, m :: At(s, x, l) && At(s, x, m) ==> l == m
    ensures forall c :: c in s.issued ==> CallbackConserved(s, c)
    ensures forall f :: f in s.fibers ==> FiberConserved(s, f)
    ensures Pinned(s) && Busy(s) == (set w | w in s.workers && s.workers[w] != Free) && s.active == |Busy(s)|
  {
    hide At, Waits, Hosted;
    forall c | c in s.issued ensures CallbackConserved(s, c) {
      assert CallbackOk(s, c);
    }
    forall f | f in s.fibers ensures FiberConserved(s, f) {
      assert FiberOk(s, f);
      if IdleKept(s, f) { KeptIdle(s, f); }
    }
  }

  lemma KeptIdle(s: Rt, f: nat)
    requires RtInv(s) && IdleKept(s, f)
    ensures !Waits(s, WFiber(f)) && WFiber(f) !in s.dropped
  {
    hide At, Waits;
    var w :| KeptBy(s, f, w);
    assert KeepOk(s, w);
    if IsRunning(s, w) { assert Runs(s, s.workers[w].f, w); }
  }

  function Count(b: bool): nat { if b then 1 else 0 }

  /** The uint64_t getNextTimer returns: ~0ull when there is no timer. */
  function NextTimeout(ts: TM.State, now: nat): nat
    requires TM.Known(ts)
  {
    match TM.Next(ts, now).1 case None => TM.WORD - 1 case Some(n) => n
  }

  /** stopping() as IOManager computes it from the timers, the pending count and the scheduler's own test. */
  predicate Stopping(s: Rt, ts: TM.State, now: nat, autoStop: bool, stopRequested: bool)
    requires TM.Known(ts)
  {
    NextTimeout(ts, now) == TM.WORD - 1 && s.io.pending == 0 && autoStop && stopRequested && s.queue == [] && s.active == 0
  }

  /** The timer part of the test says that there is no timer, whatever the deadlines, once the clock is past zero. */
  lemma NoTimeoutNoTimer(ts: TM.State, now: nat)
    requires TM.Known(ts) && now > 0 && forall a :: a in ts.pool ==> ts.pool[a].next < TM.WORD
    ensures NextTimeout(ts, now) == TM.WORD - 1 <==> ts.timers == []
  {
  }

  /** When stopping() says true there is no timer, no registered event, no queued or picked entry and no executing fiber,
      and every submitted callback has finished, was dropped, or is inside a fiber that sleeps. */
  lemma StoppingIsQuiet(s0: Rt, steps: seq<Step>, ts: TM.State, now: nat, autoStop: bool, stopRequested: bool)
    requires Init(s0) && Run(s0, steps)
    requires TM.Known(ts) && now > 0 && forall a :: a in ts.pool ==> ts.pool[a].next < TM.WORD
    requires Stopping(Exec(s0, steps), ts, now, autoStop, stopRequested)
    ensures var s := Exec(s0, steps); ts.timers == [] && s.queue == [] && Quiet(s)
  {
    hide RtInv, Run, Exec, Quiet;
    InitHolds(s0);
    RunKeeps(s0, steps);
    NoTimeoutNoTimer(ts, now);
    IdleIsQuiet(Exec(s0, steps));
  }

  ghost predicate Quiet(s: Rt)
  {
    && (forall fd: nat, ev :: WaiterAt(s.io, fd, ev) == None)
    && (forall w :: w in s.workers ==> s.workers[w] == Free)
    && (forall f :: f in s.fibers ==> s.fibers[f] != EXEC)
    && (forall c :: c in s.issued ==> Hosted(s, c) || WCallback(c) in s.finished || WCallback(c) in s.dropped)
  }

  lemma IdleIsQuiet(s: Rt)
    requires RtInv(s) && s.io.pending == 0 && s.queue == [] && s.active == 0
    ensures Quiet(s)
  {
    hide At, Waits, Hosted, Unique;
    NoBitsSet(s.io);
    assert forall w :: w in s.workers && s.workers[w] != Free ==> w in Busy(s);
    forall c | c in s.issued ensures Hosted(s, c) || WCallback(c) in s.finished || WCallback(c) in s.dropped {
      assert CallbackOk(s, c);
      NowhereToWait(s, WCallback(c));
    }
  }

  /** ... and whenever a stop was asked for, there is no timer, nothing is queued, no slot has a waiter and no worker has a
      task, it does say true: in every run the manager can stop exactly then. */
  lemma StoppingExact(s0: Rt, steps: seq<Step>, ts: TM.State, now: nat, autoStop: bool, stopRequested: bool)
    requires Init(s0) && Run(s0, steps)
    requires TM.Known(ts) && now > 0 && forall a :: a in ts.pool ==> ts.pool[a].next < TM.WORD
    ensures var s := Exec(s0, steps);
            Stopping(s, ts, now, autoStop, stopRequested) <==>
              && autoStop && stopRequested && ts.timers == [] && s.queue == []
              && (forall fd: nat, ev :: WaiterAt(s.io, fd, ev) == None) && (forall w :: w in s.workers ==> s.workers[w] == Free)
  {
    hide RtInv, Run, Exec;
    InitHolds(s0);
    RunKeeps(s0, steps);
    NoTimeoutNoTimer(ts, now);
    CountersExact(Exec(s0, steps));
  }

  /** The two counters are zero exactly when nobody waits in a slot and no worker is busy. */
  lemma CountersExact(s: Rt)
    requires RtInv(s)
    ensures s.io.pending == 0 <==> forall fd: nat, ev :: WaiterAt(s.io, fd, ev) == None
    ensures s.active == 0 <==> forall w :: w in s.workers ==> s.workers[w] == Free
  {
    hide At, Waits, Hosted, Unique, FiberOk, CallbackOk, KeepOk, Execution;
    NobodyBusy(s);
    if s.io.pending == 0 {
      NoBitsSet(s.io);
    }
    if forall fd: nat, ev :: WaiterAt(s.io, fd, ev) == None {
      forall i | 0 <= i < |s.io.ctxs| ensures Bits(s.io.ctxs[i]) == 0 {
        assert WaiterAt(s.io, i, READ) == None && WaiterAt(s.io, i, WRITE) == None;
      }
      NoBitsNone(s.io.ctxs);
    }
  }

  lemma {:induction false} NoBitsNone(xs: seq<FdCtx>)
    requires forall i :: 0 <= i < |xs| ==> Bits(xs[i]) == 0
    ensures TotalBits(xs) == 0
  {
    if xs != [] { NoBitsNone(xs[1..]); }
  }

  lemma NobodyBusy(s: Rt)
    ensures |Busy(s)| == 0 <==> forall w :: w in s.workers ==> s.workers[w] == Free
  {
    assert forall w :: w in s.workers && s.workers[w] != Free ==> w in Busy(s);
    if forall w :: w in s.workers ==> s.workers[w] == Free { assert Busy(s) == {}; }
  }

  lemma NoBitsSet(io: Io)
    requires IoEvents.Inv(io) && io.pending == 0
    ensures forall fd: nat, ev :: WaiterAt(io, fd, ev) == None
  {
    forall fd: nat, ev ensures WaiterAt(io, fd, ev) == None {
      if fd < |io.ctxs| {
        BitsBelowTotal(io.ctxs, fd);
        assert ev == READ || ev == WRITE;
      }
    }
  }

  lemma {:induction false} BitsBelowTotal(xs: seq<FdCtx>, i: nat)
    requires i < |xs|
    ensures Bits(xs[i]) <= TotalBits(xs)
  {
    if i > 0 {
      BitsBelowTotal(xs[1..], i - 1);
    }
  }

  lemma NowhereToWait(s: Rt, x: Waiter)
    requires x.WCallback? && s.queue == [] && (forall w :: w in s.workers ==> s.workers[w] == Free)
    requires forall fd: nat, ev :: WaiterAt(s.io, fd, ev) == None
    ensures !Waits(s, x)
  {
    forall l ensures !At(s, x, l) {}
  }

  lemma RtIo(s: Rt)
    requires RtInv(s)
    ensures IoEvents.Inv(s.io)
  {
  }

  lemma NextUnique(s: Rt, step: Step)
    requires RtInv(s) && Enabled(s, step)
    ensures Unique(Next(s, step))
  {
    hide Next, Enabled;
    NextKeeps(s, step);
  }

  // ---- where the code is fragile ----

  /** Fiber::reset accepts a callback fiber in one of these states only. */
  predicate ResetAllowed(st: FiberState) { st in {TERM, EXCEPT, INIT} }

  /** After YieldToReady the next callback on the same worker can be started, that is the kept fiber passes the
      assertion of reset, exactly when the yielding fiber was not started as a callback. */
  lemma YieldReadyExact(s: Rt, w: int)
    requires RtInv(s) && IsFreeToAct(s, w)
    ensures var t := YieldReady(s, w);
            (w in t.cbFiber ==> t.cbFiber[w] in t.fibers && ResetAllowed(t.fibers[t.cbFiber[w]])) <==> !s.workers[w].viaCb
  {
    hide Waits, At;
    assert KeepOk(s, w);
    RunningExec(s, w);
  }
}
