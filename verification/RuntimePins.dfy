/** Where work may run: an entry submitted for a thread stays with that thread until it yields or ends, over every run; and
    work that asked for no thread, or yielded, may be taken by any worker. */
module RuntimePins {
  import opened IoEvents
  import opened Runtime
  import opened RuntimeProofs
  import opened RuntimeRuns

  predicate QueuedFor(s: Rt, x: Waiter, t: int, i: int) { 0 <= i < |s.queue| && s.queue[i] == Task(x, t) }

  predicate HeldFor(s: Rt, x: Waiter, t: int) { t in s.workers && s.workers[t] == Held(Task(x, t)) }

  /** Worker t executes x, which asked for it: the fiber itself, or the callback inside the worker's callback fiber. */
  predicate RunsFor(s: Rt, x: Waiter, t: int)
  {
    && t in s.workers && s.workers[t].Running? && s.workers[t].thread == t
    && match x
       case WFiber(f) => s.workers[t].f == f && !s.workers[t].viaCb
       case WCallback(c) => s.workers[t].viaCb && s.workers[t].f in s.host && s.host[s.workers[t].f] == c
  }

  /** x is with the thread it asked for. */
  ghost predicate AtHome(s: Rt, x: Waiter, t: int)
  {
    (exists i :: QueuedFor(s, x, t, i)) || HeldFor(s, x, t) || RunsFor(s, x, t)
  }

  /** x gives the worker up: it yields or ends. */
  predicate GivesUp(s: Rt, step: Step, x: Waiter, t: int)
  {
    (step.DoYieldHold? || step.DoYieldReady? || step.DoFinish?) && step.w == t && RunsFor(s, x, t)
  }

  predicate Picks(s: Rt, step: Step, x: Waiter, w: int)
  {
    step.DoPick? && step.w == w && step.i < |s.queue| && s.queue[step.i].work == x
  }

  // ---- one step ----

  /** No step moves an entry within the queue, except that picking takes one out. */
  lemma QueueKeeps(s: Rt, step: Step, i: nat)
    requires Enabled(s, step) && i < |s.queue| && !(step.DoPick? && step.i == i)
    ensures var j := if step.DoPick? && step.i < i then i - 1 else i;
            j < |Next(s, step).queue| && Next(s, step).queue[j] == s.queue[i]
  {
    hide Eligible, WaiterAt, AddEvent, Covered, CancelEvent, CancelAll, Dispatch, DispatchSafe, DelEvent;
  }

  lemma QueuedStays(s: Rt, step: Step, x: Waiter, t: int, i: nat)
    requires Enabled(s, step) && QueuedFor(s, x, t, i) && t != -1
    ensures AtHome(Next(s, step), x, t)
  {
    hide WaiterAt, AddEvent, Covered, CancelEvent, CancelAll, Dispatch, DispatchSafe, DelEvent;
    if step.DoPick? && step.i == i {
      assert step.w == t;
      assert HeldFor(Next(s, step), x, t);
    } else {
      QueueKeeps(s, step, i);
      assert QueuedFor(Next(s, step), x, t, if step.DoPick? && step.i < i then i - 1 else i);
    }
  }

  lemma HeldStays(s: Rt, step: Step, x: Waiter, t: int)
    requires Enabled(s, step) && HeldFor(s, x, t)
    ensures HeldFor(Next(s, step), x, t) || RunsFor(Next(s, step), x, t)
  {
    hide Eligible, WaiterAt, AddEvent, Covered, CancelEvent, CancelAll, Dispatch, DispatchSafe, DelEvent;
  }

  lemma RunningStays(s: Rt, step: Step, x: Waiter, t: int)
    requires RtInv(s) && Enabled(s, step) && RunsFor(s, x, t) && !GivesUp(s, step, x, t)
    ensures RunsFor(Next(s, step), x, t)
  {
    hide RtInv, Eligible, WaiterAt, AddEvent, Covered, CancelEvent, CancelAll, Dispatch, DispatchSafe, DelEvent;
    HostKeeps(s, step, t);
  }

  /** The callback an executing fiber is in changes only by that fiber's own end. */
  lemma HostKeeps(s: Rt, step: Step, t: int)
    requires RtInv(s) && Enabled(s, step) && IsRunning(s, t) && !(step.DoFinish? && step.w == t)
    ensures var f := s.workers[t].f;
            (f in Next(s, step).host <==> f in s.host) && (f in s.host ==> Next(s, step).host[f] == s.host[f])
  {
    hide At, Waits, IoEvents.Inv, Eligible, WaiterAt, AddEvent, Covered, CancelEvent, CancelAll, Dispatch, DispatchSafe, DelEvent;
    var f := s.workers[t].f;
    assert Runs(s, f, t);
    if step.DoStartCallback? { assert KeepOk(s, step.w); }
    if step.DoFinish? { assert Runs(s, s.workers[step.w].f, step.w); }
  }

  /** Work that is with its thread stays there through every step by which it does not give up, and no other worker picks it. */
  lemma StepPinned(s: Rt, step: Step, x: Waiter, t: int)
    requires RtInv(s) && Enabled(s, step) && AtHome(s, x, t) && t != -1
    ensures GivesUp(s, step, x, t) || AtHome(Next(s, step), x, t)
    ensures forall w :: Picks(s, step, x, w) ==> w == t
  {
    hide RtInv, Enabled, Next;
    if i :| QueuedFor(s, x, t, i) {
      QueuedStays(s, step, x, t, i);
    } else if HeldFor(s, x, t) {
      HeldStays(s, step, x, t);
    } else if !GivesUp(s, step, x, t) {
      RunningStays(s, step, x, t);
    }
    if step.DoPick? && Picks(s, step, x, step.w) { OnlyHomePicks(s, step, x, t); }
  }

  lemma OnlyHomePicks(s: Rt, step: Step, x: Waiter, t: int)
    requires RtInv(s) && Enabled(s, step) && step.DoPick? && AtHome(s, x, t) && t != -1 && Picks(s, step, x, step.w)
    ensures step.w == t
  {
    hide IoEvents.Inv, CallbackOk, KeepOk, FiberOk, RunsFor;
    if i :| QueuedFor(s, x, t, i) {
      assert At(s, x, InQueue(step.i)) && At(s, x, InQueue(i));
    } else {
      NotQueuedToo(s, x, t, step.i, step.w);
    }
  }

  /** Held or running work has no entry in the queue that a worker may take. */
  lemma NotQueuedToo(s: Rt, x: Waiter, t: int, i: nat, w: int)
    requires RtInv(s) && (HeldFor(s, x, t) || RunsFor(s, x, t)) && i < |s.queue|
    ensures s.queue[i].work == x ==> !Eligible(s.queue[i], w, s.fibers)
  {
    hide IoEvents.Inv, KeepOk, FiberOk;
    if HeldFor(s, x, t) {
      NotAlso(s, x, HeldBy(t), InQueue(i));
    } else if x.WFiber? {
      assert Runs(s, x.f, t);
    } else {
      assert HostedBy(s, x.c, s.workers[t].f) && CallbackOk(s, x.c);
      assert !At(s, x, InQueue(i));
    }
  }

  // ---- runs ----

  /** All along the run, until it gives up for the first time, x is with thread t and only worker t picks it. */
  ghost predicate StaysHome(s: Rt, steps: seq<Step>, x: Waiter, t: int)
    requires Run(s, steps)
    decreases |steps|
  {
    && AtHome(s, x, t)
    && (steps == [] || GivesUp(s, steps[0], x, t)
        || ((forall w :: Picks(s, steps[0], x, w) ==> w == t) && StaysHome(Next(s, steps[0]), steps[1..], x, t)))
  }

  lemma {:induction false} HomeStays(s: Rt, steps: seq<Step>, x: Waiter, t: int)
    requires RtInv(s) && Run(s, steps) && AtHome(s, x, t) && t != -1
    ensures StaysHome(s, steps, x, t)
    decreases |steps|
  {
    hide RtInv, AtHome, GivesUp, Picks, Enabled, Next;
    if steps != [] && !GivesUp(s, steps[0], x, t) {
      StepPinned(s, steps[0], x, t);
      NextKeeps(s, steps[0]);
      HomeStays(Next(s, steps[0]), steps[1..], x, t);
    }
  }

  /** The work a step submits and the thread it asks for. */
  predicate Submits(step: Step, x: Waiter, t: int) { step == (match x case WFiber(f) => DoSubmitFiber(f, t) case WCallback(c) => DoSubmitCallback(c, t)) }

  /** In every run, work submitted for a thread stays with that thread until it first yields or ends: as a queue entry for
      it, held by it or running on it, and no other worker ever picks it. */
  lemma PinnedStaysHome(s0: Rt, before: seq<Step>, step: Step, after: seq<Step>, x: Waiter, t: int)
    requires Init(s0) && Run(s0, before) && Enabled(Exec(s0, before), step) && Submits(step, x, t) && t != -1
    requires Run(Next(Exec(s0, before), step), after)
    ensures StaysHome(Next(Exec(s0, before), step), after, x, t)
  {
    hide Run, Exec, RtInv, StaysHome;
    InitHolds(s0);
    RunKeeps(s0, before);
    var s := Exec(s0, before);
    NextKeeps(s, step);
    SubmitQueues(s, step, x, t);
    HomeStays(Next(s, step), after, x, t);
  }

  lemma SubmitQueues(s: Rt, step: Step, x: Waiter, t: int)
    requires Enabled(s, step) && Submits(step, x, t)
    ensures QueuedFor(Next(s, step), x, t, |s.queue|) && (t != -1 ==> AtHome(Next(s, step), x, t))
  {
    assert QueuedFor(Next(s, step), x, t, |s.queue|);
  }

  /** Every worker may take this entry. */
  ghost predicate ForAnyone(s: Rt, i: nat)
    requires i < |s.queue|
  {
    forall w :: Eligible(s.queue[i], w, s.fibers)
  }

  /** Work that asks for no thread, and a fiber that yields to ready, become entries that every worker may take. */
  lemma UnpinnedForAnyone(s: Rt, step: Step, x: Waiter, w: int)
    requires RtInv(s)
    ensures Enabled(s, step) && Submits(step, x, -1) ==>
              var t := Next(s, step); |t.queue| == |s.queue| + 1 && t.queue[|s.queue|].work == x && ForAnyone(t, |s.queue|)
    ensures IsFreeToAct(s, w) ==>
              var t := YieldReady(s, w);
              |t.queue| == |s.queue| + 1 && t.queue[|s.queue|].work == WFiber(s.workers[w].f) && ForAnyone(t, |s.queue|)
  {
    hide RtInv;
  }
}
