/** Runs of the fiber runtime from its initial state into the two assertions that can fail: the one in Fiber::reset after a
    callback fiber called YieldToReady, and the one in triggerEvent after half of a report went stale. */
module RuntimeWitness {
  import opened IoEvents
  import opened Runtime
  import opened RuntimeRuns

  ghost function Fresh(): Rt
  {
    Rt(map[], {}, [], map[0 := Free, 1 := Free], map[], 0, Io(FreshCtxs(32), map[], 0), map[], map[], {}, {}, {})
  }

  lemma {:induction false} RunSnoc(s: Rt, steps: seq<Step>, step: Step)
    requires Run(s, steps) && Enabled(Exec(s, steps), step)
    ensures Run(s, steps + [step]) && Exec(s, steps + [step]) == Next(Exec(s, steps), step)
    decreases |steps|
  {
    hide Enabled, Next;
    if steps == [] {
      assert steps + [step] == [step] && [step][1..] == [];
      assert Run(Next(s, step), []) && Exec(Next(s, step), []) == Next(s, step);
    } else {
      RunSnoc(Next(s, steps[0]), steps[1..], step);
      assert (steps + [step])[1..] == steps[1..] + [step];
    }
  }

  lemma RunNone(s: Rt)
    ensures Run(s, []) && Exec(s, []) == s
  {
  }

  // ---- YieldToReady in a callback ----

  /** Worker 0 executes callback 5 in fiber 1. */
  ghost predicate InCallback(s: Rt)
  {
    && s.fibers == map[1 := EXEC] && s.registered == {} && s.queue == [] && s.issued == {5}
    && s.workers == map[0 := Running(1, true, -1), 1 := Free] && s.cbFiber == map[0 := 1]
  }

  lemma CallbackStarts(s: Rt)
    requires s == Fresh()
    ensures Enabled(s, DoSubmitCallback(5, -1)) && var t := Next(s, DoSubmitCallback(5, -1));
            Enabled(t, DoPick(0, 0)) && var u := Next(t, DoPick(0, 0));
            Enabled(u, DoStartCallback(0, 1)) && InCallback(Next(u, DoStartCallback(0, 1)))
  {
    hide WaiterAt, AddEvent, DispatchSafe;
  }

  /** A worker is about to run a callback in the fiber it kept, and reset will refuse that fiber. */
  predicate ResetFails(s: Rt, w: int)
  {
    && Holds(s, w) && s.workers[w].task.work.WCallback? && w in s.cbFiber && s.cbFiber[w] in s.fibers
    && !ResetAllowed(s.fibers[s.cbFiber[w]])
  }

  /** The callback yields to ready; worker 1 takes its fiber and worker 0 the next callback. */
  lemma NextCallbackFails(s: Rt)
    requires InCallback(s)
    ensures IsFreeToAct(s, 0) && s.workers[0].viaCb && var a := YieldReady(s, 0);
            Enabled(a, DoSubmitCallback(6, -1)) && var b := Next(a, DoSubmitCallback(6, -1));
            Enabled(b, DoPick(1, 0)) && var c := Next(b, DoPick(1, 0));
            Enabled(c, DoPick(0, 0)) && ResetFails(Next(c, DoPick(0, 0)), 0)
  {
    hide WaiterAt, AddEvent, DispatchSafe;
  }

  /** A run to a callback whose YieldToReady makes the next callback on its worker fail. */
  lemma YieldReadyHappens() returns (steps: seq<Step>)
    ensures Init(Fresh()) && Run(Fresh(), steps) && InCallback(Exec(Fresh(), steps))
    ensures var a := YieldReady(Exec(Fresh(), steps), 0);
            Enabled(a, DoSubmitCallback(6, -1)) && var b := Next(a, DoSubmitCallback(6, -1));
            Enabled(b, DoPick(1, 0)) && var c := Next(b, DoPick(1, 0));
            Enabled(c, DoPick(0, 0)) && ResetFails(Next(c, DoPick(0, 0)), 0)
  {
    hide Run, Exec, Enabled, Next;
    steps := [];
    RunNone(Fresh());
    CallbackStarts(Fresh());
    RunSnoc(Fresh(), steps, DoSubmitCallback(5, -1)); steps := steps + [DoSubmitCallback(5, -1)];
    RunSnoc(Fresh(), steps, DoPick(0, 0)); steps := steps + [DoPick(0, 0)];
    RunSnoc(Fresh(), steps, DoStartCallback(0, 1)); steps := steps + [DoStartCallback(0, 1)];
    NextCallbackFails(Exec(Fresh(), steps));
  }

  // ---- a stale report ----

  ghost predicate BothRegistered(io: Io)
  {
    IoEvents.Inv(io) && 3 < |io.ctxs| && io.ctxs[3].events == {READ, WRITE}
  }

  lemma RegisterBoth(s: Rt)
    requires s == Fresh()
    ensures Enabled(s, DoRegisterCallback(5, 3, READ, true)) && var t := Next(s, DoRegisterCallback(5, 3, READ, true));
            Enabled(t, DoRegisterCallback(6, 3, WRITE, true)) && BothRegistered(Next(t, DoRegisterCallback(6, 3, WRITE, true)).io)
  {
    hide AddEvent, DispatchSafe, Covered, IoEvents.Inv, WaiterAt, BothRegistered, FirstEligible, CancelEvent, DelEvent;
    InitIo(s.io, 32);
    NoneRegistered(s.io);
    AddEventKeeps(s.io, 3, READ, WCallback(5), true);
    var t := AddEvent(s.io, 3, READ, WCallback(5), true).0;
    AddEventKeeps(t, 3, WRITE, WCallback(6), true);
    var u := AddEvent(t, 3, WRITE, WCallback(6), true).0;
    BothWaiting(u);
  }

  lemma NoneRegistered(io: Io)
    requires io == Io(FreshCtxs(32), map[], 0)
    ensures WaiterAt(io, 3, READ) == None && WaiterAt(io, 3, WRITE) == None
  {
  }

  lemma BothWaiting(io: Io)
    requires IoEvents.Inv(io) && WaiterAt(io, 3, READ).Some? && WaiterAt(io, 3, WRITE).Some?
    ensures BothRegistered(io)
  {
    hide IoEvents.Inv;
    forall e ensures e in io.ctxs[3].events <==> e in {READ, WRITE} { assert e == READ || e == WRITE; }
  }

  /** A run after which a report of both events is fine, and fails once one of them has been cancelled. */
  lemma StaleReportHappens() returns (steps: seq<Step>)
    ensures Init(Fresh()) && Run(Fresh(), steps) && 3 < |Exec(Fresh(), steps).io.ctxs|
    ensures var s := Exec(Fresh(), steps);
            && DispatchRound(s.io, 3, {READ, WRITE}, false, true) != AssertionFails
            && Enabled(s, DoCancelEvent(3, READ, true)) && var t := Next(s, DoCancelEvent(3, READ, true));
               3 < |t.io.ctxs| && DispatchRound(t.io, 3, {READ, WRITE}, false, true) == AssertionFails
  {
    hide Run, Exec, DispatchRound, CancelEvent, IoEvents.Inv, AddEvent, Covered, DispatchSafe;
    steps := [];
    RunNone(Fresh());
    RegisterBoth(Fresh());
    RunSnoc(Fresh(), steps, DoRegisterCallback(5, 3, READ, true)); steps := steps + [DoRegisterCallback(5, 3, READ, true)];
    RunSnoc(Fresh(), steps, DoRegisterCallback(6, 3, WRITE, true)); steps := steps + [DoRegisterCallback(6, 3, WRITE, true)];
    StaleReport(Exec(Fresh(), steps).io, 3);
  }
}
