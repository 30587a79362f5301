/** Whole runs of the blocking-call protocol, over every interleaving of callers, timers, events and workers. */
module DoIoRuns {
  import opened IoEvents
  import opened Runtime
  import opened RuntimeProofs
  import RR = RuntimeRuns
  import opened DoIo
  import opened DoIoProofs

  ghost predicate Init(s: Sys)
  {
    RR.Init(s.rt) && s.calls == map[] && s.armed == {} && s.owner == map[] && s.used == {} && s.fired == map[]
  }

  ghost predicate Run(s: Sys, steps: seq<Step>)
    decreases |steps|
  {
    steps == [] || (Enabled(s, steps[0]) && Run(Next(s, steps[0]), steps[1..]))
  }

  ghost function Exec(s: Sys, steps: seq<Step>): Sys
    requires Run(s, steps)
    decreases |steps|
  {
    if steps == [] then s else Exec(Next(s, steps[0]), steps[1..])
  }

  lemma {:induction false} RunKeeps(s: Sys, steps: seq<Step>)
    requires SysInv(s) && Run(s, steps)
    ensures SysInv(Exec(s, steps))
    decreases |steps|
  {
    hide SysInv, Enabled, Next;
    if steps != [] {
      StepKeeps(s, steps[0]);
      RunKeeps(Next(s, steps[0]), steps[1..]);
    }
  }

  lemma RunNone(s: Sys)
    ensures Run(s, []) && Exec(s, []) == s
  {
  }

  lemma {:induction false} RunSnoc(s: Sys, steps: seq<Step>, step: Step)
    requires Run(s, steps) && Enabled(Exec(s, steps), step)
    ensures Run(s, steps + [step]) && Exec(s, steps + [step]) == Next(Exec(s, steps), step)
    decreases |steps|
  {
    hide Enabled, Next;
    if steps == [] {
      assert steps + [step] == [step] && [step][1..] == [];
      RunNone(Next(s, step));
    } else {
      RunSnoc(Next(s, steps[0]), steps[1..], step);
      assert (steps + [step])[1..] == steps[1..] + [step];
    }
  }

  lemma Reachable(s0: Sys, steps: seq<Step>)
    requires Init(s0) && Run(s0, steps)
    ensures SysInv(Exec(s0, steps))
  {
    hide RtInv, Enabled, Next;
    RR.InitHolds(s0.rt);
    assert forall c :: TimerOk(s0, c);
    RunKeeps(s0, steps);
  }

  // ---- waking and returning ----

  /** A fiber that runs and has not registered is in no slot, queue or semaphore, and no worker holds it. */
  lemma RunningWaitsNowhere(s: Rt, w: int)
    requires RtInv(s) && RR.IsFreeToAct(s, w)
    ensures !Waits(s, WFiber(s.workers[w].f))
  {
    hide At, Waits, IoEvents.Inv;
    assert Runs(s, s.workers[w].f, w) && FiberOk(s, s.workers[w].f);
  }

  /** Blocking calls and timeouts included, no fiber is ever run by two workers at once. */
  lemma NeverTwoWorkers(s0: Sys, steps: seq<Step>, f: nat, w: int, v: int)
    requires Init(s0) && Run(s0, steps) && Runs(Exec(s0, steps).rt, f, w) && Runs(Exec(s0, steps).rt, f, v)
    ensures w == v
  {
    hide CallOk, TimerOk, Run, Exec, At, Waits, IoEvents.Inv;
    Reachable(s0, steps);
  }

  /** In every run a blocked caller has been swapped in exactly once since it registered when its yield returns, and it
      waits nowhere then: no event slot, queue or worker has a second entry for it. */
  lemma WokenExactlyOnce(s0: Sys, steps: seq<Step>, w: int)
    requires Init(s0) && Run(s0, steps) && Enabled(Exec(s0, steps), SResume(w))
    ensures var s := Exec(s0, steps); var f := RunningFiber(s, w);
            s.calls[f].wakes == 1 && !Waits(s.rt, WFiber(f))
  {
    hide RtInv, Waits, Run, Exec;
    Reachable(s0, steps);
    var s := Exec(s0, steps);
    RunningCaller(s.rt, w);
    assert CallOk(s, RunningFiber(s, w));
    RunningWaitsNowhere(s.rt, w);
  }

  /** The step ends the call of the fiber running on w: success or a lasting error, a failed registration, a timeout. */
  ghost predicate Returns(s: Sys, step: Step, w: int)
    requires Enabled(s, step)
  {
    || step == SReturn(w)
    || step == SRegister(w, false)
    || (step == SResume(w) && s.calls[RunningFiber(s, w)].cancelled)
  }

  /** Whichever way a call returns, its fiber waits nowhere and none of its timers is armed afterwards. */
  lemma ReturnsClean(s0: Sys, steps: seq<Step>, step: Step, w: int)
    requires Init(s0) && Run(s0, steps) && Enabled(Exec(s0, steps), step) && Returns(Exec(s0, steps), step, w)
    ensures var s := Exec(s0, steps); var f := RunningFiber(s, w); var t := Next(s, step);
            && f in s.calls && f !in t.calls && !Waits(t.rt, WFiber(f))
            && (forall c :: c in t.owner && t.owner[c] == s.calls[f].id ==> c !in t.armed)
  {
    Reachable(s0, steps);
    var s := Exec(s0, steps);
    ReturnsCleanAt(s, step, w);
  }

  lemma ReturnsCleanAt(s: Sys, step: Step, w: int)
    requires SysInv(s) && Enabled(s, step) && Returns(s, step, w)
    ensures var f := RunningFiber(s, w); var t := Next(s, step);
            && f in s.calls && f !in t.calls && !Waits(t.rt, WFiber(f))
            && (forall c :: c in t.owner && t.owner[c] == s.calls[f].id ==> c !in t.armed)
  {
    hide RtInv, Waits;
    var f := RunningFiber(s, w);
    var t := Next(s, step);
    StepKeeps(s, step);
    if step == SRegister(w, false) {
      FailedRegistration(s.rt, w, s.calls[f].fd, s.calls[f].ev);
    }
    RunningWaitsNowhere(t.rt, w);
    forall c | c in t.owner && t.owner[c] == s.calls[f].id ensures c !in t.armed {
      if c in t.armed { ArmedHasCall(s, t, c, f); }
    }
  }

  lemma ArmedHasCall(s: Sys, t: Sys, c: nat, f: nat)
    requires SysInv(s) && SysInv(t) && t.owner == s.owner && f in s.calls && c in t.armed && c in s.owner
    requires t.calls == s.calls - {f}
    ensures s.owner[c] != s.calls[f].id
  {
    hide RtInv, Waits;
    assert TimerOk(t, c);
    var g :| g in t.calls && t.calls[g].timer == Some(c);
    assert CallOk(s, g) && g in s.calls;
  }

  lemma FailedRegistration(s: Rt, w: int, fd: nat, ev: Event)
    requires RtInv(s) && RR.Enabled(s, RR.DoRegisterFiber(w, fd, ev, false))
    ensures var t := RR.Next(s, RR.DoRegisterFiber(w, fd, ev, false));
            t.workers == s.workers && t.registered == s.registered
  {
    hide RtInv, WaiterAt;
    RR.RtIo(s);
    AddEventKeeps(s.io, fd, ev, WFiber(s.workers[w].f), false);
  }

  // ---- the timeout error ----

  ghost predicate Marked(s: Sys, id: nat) { exists h :: LiveCall(s, id, h) && s.calls[h].cancelled }

  /** The step runs a timeout callback that was created for the call with this id. */
  ghost predicate RunsTimerOf(s: Sys, step: Step, id: nat)
  {
    step.SRunTimer? && HoldsCallback(s.rt, step.w) && HeldCallback(s.rt, step.w) in s.owner
    && s.owner[HeldCallback(s.rt, step.w)] == id
  }

  /** Only such a step marks a call. */
  lemma MarkedBy(s: Sys, step: Step, id: nat)
    requires Enabled(s, step) && Marked(Next(s, step), id)
    ensures Marked(s, id) || RunsTimerOf(s, step, id)
  {
    hide RR.Enabled, RR.Next, StartCallback, Finish, CancelIn;
    var t := Next(s, step);
    var h :| LiveCall(t, id, h) && t.calls[h].cancelled;
    if h in s.calls && s.calls[h].cancelled && s.calls[h].id == id {
      assert LiveCall(s, id, h);
    }
  }

  /** In every run, when a call reports the timeout error a callback of one of its own timers has run before. */
  lemma {:induction false} TimeoutIsOwn(s: Sys, steps: seq<Step>, id: nat)
    requires Run(s, steps) && !Marked(s, id) && Marked(Exec(s, steps), id)
    ensures exists k :: 0 <= k < |steps| && Run(s, steps[..k]) && RunsTimerOf(Exec(s, steps[..k]), steps[k], id)
    decreases |steps|
  {
    hide Marked, RunsTimerOf, Next, Enabled;
    if steps != [] {
      var t := Next(s, steps[0]);
      if Marked(t, id) {
        MarkedBy(s, steps[0], id);
        assert steps[..0] == [];
      } else {
        TimeoutIsOwn(t, steps[1..], id);
        var k :| 0 <= k < |steps[1..]| && Run(t, steps[1..][..k]) && RunsTimerOf(Exec(t, steps[1..][..k]), steps[1..][k], id);
        assert steps[..k + 1][0] == steps[0] && steps[..k + 1][1..] == steps[1..][..k];
        assert RunsTimerOf(Exec(s, steps[..k + 1]), steps[k + 1], id);
      }
    }
  }

  // ---- left-over timers ----

  ghost predicate Over(s: Sys, id: nat) { id in s.used && forall h :: !LiveCall(s, id, h) }

  lemma OverStays(s: Sys, step: Step, id: nat)
    requires Enabled(s, step) && Over(s, id)
    ensures Over(Next(s, step), id)
  {
    hide RR.Enabled, RR.Next, StartCallback, Finish, CancelIn;
    forall h ensures !LiveCall(Next(s, step), id, h) {
      assert !LiveCall(s, id, h);
    }
  }

  lemma {:induction false} OverForever(s: Sys, steps: seq<Step>, id: nat)
    requires Run(s, steps) && Over(s, id)
    ensures Over(Exec(s, steps), id)
    decreases |steps|
  {
    hide Over, Next, Enabled;
    if steps != [] {
      OverStays(s, steps[0], id);
      OverForever(Next(s, steps[0]), steps[1..], id);
    }
  }

  /** Once a call is over, a timer of it that still fires, however much later, cancels nothing, wakes nobody and marks
      no other call: it only comes and goes. */
  lemma LeftoverTimerHarmless(s: Sys, steps: seq<Step>, id: nat, step: Step)
    requires Run(s, steps) && Over(s, id) && Enabled(Exec(s, steps), step) && RunsTimerOf(Exec(s, steps), step, id)
    ensures var u := Exec(s, steps); var t := Next(u, step);
            t.rt.io == u.rt.io && t.rt.queue == u.rt.queue && t.rt.sems == u.rt.sems && t.calls == u.calls && t.armed == u.armed
  {
    hide Run, Exec, RR.Enabled;
    OverForever(s, steps, id);
  }

  // ---- the timeout itself ----

  /** In every run a caller with a timeout that is parked and not marked has its timer armed, or the timer's callback
      waits to be run. */
  lemma ParkedIsGuarded(s0: Sys, steps: seq<Step>, f: nat)
    requires Init(s0) && Run(s0, steps)
    requires var s := Exec(s0, steps); f in s.calls && s.calls[f].phase == Parked && s.calls[f].timed && !s.calls[f].cancelled
    ensures var s := Exec(s0, steps);
            s.calls[f].timer.Some? && (s.calls[f].timer.value in s.armed || Waits(s.rt, WCallback(s.calls[f].timer.value)))
  {
    hide RtInv, Waits, Run, Exec;
    Reachable(s0, steps);
    assert CallOk(Exec(s0, steps), f);
  }
}
