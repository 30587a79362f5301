/** When a timeout of do_io is lost: how a caller comes to be marked as timed out while it is still in its event slot, and
    what that means for its timers. */
module DoIoTimeouts {
  import opened IoEvents
  import opened Runtime
  import opened RuntimeProofs
  import RR = RuntimeRuns
  import SlotLedger
  import opened DoIo
  import opened DoIoProofs
  import opened DoIoRuns

  /** The caller is stored in the slot of the event it waits for. */
  predicate InItsSlot(s: Sys, f: nat)
  {
    f in s.calls && WaiterAt(s.rt.io, s.calls[f].fd, s.calls[f].ev) == Some(WFiber(f))
  }

  /** A timeout callback of the live call runs too early, when there is nothing to cancel yet (it may be one that an
      earlier round left over), or the kernel refuses to cancel. */
  ghost predicate Early(s: Sys, step: Step, f: nat, id: nat)
  {
    LiveCall(s, id, f) && RunsTimerOf(s, step, id) && (s.calls[f].phase != Parked || !step.kernel)
  }

  ghost predicate EverEarly(s: Sys, steps: seq<Step>, f: nat, id: nat)
    requires Run(s, steps)
    decreases |steps|
  {
    steps != [] && (Early(s, steps[0], f, id) || EverEarly(Next(s, steps[0]), steps[1..], f, id))
  }

  // ---- slots ----

  /** What a timeout callback does to the slots. */
  lemma TimerSlots(s: Sys, w: int, g: nat, f: nat, alive: bool, kernel: bool, fd: nat, ev: Event)
    requires SysInv(s) && Enabled(s, SRunTimer(w, g, f, alive, kernel))
    ensures var t := RunTimer(s, w, g, f, alive, kernel); var was := WaiterAt(s.rt.io, fd, ev);
            var hit := alive && !s.calls[f].cancelled && kernel && s.calls[f].fd == fd && s.calls[f].ev == ev;
            && WaiterAt(t.rt.io, fd, ev) == (if hit then None else was)
            && (alive && !s.calls[f].cancelled ==>
                  var x := WaiterAt(s.rt.io, s.calls[f].fd, s.calls[f].ev);
                  t.rt.queue == s.rt.queue + if kernel && x.Some? then [Task(x.value, -1)] else [])
            && (!(alive && !s.calls[f].cancelled) ==> t.rt.queue == s.rt.queue && t.rt.io == s.rt.io)
  {
    hide RtInv, WaiterAt, IoEvents.Inv, CancelEvent, CallOk, TimerOk;
    RR.RtIo(s.rt);
    if alive && !s.calls[f].cancelled {
      CancelSlots(StartCallback(s.rt, w, g), s.calls[f].fd, s.calls[f].ev, kernel, fd, ev);
    }
  }

  lemma CancelSlots(s: Rt, fd: nat, ev: Event, kernel: bool, h: nat, e: Event)
    requires IoEvents.Inv(s.io)
    ensures var t := CancelIn(s, fd, ev, kernel); var x := WaiterAt(s.io, fd, ev);
            && WaiterAt(t.io, h, e) == (if kernel && h == fd && e == ev then None else WaiterAt(s.io, h, e))
            && t.queue == s.queue + (if kernel && x.Some? then [Task(x.value, -1)] else [])
            && t.workers == s.workers && t.registered == s.registered
  {
    if fd < |s.io.ctxs| { CancelEventKeeps(s.io, fd, ev, kernel); }
  }

  /** A caller gets into a slot by its own registration only. */
  lemma SlotOnlyBySelf(s: Sys, step: Step, f: nat, fd: nat, ev: Event)
    requires SysInv(s) && Enabled(s, step) && f in s.calls && s.calls[f].phase == Parked
    requires WaiterAt(s.rt.io, fd, ev) != Some(WFiber(f))
    ensures WaiterAt(Next(s, step).rt.io, fd, ev) != Some(WFiber(f))
  {
    hide RtInv, WaiterAt, CallOk, TimerOk, RR.Enabled, RR.Next;
    match step
    case SRegister(w, kernel) =>
      var x := s.calls[RunningFiber(s, w)];
      SlotBySelf(s.rt, RR.DoRegisterFiber(w, x.fd, x.ev, kernel), f, fd, ev);
    case SRunTimer(w, g, h, alive, kernel) => TimerSlots(s, w, g, h, alive, kernel, fd, ev);
    case SRuntime(x) => SlotBySelf(s.rt, x, f, fd, ev);
    case _ =>
  }

  lemma SlotBySelf(s: Rt, x: RR.Step, f: nat, fd: nat, ev: Event)
    requires RtInv(s) && RR.Enabled(s, x) && !(x.DoRegisterFiber? && RR.IsRunning(s, x.w) && s.workers[x.w].f == f)
    requires WaiterAt(s.io, fd, ev) != Some(WFiber(f))
    ensures WaiterAt(RR.Next(s, x).io, fd, ev) != Some(WFiber(f))
  {
    hide RtInv, WaiterAt, SlotLedger.Queued, SlotLedger.Dropped, SlotLedger.Drops, SlotLedger.Releases;
    SlotLedger.SlotStep(s, x, fd, ev);
  }

  // ---- one step ----

  /** The caller was released and has not gone on yet. */
  predicate WasReleased(s: Sys, f: nat) { f in s.calls && s.calls[f].phase == Parked && !InItsSlot(s, f) }

  /** Marked, and not on the way out. */
  ghost predicate MarkedInside(s: Sys, f: nat, id: nat)
  {
    LiveCall(s, id, f) && s.calls[f].cancelled && !WasReleased(s, f)
  }

  /** A mark that stays inside the call comes from a callback that ran early. */
  lemma MarkedInsideBy(s: Sys, step: Step, f: nat, id: nat)
    requires SysInv(s) && Enabled(s, step) && MarkedInside(Next(s, step), f, id)
    ensures MarkedInside(s, f, id) || Early(s, step, f, id)
  {
    hide RtInv, WaiterAt, CallOk, TimerOk, RR.Enabled, RR.Next, StartCallback, Finish, CancelIn;
    var t := Next(s, step);
    FromBefore(s, step, f, id);
    if s.calls[f].cancelled {
      if WasReleased(s, f) {
        SlotOnlyBySelf(s, step, f, s.calls[f].fd, s.calls[f].ev);
        ReleasedGoesOn(s, step, f);
      }
    } else {
      TimerSlots(s, step.w, step.g, step.f, step.alive, step.kernel, s.calls[f].fd, s.calls[f].ev);
    }
  }

  /** A marked call was live before, and either marked already or marked by this step. */
  lemma FromBefore(s: Sys, step: Step, f: nat, id: nat)
    requires SysInv(s) && Enabled(s, step) && LiveCall(Next(s, step), id, f) && Next(s, step).calls[f].cancelled
    ensures LiveCall(s, id, f)
    ensures s.calls[f].cancelled || (RunsTimerOf(s, step, id) && step.alive && step.f == f)
  {
    hide RtInv, WaiterAt, CallOk, TimerOk, RR.Enabled, RR.Next, StartCallback, Finish, CancelIn;
    assert Ids(s);
  }

  /** A released caller that is marked stays as it is until its call ends. */
  lemma ReleasedGoesOn(s: Sys, step: Step, f: nat)
    requires Enabled(s, step) && f in s.calls && s.calls[f].phase == Parked && s.calls[f].cancelled
    requires f in Next(s, step).calls && Next(s, step).calls[f].id == s.calls[f].id
    ensures var x, y := s.calls[f], Next(s, step).calls[f]; y.phase == Parked && y.fd == x.fd && y.ev == x.ev
  {
    hide RtInv, WaiterAt, RR.Enabled, RR.Next, StartCallback, Finish, CancelIn;
  }

  // ---- runs ----

  lemma {:induction false} MarkedInSlotOnlyEarly(s: Sys, steps: seq<Step>, f: nat, id: nat)
    requires SysInv(s) && Run(s, steps) && MarkedInside(Exec(s, steps), f, id)
    ensures MarkedInside(s, f, id) || EverEarly(s, steps, f, id)
    decreases |steps|
  {
    hide SysInv, MarkedInside, Early, Enabled, Next;
    if steps != [] {
      StepKeeps(s, steps[0]);
      MarkedInSlotOnlyEarly(Next(s, steps[0]), steps[1..], f, id);
      if MarkedInside(Next(s, steps[0]), f, id) { MarkedInsideBy(s, steps[0], f, id); }
    }
  }

  /** The mark of a call lasts as long as the call. */
  lemma {:induction false} MarkStays(s: Sys, steps: seq<Step>, f: nat, id: nat)
    requires SysInv(s) && Run(s, steps) && LiveCall(s, id, f) && s.calls[f].cancelled
    ensures Over(Exec(s, steps), id) || (LiveCall(Exec(s, steps), id, f) && Exec(s, steps).calls[f].cancelled)
    decreases |steps|
  {
    hide SysInv, Over, Enabled, Next;
    if steps != [] {
      StepKeeps(s, steps[0]);
      MarkStep(s, steps[0], f, id);
      if Over(Next(s, steps[0]), id) {
        OverForever(Next(s, steps[0]), steps[1..], id);
      } else {
        MarkStays(Next(s, steps[0]), steps[1..], f, id);
      }
    }
  }

  lemma MarkStep(s: Sys, step: Step, f: nat, id: nat)
    requires SysInv(s) && Enabled(s, step) && LiveCall(s, id, f) && s.calls[f].cancelled
    ensures var t := Next(s, step); Over(t, id) || (LiveCall(t, id, f) && t.calls[f].cancelled)
  {
    hide RtInv, WaiterAt, TimerOk, RR.Enabled, RR.Next, StartCallback, Finish, CancelIn, Waits;
    var t := Next(s, step);
    assert CallOk(s, f) && Ids(s);
    if !LiveCall(t, id, f) {
      forall h ensures !LiveCall(t, id, h) {
        assert h != f ==> !LiveCall(s, id, h);
      }
    }
  }

  lemma {:induction false} EarlyMarks(s: Sys, steps: seq<Step>, f: nat, id: nat)
    requires SysInv(s) && Run(s, steps) && EverEarly(s, steps, f, id)
    ensures Over(Exec(s, steps), id) || (LiveCall(Exec(s, steps), id, f) && Exec(s, steps).calls[f].cancelled)
    decreases |steps|
  {
    hide SysInv, Over, Early, Enabled, Next;
    var t := Next(s, steps[0]);
    StepKeeps(s, steps[0]);
    if Early(s, steps[0], f, id) {
      EarlyStep(s, steps[0], f, id);
      MarkStays(t, steps[1..], f, id);
    } else {
      EarlyMarks(t, steps[1..], f, id);
    }
  }

  lemma EarlyStep(s: Sys, step: Step, f: nat, id: nat)
    requires SysInv(s) && Enabled(s, step) && Early(s, step, f, id)
    ensures LiveCall(Next(s, step), id, f) && Next(s, step).calls[f].cancelled
  {
    hide RtInv, WaiterAt, CallOk, TimerOk, RR.Enabled, StartCallback, Finish, CancelIn;
    assert Ids(s);
  }

  /** In every run: a caller in its event slot is marked exactly when a timeout callback of this very call ran before it
      had registered (in this round or an earlier one), or ran later and the kernel refused to cancel. */
  lemma MarkedInSlotExact(s0: Sys, steps: seq<Step>, f: nat)
    requires Init(s0) && Run(s0, steps) && InItsSlot(Exec(s0, steps), f)
    ensures var s := Exec(s0, steps); s.calls[f].cancelled <==> EverEarly(s0, steps, f, s.calls[f].id)
  {
    hide Run, Exec, SysInv, EverEarly;
    InitIsFine(s0);
    var s := Exec(s0, steps);
    var id := s.calls[f].id;
    assert LiveCall(s, id, f);
    if s.calls[f].cancelled {
      MarkedInSlotOnlyEarly(s0, steps, f, id);
    } else if EverEarly(s0, steps, f, id) {
      EarlyMarks(s0, steps, f, id);
    }
  }

  lemma InitIsFine(s0: Sys)
    requires Init(s0)
    ensures SysInv(s0) && s0.calls == map[]
  {
    hide RtInv;
    RR.InitHolds(s0.rt);
    assert forall c :: TimerOk(s0, c);
  }

  // ---- what the mark means ----

  /** No timeout callback of a marked call touches the event slots or the queue. */
  lemma MarkedIsDeaf(s: Sys, step: Step, f: nat)
    requires SysInv(s) && Enabled(s, step) && f in s.calls && s.calls[f].cancelled && RunsTimerOf(s, step, s.calls[f].id)
    ensures Next(s, step).rt.io == s.rt.io && Next(s, step).rt.queue == s.rt.queue
  {
    hide RtInv, CallOk, TimerOk, RR.Enabled;
    assert Ids(s);
  }

  /** Once a call is marked no timer of it releases anybody, in any continuation. */
  lemma DeafForever(s: Sys, steps: seq<Step>, step: Step, f: nat, id: nat)
    requires SysInv(s) && LiveCall(s, id, f) && s.calls[f].cancelled && Run(s, steps)
    requires Enabled(Exec(s, steps), step) && RunsTimerOf(Exec(s, steps), step, id)
    ensures var u := Exec(s, steps); Next(u, step).rt.io == u.rt.io && Next(u, step).rt.queue == u.rt.queue
  {
    hide Run, Exec, SysInv, Enabled, Next, RunsTimerOf, Over;
    RunKeeps(s, steps);
    MarkStays(s, steps, f, id);
    var u := Exec(s, steps);
    if Over(u, id) {
      OverTimer(u, step, id);
    } else {
      MarkedIsDeaf(u, step, f);
    }
  }

  lemma OverTimer(u: Sys, step: Step, id: nat)
    requires Over(u, id) && Enabled(u, step) && RunsTimerOf(u, step, id)
    ensures Next(u, step).rt.io == u.rt.io && Next(u, step).rt.queue == u.rt.queue
  {
    hide RR.Enabled;
  }

  /** A timeout callback of a caller in its slot always leaves it marked; it releases the caller exactly when it was not
      marked before and the kernel agrees, and otherwise changes no slot and no queue. */
  lemma TimerReleasesExact(s: Sys, w: int, g: nat, f: nat, kernel: bool)
    requires SysInv(s) && Enabled(s, SRunTimer(w, g, f, true, kernel)) && InItsSlot(s, f)
    ensures var t, x := Next(s, SRunTimer(w, g, f, true, kernel)), s.calls[f];
            && f in t.calls && t.calls[f].cancelled
            && (!InItsSlot(t, f) <==> kernel && !x.cancelled)
            && t.rt.queue == s.rt.queue + if kernel && !x.cancelled then [Task(WFiber(f), -1)] else []
  {
    hide RtInv, WaiterAt, CallOk, TimerOk, StartCallback, Finish, CancelIn;
    TimerSlots(s, w, g, f, true, kernel, s.calls[f].fd, s.calls[f].ev);
  }
}
