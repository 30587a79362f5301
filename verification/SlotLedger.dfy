/** The accounts of one event slot over whole runs of the fiber runtime: every waiter that addEvent stored leaves the slot
    once, dropped by delEvent or moved to the queue by cancelEvent, cancelAll or the dispatch loop. */
module SlotLedger {
  import opened IoEvents
  import opened Runtime
  import opened RuntimeTokens
  import opened RuntimeProofs
  import opened RuntimeRuns

  /** A successful addEvent on this slot. */
  predicate Fills(step: Step, fd: nat, ev: Event)
  {
    (step.DoRegisterFiber? || step.DoRegisterCallback?) && step.fd == fd && step.ev == ev && step.kernel
  }

  /** A successful delEvent on this slot. */
  predicate Drops(s: Rt, step: Step, fd: nat, ev: Event)
  {
    step.DoDropEvent? && step.fd == fd && step.ev == ev && step.kernel && WaiterAt(s.io, fd, ev).Some?
  }

  /** cancelEvent, cancelAll or a report that reaches this slot, and the kernel agrees. */
  predicate Releases(s: Rt, step: Step, fd: nat, ev: Event)
  {
    && WaiterAt(s.io, fd, ev).Some?
    && match step
       case DoCancelEvent(g, e, kernel) => g == fd && e == ev && kernel
       case DoCancelAll(g, kernel) => g == fd && kernel
       case DoDispatch(g, reported, failed, kernel) => g == fd && kernel && (ev in reported || failed)
       case _ => false
  }

  /** The waiter addEvent stores: the running fiber or the callback. */
  function Stored(s: Rt, step: Step): Waiter
  {
    if step.DoRegisterCallback? then WCallback(step.c)
    else if step.DoRegisterFiber? && IsRunning(s, step.w) then WFiber(s.workers[step.w].f)
    else WFiber(0)
  }

  predicate HasAt(q: seq<Task>, j: int, x: Waiter) { 0 <= j < |q| && q[j].work == x }

  /** The waiter of the slot was dropped: it waits nowhere any more. */
  ghost predicate Dropped(s: Rt, t: Rt, x: Waiter)
  {
    x in t.dropped && !Waits(t, x) && t.queue == s.queue
  }

  /** The waiter of the slot has become one new entry of the queue and waits nowhere else. */
  ghost predicate Queued(s: Rt, t: Rt, x: Waiter)
  {
    && t.dropped == s.dropped && s.queue <= t.queue
    && (exists j :: |s.queue| <= j && HasAt(t.queue, j, x))
    && (forall l, m :: At(t, x, l) && At(t, x, m) ==> l == m)
  }

  /** What a step does to one slot. */
  ghost predicate Accounted(s: Rt, t: Rt, step: Step, fd: nat, ev: Event)
  {
    var was, now := WaiterAt(s.io, fd, ev), WaiterAt(t.io, fd, ev);
    if Fills(step, fd, ev) then was == None && now == Some(Stored(s, step))
    else if Drops(s, step, fd, ev) then was.Some? && now == None && Dropped(s, t, was.value)
    else if Releases(s, step, fd, ev) then was.Some? && now == None && Queued(s, t, was.value)
    else now == was
  }

  lemma SlotStep(s: Rt, step: Step, fd: nat, ev: Event)
    requires RtInv(s) && Enabled(s, step)
    ensures Accounted(s, Next(s, step), step, fd, ev)
  {
    hide RtInv, At, Waits, IoEvents.Inv, FirstEligible, Queued, Dropped, AddEvent, Covered;
    match step
    case DoRegisterFiber(w, g, e, kernel) => RtIo(s); AddEventKeeps(s.io, g, e, WFiber(s.workers[w].f), kernel);
    case DoRegisterCallback(c, g, e, kernel) => RtIo(s); AddEventKeeps(s.io, g, e, WCallback(c), kernel);
    case DoDropEvent(g, e, kernel) => DropStep(s, g, e, kernel, fd, ev);
    case DoCancelEvent(g, e, kernel) => CancelSlot(s, g, e, kernel, fd, ev);
    case DoCancelAll(g, kernel) => CancelAllSlot(s, g, kernel, fd, ev);
    case DoDispatch(g, reported, failed, kernel) => DispatchSlot(s, g, reported, failed, kernel, fd, ev);
    case _ =>
  }

  lemma DropStep(s: Rt, g: nat, e: Event, kernel: bool, fd: nat, ev: Event)
    requires RtInv(s) && Enabled(s, DoDropEvent(g, e, kernel))
    ensures Accounted(s, DropEvent(s, g, e, kernel), DoDropEvent(g, e, kernel), fd, ev)
  {
    hide RtInv, At, Waits, IoEvents.Inv, DelEvent, WaiterAt;
    RtParts(s);
    DelEventKeeps(s.io, g, e, kernel);
    SlotDropped(s, DropEvent(s, g, e, kernel), g, e, DelEvent(s.io, g, e, kernel).1);
  }

  /** A release of the waiters of descriptor g for the events `gone` accounts for the slot. */
  lemma ReleaseSlot(s: Rt, io: Io, g: nat, gone: set<Event>, fd: nat, ev: Event)
    requires Unique(Release(s, io, IoEvents.Waiting(s.io, g, gone)))
    requires forall h: nat, e :: WaiterAt(io, h, e) == if h == g && e in gone then None else WaiterAt(s.io, h, e)
    ensures var t := Release(s, io, IoEvents.Waiting(s.io, g, gone)); var was := WaiterAt(s.io, fd, ev);
            if g == fd && ev in gone && was.Some? then WaiterAt(t.io, fd, ev) == None && Queued(s, t, was.value)
            else WaiterAt(t.io, fd, ev) == was
  {
    hide WaiterAt, At;
    var ws := IoEvents.Waiting(s.io, g, gone);
    var t := Release(s, io, ws);
    if g == fd && ev in gone && WaiterAt(s.io, fd, ev).Some? {
      assert ev == READ || ev == WRITE;
      var x := WaiterAt(s.io, fd, ev).value;
      var k := if ev == READ || !(READ in gone && WaiterAt(s.io, fd, READ).Some?) then 0 else 1;
      assert ws[k] == x;
      assert HasAt(t.queue, |s.queue| + k, x);
    }
  }

  lemma CancelSlot(s: Rt, g: nat, e: Event, kernel: bool, fd: nat, ev: Event)
    requires RtInv(s) && Enabled(s, DoCancelEvent(g, e, kernel))
    ensures Accounted(s, Next(s, DoCancelEvent(g, e, kernel)), DoCancelEvent(g, e, kernel), fd, ev)
  {
    hide RtInv, At, Waits, IoEvents.Inv, CancelEvent, WaiterAt, IoEvents.Waiting, Queued;
    RtIo(s);
    NextUnique(s, DoCancelEvent(g, e, kernel));
    CancelEventKeeps(s.io, g, e, kernel);
    var (io, ok, ws) := CancelEvent(s.io, g, e, kernel);
    SingleWaiting(s.io, g, e, ok);
    ReleaseSlot(s, io, g, if ok then {e} else {}, fd, ev);
  }

  lemma CancelAllSlot(s: Rt, g: nat, kernel: bool, fd: nat, ev: Event)
    requires RtInv(s) && Enabled(s, DoCancelAll(g, kernel))
    ensures Accounted(s, Next(s, DoCancelAll(g, kernel)), DoCancelAll(g, kernel), fd, ev)
  {
    hide RtInv, At, Waits, IoEvents.Inv, CancelAll, IoEvents.Waiting, Queued;
    RtIo(s);
    NextUnique(s, DoCancelAll(g, kernel));
    CancelAllKeeps(s.io, g, kernel);
    var (io, ok, ws) := CancelAll(s.io, g, kernel);
    NoneWaiting(s.io, g);
    forall h: nat, e ensures WaiterAt(io, h, e) == if ok && h == g && e in {READ, WRITE} then None else WaiterAt(s.io, h, e) {
      assert e == READ || e == WRITE;
    }
    assert ev == READ || ev == WRITE;
    ReleaseSlot(s, io, g, if ok then {READ, WRITE} else {}, fd, ev);
  }

  lemma DispatchSlot(s: Rt, g: nat, reported: set<Event>, failed: bool, kernel: bool, fd: nat, ev: Event)
    requires RtInv(s) && Enabled(s, DoDispatch(g, reported, failed, kernel))
    ensures Accounted(s, Next(s, DoDispatch(g, reported, failed, kernel)), DoDispatch(g, reported, failed, kernel), fd, ev)
  {
    hide RtInv, At, Waits, IoEvents.Inv, Dispatch, IoEvents.Waiting, Queued;
    RtIo(s);
    NextUnique(s, DoDispatch(g, reported, failed, kernel));
    DispatchKeeps(s.io, g, reported, failed, kernel);
    var due := RealEvents(reported, failed, s.io.ctxs[g]) * s.io.ctxs[g].events;
    ReleaseSlot(s, Dispatch(s.io, g, reported, failed, kernel).0, g, if kernel then due else {}, fd, ev);
  }

  // ---- whole runs ----

  datatype Account = Account(fills: nat, drops: nat, releases: nat)

  /** How often each of the three happened to this slot during a run. */
  ghost function Tally(s: Rt, steps: seq<Step>, fd: nat, ev: Event): Account
    requires Run(s, steps)
    decreases |steps|
  {
    if steps == [] then Account(0, 0, 0)
    else
      var a := Tally(Next(s, steps[0]), steps[1..], fd, ev);
      if Fills(steps[0], fd, ev) then a.(fills := a.fills + 1)
      else if Drops(s, steps[0], fd, ev) then a.(drops := a.drops + 1)
      else if Releases(s, steps[0], fd, ev) then a.(releases := a.releases + 1)
      else a
  }

  function Occupied(s: Rt, fd: nat, ev: Event): nat { if WaiterAt(s.io, fd, ev).Some? then 1 else 0 }

  lemma {:induction false} SlotBalance(s: Rt, steps: seq<Step>, fd: nat, ev: Event)
    requires RtInv(s) && Run(s, steps)
    ensures var a := Tally(s, steps, fd, ev);
            Occupied(s, fd, ev) + a.fills == a.drops + a.releases + Occupied(Exec(s, steps), fd, ev)
    decreases |steps|
  {
    hide RtInv, Enabled, Next, Fills, Drops, Releases, WaiterAt, Queued, Dropped;
    if steps != [] {
      SlotStep(s, steps[0], fd, ev);
      NextKeeps(s, steps[0]);
      SlotBalance(Next(s, steps[0]), steps[1..], fd, ev);
    }
  }

  /** In every run, over any interleaving, the waiters stored in a slot are those dropped by delEvent, those moved to the
      queue by cancelEvent, cancelAll or dispatch, and the one that is still there; and each step that empties a slot
      drops its waiter or queues it once, and not both. */
  lemma EveryWaiterLeavesOnce(s0: Rt, steps: seq<Step>, fd: nat, ev: Event)
    requires Init(s0) && Run(s0, steps)
    ensures var a := Tally(s0, steps, fd, ev); a.fills == a.drops + a.releases + Occupied(Exec(s0, steps), fd, ev)
    ensures forall step :: Enabled(Exec(s0, steps), step) ==> Accounted(Exec(s0, steps), Next(Exec(s0, steps), step), step, fd, ev)
  {
    hide RtInv, Run, Exec, Tally, Accounted, Enabled, Next;
    InitHolds(s0);
    RunKeeps(s0, steps);
    SlotBalance(s0, steps, fd, ev);
    assert WaiterAt(s0.io, fd, ev) == None;
    forall step | Enabled(Exec(s0, steps), step)
      ensures Accounted(Exec(s0, steps), Next(Exec(s0, steps), step), step, fd, ev)
    {
      SlotStep(Exec(s0, steps), step, fd, ev);
    }
  }
}
