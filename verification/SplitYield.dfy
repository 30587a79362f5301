/** YieldToHold as the two steps it is: the fiber sets its state to HOLD while it still runs, and later its worker is back
    from swapIn and does its bookkeeping (bobliew/fiber.cc and bobliew/scheduler.cc). Everything else is as in Runtime. */
module SplitYield {
  import opened IoEvents
  import opened Runtime
  import opened RuntimeTokens
  import opened RuntimeProofs
  import RR = RuntimeRuns
  import opened DoIoProofs

  /** The state, and the workers whose fiber has set HOLD and has not left yet. */
  datatype Split = Split(rt: Rt, leaving: set<int>)

  datatype Step = SetHold(w: int) | Leave(w: int) | Other(step: RR.Step)

  /** m_state = HOLD in YieldToHold. */
  function HoldEarly(s: Rt, w: int): Rt
    requires RR.IsRunning(s, w)
  {
    s.(fibers := s.fibers[s.workers[w].f := HOLD], registered := s.registered - {s.workers[w].f})
  }

  /** The bookkeeping after swapIn, which goes by the state the fiber has by then. */
  function Bookkeep(s: Rt, w: int): Rt
    requires RR.IsRunning(s, w) && s.workers[w].f in s.fibers
  {
    var f, viaCb := s.workers[w].f, s.workers[w].viaCb;
    var t := s.(workers := s.workers[w := Free], active := s.active - 1);
    if s.fibers[f] == READY then Push(t, WFiber(f), -1)
    else if s.fibers[f] in {TERM, EXCEPT} then (if viaCb then t.(fibers := t.fibers[f := INIT]) else t)
    else t.(fibers := t.fibers[f := HOLD], cbFiber := if viaCb then t.cbFiber - {w} else t.cbFiber)
  }

  /** The step is one of a running fiber's own. */
  predicate IsOwnStep(step: RR.Step)
  {
    step.DoYieldHold? || step.DoYieldReady? || step.DoFinish? || step.DoRegisterFiber? || step.DoSemWait?
  }

  predicate Enabled(s: Split, step: Step)
  {
    match step
    case SetHold(w) => w !in s.leaving && RR.Enabled(s.rt, RR.DoYieldHold(w))
    case Leave(w) => w in s.leaving && RR.IsRunning(s.rt, w) && s.rt.workers[w].f in s.rt.fibers
    case Other(x) => RR.Enabled(s.rt, x) && !x.DoYieldHold? && (IsOwnStep(x) ==> x.w !in s.leaving)
  }

  function Next(s: Split, step: Step): Split
    requires Enabled(s, step)
  {
    match step
    case SetHold(w) => Split(HoldEarly(s.rt, w), s.leaving + {w})
    case Leave(w) => Split(Bookkeep(s.rt, w), s.leaving - {w})
    case Other(x) => s.(rt := RR.Next(s.rt, x))
  }

  /** The fiber a leaving worker is still on. */
  predicate LeavingOn(s: Split, f: nat, w: int) { w in s.leaving && Runs(s.rt, f, w) }

  ghost predicate IsLeaving(s: Split, f: nat) { exists w :: LeavingOn(s, f, w) }

  /** A worker swaps in a fiber between its two yield steps. */
  ghost predicate SwapsLeaving(s: Split, step: Step)
  {
    step.Other? && step.step.DoSwapIn? && exists f :: SwapsIn(s.rt, step.step, f) && IsLeaving(s, f)
  }

  /** A worker picks a fiber between its two yield steps. */
  ghost predicate PicksLeaving(s: Split, step: Step)
  {
    && step.Other? && step.step.DoPick? && step.step.i < |s.rt.queue|
    && exists f :: s.rt.queue[step.step.i].work == WFiber(f) && IsLeaving(s, f)
  }

  /** Some fiber is run by two workers. */
  ghost predicate Twice(s: Split) { exists f, w, v :: w != v && Runs(s.rt, f, w) && Runs(s.rt, f, v) }

  // ---- the system with atomic yields that a split state stands for ----

  function LeftWorkers(s: Split): map<int, Worker>
  {
    map w | w in s.rt.workers :: if w in s.leaving then Free else s.rt.workers[w]
  }

  function LeftKeeps(s: Split): map<int, nat>
  {
    map w | w in s.rt.cbFiber && !(w in s.leaving && RR.IsRunning(s.rt, w) && s.rt.workers[w].viaCb) :: s.rt.cbFiber[w]
  }

  /** As if every leaving worker had left already. */
  function AsLeft(s: Split): Rt
  {
    s.rt.(workers := LeftWorkers(s), cbFiber := LeftKeeps(s), active := s.rt.active - |s.leaving|)
  }

  ghost predicate SplitInv(s: Split)
  {
    && RtInv(AsLeft(s))
    && (forall w :: w in s.leaving ==> RR.IsRunning(s.rt, w) && s.rt.workers[w].f in s.rt.fibers
                                       && s.rt.fibers[s.rt.workers[w].f] == HOLD)
    && (forall f, w, v :: LeavingOn(s, f, w) && LeavingOn(s, f, v) ==> w == v)
  }

  /** Setting HOLD early is the atomic yield. */
  lemma SetHoldSimulates(s: Split, w: int)
    requires SplitInv(s) && Enabled(s, SetHold(w))
    ensures RR.Enabled(AsLeft(s), RR.DoYieldHold(w)) && AsLeft(Next(s, SetHold(w))) == YieldHold(AsLeft(s), w)
  {
    hide RtInv;
    var t := Next(s, SetHold(w));
    assert LeftWorkers(t) == LeftWorkers(s)[w := Free];
    assert LeftKeeps(t) == YieldHold(AsLeft(s), w).cbFiber;
  }

  /** Leaving changes nothing that had not been accounted for. */
  lemma LeaveSimulates(s: Split, w: int)
    requires SplitInv(s) && Enabled(s, Leave(w))
    ensures AsLeft(Next(s, Leave(w))) == AsLeft(s)
  {
    hide RtInv;
    var t := Next(s, Leave(w));
    assert t.rt.fibers == s.rt.fibers;
    assert LeftWorkers(t) == LeftWorkers(s);
    assert LeftKeeps(t) == LeftKeeps(s);
  }

  /** The worker a step changes, if any, is not a leaving one. */
  lemma OtherEnabled(s: Split, x: RR.Step)
    requires (forall w :: w in s.leaving ==> RR.IsRunning(s.rt, w)) && Enabled(s, Other(x))
    ensures RR.Enabled(AsLeft(s), x)
  {
    hide WaiterAt, AddEvent, Covered;
  }

  lemma WorkersUpdate(s: Split, t: Split, w: int)
    requires t.leaving == s.leaving && w !in s.leaving && w in t.rt.workers
    requires t.rt.workers == s.rt.workers[w := t.rt.workers[w]]
    ensures LeftWorkers(t) == LeftWorkers(s)[w := t.rt.workers[w]]
  {
    assert LeftWorkers(t) == LeftWorkers(s)[w := t.rt.workers[w]];
  }

  lemma WorkersSame(s: Split, t: Split)
    requires t.leaving == s.leaving && t.rt.workers == s.rt.workers
    ensures LeftWorkers(t) == LeftWorkers(s)
  {
    assert LeftWorkers(t) == LeftWorkers(s);
  }

  lemma OthersKept(s: Split)
    ensures LeftWorkers(s).Keys == s.rt.workers.Keys
    ensures forall w :: w in s.rt.workers && w !in s.leaving ==> LeftWorkers(s)[w] == s.rt.workers[w]
    ensures forall w :: w !in s.leaving ==> (w in LeftKeeps(s) <==> w in s.rt.cbFiber)
    ensures forall w :: w !in s.leaving && w in s.rt.cbFiber ==> LeftKeeps(s)[w] == s.rt.cbFiber[w]
  {
  }

  lemma KeepsUpdate(s: Split, t: Split, w: int)
    requires t.leaving == s.leaving && w !in s.leaving && w in t.rt.cbFiber
    requires t.rt.cbFiber == s.rt.cbFiber[w := t.rt.cbFiber[w]]
    requires forall v :: v in s.leaving ==> (v in t.rt.workers <==> v in s.rt.workers)
                                            && (v in s.rt.workers ==> t.rt.workers[v] == s.rt.workers[v])
    ensures LeftKeeps(t) == LeftKeeps(s)[w := t.rt.cbFiber[w]]
  {
    assert LeftKeeps(t) == LeftKeeps(s)[w := t.rt.cbFiber[w]];
  }

  lemma KeepsSame(s: Split, t: Split)
    requires t.leaving == s.leaving && t.rt.cbFiber == s.rt.cbFiber
    requires forall v :: v in s.leaving ==> (v in t.rt.workers <==> v in s.rt.workers)
                                            && (v in s.rt.workers ==> t.rt.workers[v] == s.rt.workers[v])
    ensures LeftKeeps(t) == LeftKeeps(s)
  {
    assert LeftKeeps(t) == LeftKeeps(s);
  }

  predicate MovesWorker(x: RR.Step)
  {
    x.DoPick? || x.DoSwapIn? || x.DoStartCallback? || x.DoYieldReady? || x.DoFinish?
  }

  lemma OtherWorkers(s: Split, x: RR.Step)
    requires (forall w :: w in s.leaving ==> RR.IsRunning(s.rt, w)) && Enabled(s, Other(x)) && RR.Enabled(AsLeft(s), x)
    ensures LeftWorkers(Next(s, Other(x))) == RR.Next(AsLeft(s), x).workers
  {
    hide WaiterAt, AddEvent, Covered, FirstEligible, CancelEvent, CancelAll, Dispatch, DispatchSafe, DelEvent, LeftKeeps;
    var t := Next(s, Other(x));
    OthersKept(s);
    if MovesWorker(x) {
      WorkersUpdate(s, t, x.w);
    } else {
      WorkersSame(s, t);
    }
  }

  lemma OtherKeeps(s: Split, x: RR.Step)
    requires (forall w :: w in s.leaving ==> RR.IsRunning(s.rt, w)) && Enabled(s, Other(x)) && RR.Enabled(AsLeft(s), x)
    ensures LeftKeeps(Next(s, Other(x))) == RR.Next(AsLeft(s), x).cbFiber
  {
    hide WaiterAt, AddEvent, Covered, FirstEligible, CancelEvent, CancelAll, Dispatch, DispatchSafe, DelEvent;
    var t := Next(s, Other(x));
    OtherSpares(s, x);
    if x.DoStartCallback? {
      KeepsUpdate(s, t, x.w);
    } else {
      KeepsSame(s, t);
    }
  }

  lemma OtherSpares(s: Split, x: RR.Step)
    requires (forall w :: w in s.leaving ==> RR.IsRunning(s.rt, w)) && Enabled(s, Other(x))
    ensures forall w :: w in s.leaving ==> w in Next(s, Other(x)).rt.workers
                                           && Next(s, Other(x)).rt.workers[w] == s.rt.workers[w]
  {
    hide WaiterAt, AddEvent, Covered, FirstEligible, CancelEvent, CancelAll, Dispatch, DispatchSafe, DelEvent;
  }

  lemma TakeSimulates(s: Split, x: RR.Step)
    requires (forall w :: w in s.leaving ==> RR.IsRunning(s.rt, w)) && Enabled(s, Other(x)) && RR.Enabled(AsLeft(s), x)
    requires x.DoPick? || x.DoSwapIn? || x.DoStartCallback?
    ensures AsLeft(Next(s, Other(x))) == RR.Next(AsLeft(s), x)
  {
    hide WaiterAt, AddEvent, Covered, FirstEligible, CancelEvent, CancelAll, Dispatch, DispatchSafe, DelEvent;
    hide LeftWorkers, LeftKeeps;
    OthersKept(s);
    OtherWorkers(s, x);
    OtherKeeps(s, x);
  }

  lemma ReturnSimulates(s: Split, x: RR.Step)
    requires (forall w :: w in s.leaving ==> RR.IsRunning(s.rt, w)) && Enabled(s, Other(x)) && RR.Enabled(AsLeft(s), x)
    requires x.DoYieldReady? || x.DoFinish?
    ensures AsLeft(Next(s, Other(x))) == RR.Next(AsLeft(s), x)
  {
    hide WaiterAt, AddEvent, Covered, FirstEligible, CancelEvent, CancelAll, Dispatch, DispatchSafe, DelEvent;
    hide LeftWorkers, LeftKeeps;
    OthersKept(s);
    OtherWorkers(s, x);
    OtherKeeps(s, x);
  }

  lemma PlaceSimulates(s: Split, x: RR.Step)
    requires (forall w :: w in s.leaving ==> RR.IsRunning(s.rt, w)) && Enabled(s, Other(x)) && RR.Enabled(AsLeft(s), x)
    requires !MovesWorker(x)
    ensures AsLeft(Next(s, Other(x))) == RR.Next(AsLeft(s), x)
  {
    hide WaiterAt, AddEvent, Covered, FirstEligible, CancelEvent, CancelAll, Dispatch, DispatchSafe, DelEvent;
    hide LeftWorkers, LeftKeeps;
    OthersKept(s);
    OtherWorkers(s, x);
    OtherKeeps(s, x);
  }

  /** Every other step is the same step of the system with atomic yields. */
  lemma OtherSimulates(s: Split, x: RR.Step)
    requires (forall w :: w in s.leaving ==> RR.IsRunning(s.rt, w)) && Enabled(s, Other(x))
    ensures RR.Enabled(AsLeft(s), x) && AsLeft(Next(s, Other(x))) == RR.Next(AsLeft(s), x)
  {
    hide RR.Enabled, RR.Next, AsLeft;
    OtherEnabled(s, x);
    if x.DoYieldReady? || x.DoFinish? {
      ReturnSimulates(s, x);
    } else if MovesWorker(x) {
      TakeSimulates(s, x);
    } else {
      PlaceSimulates(s, x);
    }
  }

  // ---- runs ----

  lemma StepKeeps(s: Split, step: Step)
    requires SplitInv(s) && Enabled(s, step) && !SwapsLeaving(s, step)
    ensures SplitInv(Next(s, step))
  {
    hide RtInv, AsLeft;
    match step
    case SetHold(w) => SetHoldKeeps(s, w);
    case Leave(w) => LeaveKeeps(s, w);
    case Other(x) => OtherKeepsInv(s, x);
  }

  lemma SetHoldKeeps(s: Split, w: int)
    requires SplitInv(s) && Enabled(s, SetHold(w))
    ensures SplitInv(Next(s, SetHold(w)))
  {
    hide RtInv, LeftWorkers, LeftKeeps;
    SetHoldSimulates(s, w);
    RR.NextKeeps(AsLeft(s), RR.DoYieldHold(w));
    NotLeavingRuns(s, w);
    var t := Next(s, SetHold(w));
    assert forall f, v :: LeavingOn(t, f, v) ==> LeavingOn(s, f, v) || (v == w && f == s.rt.workers[w].f);
    assert forall f, v :: LeavingOn(s, f, v) ==> s.rt.fibers[f] == HOLD;
  }

  /** A worker that is not leaving runs an executing fiber, so that no leaving worker is on it. */
  lemma NotLeavingRuns(s: Split, w: int)
    requires SplitInv(s) && w !in s.leaving && RR.IsRunning(s.rt, w)
    ensures s.rt.workers[w].f in s.rt.fibers && s.rt.fibers[s.rt.workers[w].f] == EXEC
  {
    hide At, Waits, IoEvents.Inv;
    assert Runs(AsLeft(s), s.rt.workers[w].f, w);
  }

  lemma LeaveKeeps(s: Split, w: int)
    requires SplitInv(s) && Enabled(s, Leave(w))
    ensures SplitInv(Next(s, Leave(w)))
  {
    hide RtInv, LeftWorkers, LeftKeeps;
    LeaveSimulates(s, w);
    var t := Next(s, Leave(w));
    assert t.rt.fibers == s.rt.fibers;
    assert forall f, v :: LeavingOn(t, f, v) ==> LeavingOn(s, f, v);
  }

  lemma OtherKeepsInv(s: Split, x: RR.Step)
    requires SplitInv(s) && Enabled(s, Other(x)) && !SwapsLeaving(s, Other(x))
    ensures SplitInv(Next(s, Other(x)))
  {
    hide RtInv, RR.Enabled, RR.Next, AsLeft, TakenBy;
    OtherSimulates(s, x);
    OtherSpares(s, x);
    RR.NextKeeps(AsLeft(s), x);
    var t := Next(s, Other(x));
    assert forall f, v :: LeavingOn(t, f, v) ==> LeavingOn(s, f, v);
    forall w | w in s.leaving ensures s.rt.workers[w].f in t.rt.fibers && t.rt.fibers[s.rt.workers[w].f] == HOLD {
      StaysHold(s, x, w);
    }
  }

  lemma StaysHold(s: Split, x: RR.Step, w: int)
    requires SplitInv(s) && Enabled(s, Other(x)) && !SwapsLeaving(s, Other(x)) && w in s.leaving
    ensures var f, t := s.rt.workers[w].f, Next(s, Other(x)).rt; f in t.fibers && t.fibers[f] == HOLD
  {
    hide RtInv, RR.Enabled, RR.Next, LeftWorkers, LeftKeeps;
    var f := s.rt.workers[w].f;
    OtherSimulates(s, x);
    assert LeavingOn(s, f, w);
    NotTaken(AsLeft(s), x, f);
    FiberFrame(AsLeft(s), x, f);
    SameSwap(s, x, f);
  }

  lemma NotTaken(s: Rt, x: RR.Step, f: nat)
    requires RtInv(s) && f in s.fibers && s.fibers[f] == HOLD
    ensures !TakenBy(s, x, f)
  {
    hide At, Waits, IoEvents.Inv;
    if IsOwnStep(x) && RR.IsRunning(s, x.w) { assert Runs(s, s.workers[x.w].f, x.w); }
  }

  lemma SameSwap(s: Split, x: RR.Step, f: nat)
    ensures SwapsIn(AsLeft(s), x, f) ==> SwapsIn(s.rt, x, f)
  {
  }

  ghost predicate Run(s: Split, steps: seq<Step>)
    decreases |steps|
  {
    steps == [] || (Enabled(s, steps[0]) && Run(Next(s, steps[0]), steps[1..]))
  }

  ghost function Exec(s: Split, steps: seq<Step>): Split
    requires Run(s, steps)
    decreases |steps|
  {
    if steps == [] then s else Exec(Next(s, steps[0]), steps[1..])
  }

  /** At some point of the run a fiber is run by two workers. */
  ghost predicate EverTwice(s: Split, steps: seq<Step>)
    requires Run(s, steps)
    decreases |steps|
  {
    Twice(s) || (steps != [] && EverTwice(Next(s, steps[0]), steps[1..]))
  }

  /** At some point of the run a worker swaps in a fiber between its two yield steps. */
  ghost predicate EverSwapsLeaving(s: Split, steps: seq<Step>)
    requires Run(s, steps)
    decreases |steps|
  {
    steps != [] && (SwapsLeaving(s, steps[0]) || EverSwapsLeaving(Next(s, steps[0]), steps[1..]))
  }

  ghost predicate EverPicksLeaving(s: Split, steps: seq<Step>)
    requires Run(s, steps)
    decreases |steps|
  {
    steps != [] && (PicksLeaving(s, steps[0]) || EverPicksLeaving(Next(s, steps[0]), steps[1..]))
  }

  lemma NotTwice(s: Split)
    requires SplitInv(s)
    ensures !Twice(s)
  {
    hide At, Waits, IoEvents.Inv, Unique, FiberOk, CallbackOk, KeepOk;
    forall f, w, v | Runs(s.rt, f, w) && Runs(s.rt, f, v) ensures w == v {
      if w !in s.leaving { NotLeavingRuns(s, w); assert Runs(AsLeft(s), f, w); }
      if v !in s.leaving { NotLeavingRuns(s, v); assert Runs(AsLeft(s), f, v); }
      if w in s.leaving && v in s.leaving { assert LeavingOn(s, f, w) && LeavingOn(s, f, v); }
    }
  }

  lemma SwapMakesTwice(s: Split, step: Step)
    requires SplitInv(s) && Enabled(s, step) && SwapsLeaving(s, step)
    ensures Twice(Next(s, step))
  {
    hide RtInv;
    var f :| SwapsIn(s.rt, step.step, f) && IsLeaving(s, f);
    var w :| LeavingOn(s, f, w);
    var t := Next(s, step);
    assert Runs(t.rt, f, w) && Runs(t.rt, f, step.step.w);
  }

  /** From any consistent state: a fiber comes to be run by two workers exactly when some worker swaps it in between its
      two yield steps. */
  lemma {:induction false} TwiceExact(s: Split, steps: seq<Step>)
    requires SplitInv(s) && Run(s, steps)
    ensures EverTwice(s, steps) <==> EverSwapsLeaving(s, steps)
    decreases |steps|
  {
    hide SplitInv, Twice, SwapsLeaving, Enabled, Next;
    NotTwice(s);
    if steps != [] {
      var t := Next(s, steps[0]);
      if SwapsLeaving(s, steps[0]) {
        SwapMakesTwice(s, steps[0]);
        TwiceNow(t, steps[1..]);
      } else {
        StepKeeps(s, steps[0]);
        TwiceExact(t, steps[1..]);
      }
    }
  }

  lemma TwiceNow(s: Split, steps: seq<Step>)
    requires Run(s, steps) && Twice(s)
    ensures EverTwice(s, steps)
  {
  }

  ghost predicate Init(s: Split) { RR.Init(s.rt) && s.leaving == {} }

  lemma InitHolds(s: Split)
    requires Init(s)
    ensures SplitInv(s)
  {
    hide RtInv;
    RR.InitHolds(s.rt);
    assert LeftWorkers(s) == s.rt.workers && LeftKeeps(s) == s.rt.cbFiber;
    assert AsLeft(s) == s.rt;
  }

  /** If no worker picks a fiber between its two yield steps, no fiber is ever run by two workers. */
  lemma {:induction false} TwiceNeedsPick(s: Split, steps: seq<Step>)
    requires SplitInv(s) && NoneHeld(s) && Run(s, steps) && !EverPicksLeaving(s, steps)
    ensures !EverTwice(s, steps)
    decreases |steps|
  {
    hide SplitInv, Twice, SwapsLeaving, PicksLeaving, Enabled, Next, NoneHeld;
    NotTwice(s);
    if steps != [] {
      NoSwap(s, steps[0]);
      StepKeeps(s, steps[0]);
      StillNoneHeld(s, steps[0]);
      TwiceNeedsPick(Next(s, steps[0]), steps[1..]);
    }
  }

  /** No worker has picked a fiber that is leaving. */
  ghost predicate NoneHeld(s: Split)
  {
    forall v :: RR.Holds(s.rt, v) && s.rt.workers[v].task.work.WFiber? ==> !IsLeaving(s, s.rt.workers[v].task.work.f)
  }

  lemma NoSwap(s: Split, step: Step)
    requires NoneHeld(s) && Enabled(s, step)
    ensures !SwapsLeaving(s, step)
  {
  }

  lemma StillNoneHeld(s: Split, step: Step)
    requires SplitInv(s) && NoneHeld(s) && Enabled(s, step) && !PicksLeaving(s, step)
    ensures NoneHeld(Next(s, step))
  {
    hide RtInv, AsLeft, RR.Enabled, RR.Next, IsLeaving;
    match step
    case SetHold(w) => NoneHeldSetHold(s, w);
    case Leave(w) =>
      var t := Next(s, step);
      forall f | IsLeaving(t, f) ensures IsLeaving(s, f) {
        StillLeaving(s, t, f);
      }
    case Other(x) => NoneHeldOther(s, x);
  }

  lemma StillLeaving(s: Split, t: Split, f: nat)
    requires t.leaving <= s.leaving && IsLeaving(t, f)
    requires forall w :: w in t.leaving && w in t.rt.workers ==> w in s.rt.workers && t.rt.workers[w] == s.rt.workers[w]
    ensures IsLeaving(s, f)
  {
    var w :| LeavingOn(t, f, w);
    assert LeavingOn(s, f, w);
  }

  lemma NoneHeldSetHold(s: Split, w: int)
    requires SplitInv(s) && NoneHeld(s) && Enabled(s, SetHold(w))
    ensures NoneHeld(Next(s, SetHold(w)))
  {
    hide RtInv, AsLeft;
    var t := Next(s, SetHold(w));
    HeldNotExec(s);
    NotLeavingRuns(s, w);
    forall f | IsLeaving(t, f) ensures IsLeaving(s, f) || f == s.rt.workers[w].f {
      var v :| LeavingOn(t, f, v);
      assert v != w ==> LeavingOn(s, f, v);
    }
  }

  lemma NoneHeldOther(s: Split, x: RR.Step)
    requires SplitInv(s) && NoneHeld(s) && Enabled(s, Other(x)) && !PicksLeaving(s, Other(x))
    ensures NoneHeld(Next(s, Other(x)))
  {
    hide RtInv, AsLeft, RR.Next, RR.Enabled, IsLeaving;
    var t := Next(s, Other(x));
    OtherSpares(s, x);
    forall f | IsLeaving(t, f) ensures IsLeaving(s, f) {
      StillLeaving(s, t, f);
    }
    forall v | RR.Holds(t.rt, v) && t.rt.workers[v].task.work.WFiber?
      ensures !IsLeaving(t, t.rt.workers[v].task.work.f)
    {
      HeldBefore(s.rt, x, v);
    }
  }

  /** Whatever a worker holds after a step it held before, or has just picked. */
  lemma HeldBefore(s: Rt, x: RR.Step, v: int)
    requires RR.Enabled(s, x) && RR.Holds(RR.Next(s, x), v)
    ensures var work := RR.Next(s, x).workers[v].task.work;
            || (RR.Holds(s, v) && s.workers[v].task.work == work)
            || (x.DoPick? && x.i < |s.queue| && s.queue[x.i].work == work)
  {
    hide WaiterAt, AddEvent, Covered, CancelEvent, CancelAll, Dispatch, DispatchSafe, DelEvent;
  }

  lemma HeldNotExec(s: Split)
    requires SplitInv(s)
    ensures forall v :: RR.Holds(s.rt, v) && s.rt.workers[v].task.work.WFiber? ==>
              s.rt.workers[v].task.work.f in s.rt.fibers && s.rt.fibers[s.rt.workers[v].task.work.f] != EXEC
  {
    hide At, Waits, IoEvents.Inv, Unique, FiberOk, CallbackOk, KeepOk, Execution, LeftKeeps;
    forall v | RR.Holds(s.rt, v) && s.rt.workers[v].task.work.WFiber?
      ensures s.rt.workers[v].task.work.f in s.rt.fibers && s.rt.fibers[s.rt.workers[v].task.work.f] != EXEC
    {
      assert v in AsLeft(s).workers && AsLeft(s).workers[v] == s.rt.workers[v];
    }
  }

  /** Over every run of the split system: two workers run one fiber exactly when one of them swapped it in between its
      two yield steps; and for that it must have picked it in between. */
  lemma DoubleExecutionExact(s0: Split, steps: seq<Step>)
    requires Init(s0) && Run(s0, steps)
    ensures EverTwice(s0, steps) <==> EverSwapsLeaving(s0, steps)
    ensures EverTwice(s0, steps) ==> EverPicksLeaving(s0, steps)
  {
    hide EverTwice, EverSwapsLeaving, EverPicksLeaving, Run, RtInv;
    InitHolds(s0);
    TwiceExact(s0, steps);
    if !EverPicksLeaving(s0, steps) {
      assert NoneHeld(s0);
      TwiceNeedsPick(s0, steps);
    }
  }

  /** While the waiter of a leaving fiber is still in its event slot or semaphore, nobody can pick the fiber or swap it
      in: the danger starts when the event fires or the permit comes. */
  lemma WaitingIsSafe(s: Split, f: nat, l: Loc, step: Step)
    requires SplitInv(s) && At(s.rt, WFiber(f), l) && (l.InSlot? || l.InSem?) && Enabled(s, step) && step.Other?
    ensures step.step.DoPick? ==> s.rt.queue[step.step.i].work != WFiber(f)
    ensures !SwapsIn(s.rt, step.step, f)
  {
    hide IoEvents.Inv, FiberOk, CallbackOk, KeepOk, Execution, LeftKeeps, WaiterAt;
    var a := AsLeft(s);
    assert At(a, WFiber(f), l);
    if step.step.DoPick? { NotAlso(a, WFiber(f), l, InQueue(step.step.i)); }
    if step.step.DoSwapIn? { NotAlso(a, WFiber(f), l, HeldBy(step.step.w)); }
  }

  // ---- a run in which it happens ----

  const RaceSteps: seq<Step> :=
    [Other(RR.DoSubmitFiber(0, -1)), Other(RR.DoPick(0, 0)), Other(RR.DoSwapIn(0)), Other(RR.DoRegisterFiber(0, 3, READ, true)),
     Other(RR.DoCancelEvent(3, READ, true)), SetHold(0), Other(RR.DoPick(1, 0)), Other(RR.DoSwapIn(1))]

  ghost function Fresh(): Split
  {
    Split(Rt(map[], {}, [], map[0 := Free, 1 := Free], map[], 0, Io(FreshCtxs(32), map[], 0), map[], map[], {}, {}, {}), {})
  }

  /** Fiber 0 runs on worker 0 and worker 1 is free. */
  ghost predicate Started(s: Split)
  {
    && s.rt.fibers == map[0 := EXEC] && s.rt.registered == {} && s.rt.queue == []
    && s.rt.workers == map[0 := Running(0, false, -1), 1 := Free] && s.rt.io == Io(FreshCtxs(32), map[], 0) && s.leaving == {}
  }

  ghost predicate Submitted(s: Split)
  {
    && s.rt.fibers == map[0 := INIT] && s.rt.registered == {} && s.rt.queue == [Task(WFiber(0), -1)]
    && s.rt.workers == map[0 := Free, 1 := Free] && s.rt.io == Io(FreshCtxs(32), map[], 0) && s.leaving == {}
  }

  lemma RaceStarts()
    ensures Init(Fresh()) && Enabled(Fresh(), RaceSteps[0]) && Submitted(Next(Fresh(), RaceSteps[0]))
  {
    hide WaiterAt, AddEvent, DispatchSafe, FirstEligible;
  }

  lemma RaceRuns(s: Split)
    requires Submitted(s)
    ensures Enabled(s, RaceSteps[1]) && var t := Next(s, RaceSteps[1]);
            Enabled(t, RaceSteps[2]) && Started(Next(t, RaceSteps[2]))
  {
    hide WaiterAt, AddEvent, DispatchSafe;
  }

  /** Fiber 0 has registered, its event has come, and it still runs. */
  ghost predicate Fired(s: Split)
  {
    && s.rt.fibers == map[0 := EXEC] && s.rt.registered == {0} && s.rt.queue == [Task(WFiber(0), -1)]
    && s.rt.workers == map[0 := Running(0, false, -1), 1 := Free] && s.leaving == {}
  }

  lemma RaceFires(s: Split)
    requires Started(s)
    ensures Enabled(s, RaceSteps[3]) && var t := Next(s, RaceSteps[3]);
            Enabled(t, RaceSteps[4]) && Fired(Next(t, RaceSteps[4]))
  {
    hide AddEvent, CancelEvent, DispatchSafe, IoEvents.Inv;
    var io := s.rt.io;
    RR.InitIo(io, 32);
    AddEventKeeps(io, 3, READ, WFiber(0), true);
    var t := AddEvent(io, 3, READ, WFiber(0), true).0;
    CancelEventKeeps(t, 3, READ, true);
  }

  lemma RaceEnds(s: Split)
    requires Fired(s)
    ensures Enabled(s, SetHold(0)) && var t := Next(s, SetHold(0));
            Enabled(t, RaceSteps[6]) && var u := Next(t, RaceSteps[6]);
            Enabled(u, RaceSteps[7]) && Twice(Next(u, RaceSteps[7]))
  {
    hide WaiterAt, AddEvent, DispatchSafe;
    var t := Next(s, SetHold(0));
    var u := Next(t, RaceSteps[6]);
    var v := Next(u, RaceSteps[7]);
    assert Runs(v.rt, 0, 0) && Runs(v.rt, 0, 1);
  }

  /** Picking in between is not enough: if the first worker leaves before the second swaps in, all is well. */
  lemma PickAloneIsHarmless(s: Split)
    requires SplitInv(s) && Fired(s)
    ensures Enabled(s, SetHold(0)) && var t := Next(s, SetHold(0));
            Enabled(t, RaceSteps[6]) && PicksLeaving(t, RaceSteps[6]) && var u := Next(t, RaceSteps[6]);
            Enabled(u, Leave(0)) && var v := Next(u, Leave(0));
            Enabled(v, RaceSteps[7]) && SplitInv(Next(v, RaceSteps[7])) && !Twice(Next(v, RaceSteps[7]))
  {
    hide WaiterAt, AddEvent, DispatchSafe, SplitInv;
    var t := Next(s, SetHold(0));
    assert LeavingOn(t, 0, 0);
    StepKeeps(s, SetHold(0));
    var u := Next(t, RaceSteps[6]);
    StepKeeps(t, RaceSteps[6]);
    var v := Next(u, Leave(0));
    StepKeeps(u, Leave(0));
    assert v.leaving == {};
    StepKeeps(v, RaceSteps[7]);
    NotTwice(Next(v, RaceSteps[7]));
  }

  lemma RunFirst(s: Split, step: Step, rest: seq<Step>)
    requires Enabled(s, step) && Run(Next(s, step), rest)
    ensures Run(s, [step] + rest) && Exec(s, [step] + rest) == Exec(Next(s, step), rest)
  {
    hide Enabled, Next;
    assert ([step] + rest)[1..] == rest;
  }

  /** From the initial state: a fiber registers, its event is cancelled, it sets HOLD, and the second worker swaps it in
      before the first has left it. */
  lemma DoubleExecutionHappens() returns (steps: seq<Step>)
    ensures Init(Fresh()) && Run(Fresh(), steps) && Twice(Exec(Fresh(), steps))
  {
    hide Enabled, Next, Init, Submitted, Started, Fired, Twice, Fresh, Run, Exec;
    var r := RaceSteps;
    RaceStarts();
    var s1 := Next(Fresh(), r[0]);
    RaceRuns(s1);
    var s2 := Next(s1, r[1]);
    var s3 := Next(s2, r[2]);
    RaceFires(s3);
    var s4 := Next(s3, r[3]);
    var s5 := Next(s4, r[4]);
    RaceEnds(s5);
    var s6 := Next(s5, r[5]);
    var s7 := Next(s6, r[6]);
    steps := [];
    RunNone(Next(s7, r[7]));
    RunFirst(s7, r[7], steps); steps := [r[7]] + steps;
    RunFirst(s6, r[6], steps); steps := [r[6]] + steps;
    RunFirst(s5, r[5], steps); steps := [r[5]] + steps;
    RunFirst(s4, r[4], steps); steps := [r[4]] + steps;
    RunFirst(s3, r[3], steps); steps := [r[3]] + steps;
    RunFirst(s2, r[2], steps); steps := [r[2]] + steps;
    RunFirst(s1, r[1], steps); steps := [r[1]] + steps;
    RunFirst(Fresh(), r[0], steps); steps := [r[0]] + steps;
  }

  lemma RunNone(s: Split)
    ensures Run(s, []) && Exec(s, []) == s
  {
  }
}
