/** The per-descriptor event slots of bobliew/iomanager.cc: registration, removal, cancellation and dispatch,
    with the epoll interest list as a map from descriptor to mask. */
module IoEvents {

  datatype Option<+T> = None | Some(value: T)

  datatype Event = READ | WRITE

  /** Who waits for an event: a fiber or a callback. */
  datatype Waiter = WFiber(f: nat) | WCallback(c: nat)

  /** FdContext::EventContext. */
  datatype Slot = Slot(scheduler: bool, fiber: Option<nat>, cb: Option<nat>)

  const EMPTY := Slot(false, None, None)

  /** FdContext. */
  datatype FdCtx = FdCtx(events: set<Event>, read: Slot, write: Slot)

  const FRESH := FdCtx({}, EMPTY, EMPTY)

  /** m_fdContexts, the epoll interest list and m_pendingEventCount. */
  datatype Io = Io(ctxs: seq<FdCtx>, epoll: map<nat, set<Event>>, pending: int)

  function GetContext(x: FdCtx, ev: Event): Slot { if ev == READ then x.read else x.write }

  function SetContext(x: FdCtx, ev: Event, s: Slot): FdCtx { if ev == READ then x.(read := s) else x.(write := s) }

  function SlotFor(w: Waiter): Slot
  {
    match w case WFiber(f) => Slot(true, Some(f), None) case WCallback(c) => Slot(true, None, Some(c))
  }

  /** The waiter triggerEvent hands to the scheduler. */
  function WaiterOf(s: Slot): Waiter
  {
    if s.cb.Some? then WCallback(s.cb.value) else if s.fiber.Some? then WFiber(s.fiber.value) else WFiber(0)
  }

  /** Who waits in a slot, as far as the registered bits say. */
  function WaiterAt(io: Io, fd: nat, ev: Event): Option<Waiter>
  {
    if fd < |io.ctxs| && ev in io.ctxs[fd].events then Some(WaiterOf(GetContext(io.ctxs[fd], ev))) else None
  }

  // ---- epoll_ctl: ADD needs an absent, MOD and DEL a present descriptor ----

  datatype CtlOp = CtlAdd | CtlMod | CtlDel

  function Ctl(epoll: map<nat, set<Event>>, op: CtlOp, fd: nat, mask: set<Event>, kernel: bool): (bool, map<nat, set<Event>>)
  {
    if !kernel || (op.CtlAdd? <==> fd in epoll) then (false, epoll)
    else (true, if op.CtlDel? then epoll - {fd} else epoll[fd := mask])
  }

  // ---- the operations ----

  function FreshCtxs(n: nat): (xs: seq<FdCtx>)
    ensures |xs| == n && forall i :: 0 <= i < n ==> xs[i] == FRESH
  {
    seq(n, _ => FRESH)
  }

  /** contextResize to at least n entries. */
  function Resize(io: Io, n: nat): Io
  {
    if n <= |io.ctxs| then io else io.(ctxs := io.ctxs + FreshCtxs(n - |io.ctxs|))
  }

  /** The growth addEvent does first. */
  function Covered(io: Io, fd: nat): Io
  {
    if |io.ctxs| > fd then io else Resize(io, fd * 3 / 2)
  }

  /** addEvent on a free slot; `kernel` is false when epoll_ctl fails for a reason of its own. */
  function AddEvent(io: Io, fd: nat, ev: Event, w: Waiter, kernel: bool): (Io, bool)
    requires fd < |Covered(io, fd).ctxs| && ev !in Covered(io, fd).ctxs[fd].events
  {
    var g := Covered(io, fd);
    var x := g.ctxs[fd];
    var (ok, epoll) := Ctl(g.epoll, if x.events != {} then CtlMod else CtlAdd, fd, x.events + {ev}, kernel);
    if !ok then (g, false)
    else
      var y := SetContext(x.(events := x.events + {ev}), ev, SlotFor(w));
      (Io(g.ctxs[fd := y], epoll, g.pending + 1), true)
  }

  /** The shared beginning of delEvent and cancelEvent: leaving the interest list. */
  function Unlist(io: Io, fd: nat, gone: set<Event>, kernel: bool): (bool, map<nat, set<Event>>)
    requires fd < |io.ctxs|
  {
    var left := io.ctxs[fd].events - gone;
    Ctl(io.epoll, if left != {} then CtlMod else CtlDel, fd, left, kernel)
  }

  /** delEvent: the waiter is dropped. */
  function DelEvent(io: Io, fd: nat, ev: Event, kernel: bool): (Io, bool)
    requires fd < |io.ctxs|
  {
    var x := io.ctxs[fd];
    if ev !in x.events then (io, false)
    else
      var (ok, epoll) := Unlist(io, fd, {ev}, kernel);
      if !ok then (io, false)
      else (Io(io.ctxs[fd := SetContext(x.(events := x.events - {ev}), ev, EMPTY)], epoll, io.pending - 1), true)
  }

  /** triggerEvent: clears the bit and the slot and hands the waiter out. */
  function Trigger(x: FdCtx, ev: Event): (FdCtx, Waiter)
    requires ev in x.events
  {
    (SetContext(x.(events := x.events - {ev}), ev, EMPTY), WaiterOf(GetContext(x, ev)))
  }

  /** cancelEvent: the waiter goes to the scheduler. */
  function CancelEvent(io: Io, fd: nat, ev: Event, kernel: bool): (Io, bool, seq<Waiter>)
    requires fd < |io.ctxs|
  {
    if ev !in io.ctxs[fd].events then (io, false, [])
    else
      var (ok, epoll) := Unlist(io, fd, {ev}, kernel);
      if !ok then (io, false, [])
      else
        var (y, w) := Trigger(io.ctxs[fd], ev);
        (Io(io.ctxs[fd := y], epoll, io.pending - 1), true, [w])
  }

  /** Triggers READ, then WRITE, as far as they are in `evs`. */
  function TriggerBoth(io: Io, fd: nat, evs: set<Event>): (Io, seq<Waiter>)
    requires fd < |io.ctxs| && evs <= io.ctxs[fd].events
  {
    var (io1, w1) := TriggerIf(io, fd, READ, READ in evs);
    var (io2, w2) := TriggerIf(io1, fd, WRITE, WRITE in evs);
    (io2, w1 + w2)
  }

  function TriggerIf(io: Io, fd: nat, ev: Event, really: bool): (r: (Io, seq<Waiter>))
    requires fd < |io.ctxs| && (really ==> ev in io.ctxs[fd].events)
    ensures |r.0.ctxs| == |io.ctxs|
    ensures r.0.ctxs[fd].events == if really then io.ctxs[fd].events - {ev} else io.ctxs[fd].events
  {
    if !really then (io, [])
    else
      var (y, w) := Trigger(io.ctxs[fd], ev);
      (io.(ctxs := io.ctxs[fd := y], pending := io.pending - 1), [w])
  }

  /** cancelAll. */
  function CancelAll(io: Io, fd: nat, kernel: bool): (Io, bool, seq<Waiter>)
    requires fd < |io.ctxs|
  {
    var x := io.ctxs[fd];
    if x.events == {} then (io, false, [])
    else
      var (ok, epoll) := Ctl(io.epoll, CtlDel, fd, {}, kernel);
      if !ok then (io, false, [])
      else var (t, ws) := TriggerBoth(io.(epoll := epoll), fd, x.events); (t, true, ws)
  }

  /** The events idle() derives from a report: EPOLLIN and EPOLLOUT, and on an error everything registered. */
  function RealEvents(reported: set<Event>, failed: bool, x: FdCtx): set<Event>
  {
    if failed then reported + x.events else reported
  }

  /** One round of the dispatch loop either meets the failing assertion of triggerEvent or ends. */
  datatype Round = AssertionFails | Done(io: Io, ws: seq<Waiter>)

  /** triggerEvent with its assertion, when the round asks for it. */
  function TriggerRound(io: Io, fd: nat, ev: Event, really: bool): (r: Round)
    requires fd < |io.ctxs|
    ensures r.Done? ==> |r.io.ctxs| == |io.ctxs|
  {
    if !really then Done(io, [])
    else if ev !in io.ctxs[fd].events then AssertionFails
    else
      var (y, w) := Trigger(io.ctxs[fd], ev);
      Done(io.(ctxs := io.ctxs[fd := y], pending := io.pending - 1), [w])
  }

  /** One round of the dispatch loop of idle() as it is written: the events of the report are not masked. */
  function DispatchRound(io: Io, fd: nat, reported: set<Event>, failed: bool, kernel: bool): Round
    requires fd < |io.ctxs|
  {
    var x := io.ctxs[fd];
    var due := RealEvents(reported, failed, x);
    if due * x.events == {} then Done(io, [])
    else
      var (ok, epoll) := Unlist(io, fd, due, kernel);
      if !ok then Done(io, [])
      else
        match TriggerRound(io.(epoll := epoll), fd, READ, READ in due)
        case AssertionFails => AssertionFails
        case Done(io1, w1) =>
          match TriggerRound(io1, fd, WRITE, WRITE in due)
          case AssertionFails => AssertionFails
          case Done(io2, w2) => Done(io2, w1 + w2)
  }

  /** A report that the round gets through: the interest list refuses, or the report names nothing registered, or
      everything it names is registered. */
  predicate DispatchSafe(io: Io, fd: nat, reported: set<Event>, failed: bool, kernel: bool)
    requires fd < |io.ctxs|
  {
    var due := RealEvents(reported, failed, io.ctxs[fd]);
    !kernel || due * io.ctxs[fd].events == {} || due <= io.ctxs[fd].events
  }

  /** What such a round does. */
  function Dispatch(io: Io, fd: nat, reported: set<Event>, failed: bool, kernel: bool): (Io, seq<Waiter>)
    requires fd < |io.ctxs| && DispatchSafe(io, fd, reported, failed, kernel)
  {
    var x := io.ctxs[fd];
    var due := RealEvents(reported, failed, x);
    if due * x.events == {} then (io, [])
    else
      var (ok, epoll) := Unlist(io, fd, due, kernel);
      if !ok then (io, []) else TriggerBoth(io.(epoll := epoll), fd, due)
  }

  // ---- the invariant ----

  predicate Full(s: Slot) { s.scheduler && (s.fiber.Some? <==> s.cb.None?) }

  predicate CtxOk(x: FdCtx)
  {
    && (if READ in x.events then Full(x.read) else x.read == EMPTY)
    && (if WRITE in x.events then Full(x.write) else x.write == EMPTY)
  }

  function Bits(x: FdCtx): nat { (if READ in x.events then 1 else 0) + (if WRITE in x.events then 1 else 0) }

  function TotalBits(xs: seq<FdCtx>): nat
  {
    if xs == [] then 0 else Bits(xs[0]) + TotalBits(xs[1..])
  }

  /** A bit is set exactly when its slot holds a scheduler and one of fiber and callback; the interest list mirrors
      the registered bits; the pending count is the number of set bits. */
  ghost predicate Inv(io: Io)
  {
    && |io.ctxs| >= 32
    && (forall i :: 0 <= i < |io.ctxs| ==> CtxOk(io.ctxs[i]))
    && (forall i: nat :: i in io.epoll <==> i < |io.ctxs| && io.ctxs[i].events != {})
    && (forall i: nat :: i in io.epoll ==> io.epoll[i] == io.ctxs[i].events)
    && io.pending == TotalBits(io.ctxs)
  }

  lemma {:induction false} TotalUpdate(xs: seq<FdCtx>, i: nat, y: FdCtx)
    requires i < |xs|
    ensures TotalBits(xs[i := y]) == TotalBits(xs) - Bits(xs[i]) + Bits(y)
    decreases i
  {
    if i == 0 {
      assert xs[0 := y][1..] == xs[1..];
    } else {
      TotalUpdate(xs[1..], i - 1, y);
      assert xs[i := y][1..] == xs[1..][i - 1 := y];
    }
  }

  lemma {:induction false} TotalFresh(xs: seq<FdCtx>, n: nat)
    ensures TotalBits(xs + FreshCtxs(n)) == TotalBits(xs)
    decreases |xs|, n
  {
    var ys := FreshCtxs(n);
    if xs != [] {
      assert (xs + ys)[1..] == xs[1..] + ys;
      TotalFresh(xs[1..], n);
    } else if n > 0 {
      assert xs + ys == ys && ys[1..] == FreshCtxs(n - 1);
      assert ys[1..] == [] + ys[1..];
      TotalFresh([], n - 1);
    }
  }

  lemma CoveredKeeps(io: Io, fd: nat)
    requires Inv(io)
    ensures Inv(Covered(io, fd)) && fd < |Covered(io, fd).ctxs|
    ensures forall g: nat, e :: WaiterAt(Covered(io, fd), g, e) == WaiterAt(io, g, e)
  {
    if |io.ctxs| <= fd {
      TotalFresh(io.ctxs, fd * 3 / 2 - |io.ctxs|);
    }
  }

  /** One context is replaced by one whose bits differ by the given amount, and the list follows. */
  lemma UpdateKeeps(io: Io, fd: nat, y: FdCtx, epoll: map<nat, set<Event>>)
    requires Inv(io) && fd < |io.ctxs| && CtxOk(y)
    requires epoll == if y.events == {} then io.epoll - {fd} else io.epoll[fd := y.events]
    ensures Inv(Io(io.ctxs[fd := y], epoll, io.pending - Bits(io.ctxs[fd]) + Bits(y)))
  {
    hide CtxOk, Bits;
    TotalUpdate(io.ctxs, fd, y);
  }

  /** addEvent keeps the invariant and fills exactly the slot it was asked for; the epoll operation it picks is
      the right one, so that it fails only when the kernel does. */
  lemma AddEventKeeps(io: Io, fd: nat, ev: Event, w: Waiter, kernel: bool)
    requires Inv(io) && WaiterAt(io, fd, ev) == None
    ensures fd < |Covered(io, fd).ctxs| && ev !in Covered(io, fd).ctxs[fd].events
    ensures var (t, ok) := AddEvent(io, fd, ev, w, kernel);
            && Inv(t) && ok == kernel
            && (forall g: nat, e :: WaiterAt(t, g, e) == if ok && g == fd && e == ev then Some(w) else WaiterAt(io, g, e))
  {
    CoveredKeeps(io, fd);
    assert WaiterAt(Covered(io, fd), fd, ev) == None;
    if kernel {
      var g := Covered(io, fd);
      var x := g.ctxs[fd];
      var y := SetContext(x.(events := x.events + {ev}), ev, SlotFor(w));
      UpdateKeeps(g, fd, y, g.epoll[fd := y.events]);
    }
  }

  lemma DelEventKeeps(io: Io, fd: nat, ev: Event, kernel: bool)
    requires Inv(io) && fd < |io.ctxs|
    ensures var (t, ok) := DelEvent(io, fd, ev, kernel);
            && Inv(t) && ok == (kernel && WaiterAt(io, fd, ev).Some?)
            && (forall g: nat, e :: WaiterAt(t, g, e) == if ok && g == fd && e == ev then None else WaiterAt(io, g, e))
  {
    var x := io.ctxs[fd];
    if ev in x.events && kernel {
      var y := SetContext(x.(events := x.events - {ev}), ev, EMPTY);
      UpdateKeeps(io, fd, y, Unlist(io, fd, {ev}, kernel).1);
    }
  }

  lemma CancelEventKeeps(io: Io, fd: nat, ev: Event, kernel: bool)
    requires Inv(io) && fd < |io.ctxs|
    ensures var (t, ok, ws) := CancelEvent(io, fd, ev, kernel);
            && Inv(t) && ok == (kernel && WaiterAt(io, fd, ev).Some?)
            && ws == (if ok then [WaiterAt(io, fd, ev).value] else [])
            && (forall g: nat, e :: WaiterAt(t, g, e) == if ok && g == fd && e == ev then None else WaiterAt(io, g, e))
  {
    var x := io.ctxs[fd];
    if ev in x.events && kernel {
      UpdateKeeps(io, fd, Trigger(x, ev).0, Unlist(io, fd, {ev}, kernel).1);
    }
  }

  /** The waiters of the given events of one descriptor, READ first. */
  function Waiting(io: Io, fd: nat, evs: set<Event>): seq<Waiter>
  {
    (if READ in evs && WaiterAt(io, fd, READ).Some? then [WaiterAt(io, fd, READ).value] else [])
    + (if WRITE in evs && WaiterAt(io, fd, WRITE).Some? then [WaiterAt(io, fd, WRITE).value] else [])
  }

  lemma TriggerBothKeeps(io: Io, fd: nat, evs: set<Event>, epoll: map<nat, set<Event>>)
    requires Inv(io) && fd < |io.ctxs| && evs <= io.ctxs[fd].events
    requires var left := io.ctxs[fd].events - evs;
             epoll == if left == {} then io.epoll - {fd} else io.epoll[fd := left]
    ensures var (t, ws) := TriggerBoth(io.(epoll := epoll), fd, evs);
            && Inv(t) && ws == Waiting(io, fd, evs)
            && (forall g: nat, e :: WaiterAt(t, g, e) == if g == fd && e in evs then None else WaiterAt(io, g, e))
  {
    var x := io.ctxs[fd];
    var t := TriggerBoth(io.(epoll := epoll), fd, evs).0;
    var y := t.ctxs[fd];
    assert t.ctxs == io.ctxs[fd := y];
    forall e ensures e in y.events <==> e in x.events && e !in evs {
      assert e == READ || e == WRITE;
    }
    assert y.events == x.events - evs;
    UpdateKeeps(io, fd, y, epoll);
  }

  lemma CancelAllKeeps(io: Io, fd: nat, kernel: bool)
    requires Inv(io) && fd < |io.ctxs|
    ensures var (t, ok, ws) := CancelAll(io, fd, kernel);
            && Inv(t) && ok == (kernel && io.ctxs[fd].events != {})
            && ws == (if ok then Waiting(io, fd, {READ, WRITE}) else [])
            && (ok ==> t.ctxs[fd].events == {})
            && (forall g: nat, e :: WaiterAt(t, g, e) == if ok && g == fd then None else WaiterAt(io, g, e))
  {
    var x := io.ctxs[fd];
    if x.events != {} && kernel {
      assert x.events - x.events == {};
      TriggerBothKeeps(io, fd, x.events, io.epoll - {fd});
    }
  }

  lemma DispatchKeeps(io: Io, fd: nat, reported: set<Event>, failed: bool, kernel: bool)
    requires Inv(io) && fd < |io.ctxs| && DispatchSafe(io, fd, reported, failed, kernel)
    ensures var (t, ws) := Dispatch(io, fd, reported, failed, kernel);
            var gone := if kernel then RealEvents(reported, failed, io.ctxs[fd]) * io.ctxs[fd].events else {};
            && Inv(t) && ws == Waiting(io, fd, gone)
            && (forall g: nat, e :: WaiterAt(t, g, e) == if g == fd && e in gone then None else WaiterAt(io, g, e))
  {
    var x := io.ctxs[fd];
    var due := RealEvents(reported, failed, x);
    if due * x.events != {} && kernel {
      assert due * x.events == due;
      TriggerBothKeeps(io, fd, due, Unlist(io, fd, due, kernel).1);
    }
  }

  /** A round that is safe does what Dispatch says; one that is not meets the failing assertion. */
  lemma RoundIsDispatch(io: Io, fd: nat, reported: set<Event>, failed: bool, kernel: bool)
    requires Inv(io) && fd < |io.ctxs|
    ensures var r := DispatchRound(io, fd, reported, failed, kernel);
            if DispatchSafe(io, fd, reported, failed, kernel) then
              r == Done(Dispatch(io, fd, reported, failed, kernel).0, Dispatch(io, fd, reported, failed, kernel).1)
            else r == AssertionFails
  {
    var x := io.ctxs[fd];
    var due := RealEvents(reported, failed, x);
    if due * x.events != {} && kernel {
      Listed(io, fd, due);
      if !(due <= x.events) {
        var e :| e in due && e !in x.events;
        assert e == READ || e == WRITE;
      }
    }
  }

  /** epoll_ctl follows the kernel when the descriptor is on the list. */
  lemma Listed(io: Io, fd: nat, gone: set<Event>)
    requires Inv(io) && fd < |io.ctxs| && gone * io.ctxs[fd].events != {}
    ensures Unlist(io, fd, gone, true).0
  {
    var e :| e in gone * io.ctxs[fd].events;
    assert io.ctxs[fd].events != {};
  }

  /** The assertion in triggerEvent fails exactly when the kernel accepts the new mask, the report names something
      registered (an error report does as soon as anything is), and it also names something that is not. */
  lemma ReportExact(io: Io, fd: nat, reported: set<Event>, failed: bool, kernel: bool)
    requires Inv(io) && fd < |io.ctxs|
    ensures var events := io.ctxs[fd].events;
            DispatchRound(io, fd, reported, failed, kernel) == AssertionFails <==>
              && kernel
              && (reported * events != {} || (failed && events != {}))
              && !(reported <= events)
  {
    hide Inv, DispatchRound, Dispatch;
    RoundIsDispatch(io, fd, reported, failed, kernel);
    var x := io.ctxs[fd];
    if failed {
      assert (reported + x.events) * x.events == x.events;
      assert reported + x.events <= x.events <==> reported <= x.events;
      if x.events == {} { assert reported * x.events == {}; }
    }
  }

  /** The race idle() does not guard against: both events were reported, one is cancelled before the report is
      dispatched, and triggerEvent is then called for an event that is not registered any more. */
  lemma StaleReport(io: Io, fd: nat)
    requires Inv(io) && fd < |io.ctxs| && io.ctxs[fd].events == {READ, WRITE}
    ensures DispatchRound(io, fd, {READ, WRITE}, false, true) != AssertionFails
    ensures var t := CancelEvent(io, fd, READ, true).0;
            Inv(t) && fd < |t.ctxs| && DispatchRound(t, fd, {READ, WRITE}, false, true) == AssertionFails
  {
    hide DispatchRound;
    var t := CancelEvent(io, fd, READ, true).0;
    CancelEventKeeps(io, fd, READ, true);
    assert WaiterAt(t, fd, READ) == None && WaiterAt(t, fd, WRITE) == WaiterAt(io, fd, WRITE);
    assert READ !in t.ctxs[fd].events && WRITE in t.ctxs[fd].events;
    assert WRITE in {READ, WRITE} * t.ctxs[fd].events;
    ReportExact(io, fd, {READ, WRITE}, false, true);
    ReportExact(t, fd, {READ, WRITE}, false, true);
  }
}
