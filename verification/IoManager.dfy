/** IOManager of bobliew/iomanager.cc in its own form: FdContext objects, the interest list, the pending count and the
    scheduler's list of entries, changed in place. Every method is the operation of IoEvents on the values it holds. */
module IoManagers {
  import opened IoEvents
  import opened Runtime
  import RR = RuntimeRuns

  class FdContext {
    const fd: nat
    var events: set<Event>
    var read: Slot
    var write: Slot

    constructor (fd: nat)
      ensures this.fd == fd && Value() == FRESH
    {
      this.fd := fd;
      events, read, write := {}, EMPTY, EMPTY;
    }

    function Value(): FdCtx
      reads this
    {
      FdCtx(events, read, write)
    }

    /** resetContext(getContext(ev)). */
    method ResetContext(ev: Event)
      modifies this
      ensures Value() == SetContext(old(Value()), ev, EMPTY)
    {
      if ev == READ { read := EMPTY; } else { write := EMPTY; }
    }

    /** triggerEvent: the slot's owner is handed out and the slot is emptied. */
    method TriggerEvent(ev: Event) returns (w: Waiter)
      requires ev in events
      modifies this
      ensures (Value(), w) == Trigger(old(Value()), ev)
    {
      events := events - {ev};
      w := WaiterOf(if ev == READ then read else write);
      ResetContext(ev);
    }
  }

  function Values(xs: seq<FdContext>): (vs: seq<FdCtx>)
    reads xs
    ensures |vs| == |xs| && forall i :: 0 <= i < |xs| ==> vs[i] == xs[i].Value()
  {
    if xs == [] then [] else [xs[0].Value()] + Values(xs[1..])
  }

  /** What epoll_wait reports for a descriptor, and whether the epoll_ctl call after it succeeds. */
  datatype Report = Report(fd: nat, reported: set<Event>, failed: bool, kernel: bool)

  predicate ReportSafe(io: Io, r: Report)
  {
    r.fd < |io.ctxs| && DispatchSafe(io, r.fd, r.reported, r.failed, r.kernel)
  }

  predicate ReportsSafe(io: Io, rs: seq<Report>)
    decreases |rs|
  {
    rs == [] ||
    (ReportSafe(io, rs[0]) && ReportsSafe(Dispatch(io, rs[0].fd, rs[0].reported, rs[0].failed, rs[0].kernel).0, rs[1..]))
  }

  /** One report after the other. */
  function DispatchAll(io: Io, rs: seq<Report>): (Io, seq<Waiter>)
    requires ReportsSafe(io, rs)
    decreases |rs|
  {
    if rs == [] then (io, [])
    else
      var (t, ws) := Dispatch(io, rs[0].fd, rs[0].reported, rs[0].failed, rs[0].kernel);
      var (u, more) := DispatchAll(t, rs[1..]);
      (u, ws + more)
  }

  /** Whoever was waiting before the reports and is not handed out by them still waits in the same slot, nobody else
      does, and whoever is handed out was waiting. */
  lemma {:induction false} DispatchAllKeeps(io: Io, rs: seq<Report>)
    requires IoEvents.Inv(io) && ReportsSafe(io, rs)
    ensures var (t, ws) := DispatchAll(io, rs);
            && IoEvents.Inv(t) && io.pending == t.pending + |ws|
            && (forall fd: nat, e :: WaiterAt(t, fd, e).Some? ==> WaiterAt(io, fd, e) == WaiterAt(t, fd, e))
            && (forall fd: nat, e :: WaiterAt(io, fd, e).Some? && WaiterAt(t, fd, e).None? ==> WaiterAt(io, fd, e).value in ws)
            && (forall x :: x in ws ==> exists fd: nat, e :: WaiterAt(io, fd, e) == Some(x))
    decreases |rs|
  {
    hide IoEvents.Inv, WaiterAt, Dispatch, DispatchSafe;
    if rs != [] {
      var r := rs[0];
      OneReport(io, r);
      DispatchAllKeeps(Dispatch(io, r.fd, r.reported, r.failed, r.kernel).0, rs[1..]);
    }
  }

  lemma OneReport(io: Io, r: Report)
    requires IoEvents.Inv(io) && ReportSafe(io, r)
    ensures var (t, ws) := Dispatch(io, r.fd, r.reported, r.failed, r.kernel);
            && IoEvents.Inv(t) && io.pending == t.pending + |ws|
            && (forall fd: nat, e :: WaiterAt(t, fd, e).Some? ==> WaiterAt(io, fd, e) == WaiterAt(t, fd, e))
            && (forall fd: nat, e :: WaiterAt(io, fd, e).Some? && WaiterAt(t, fd, e).None? ==> WaiterAt(io, fd, e).value in ws)
            && (forall x :: x in ws ==> exists fd: nat, e :: WaiterAt(io, fd, e) == Some(x))
  {
    DispatchKeeps(io, r.fd, r.reported, r.failed, r.kernel);
    hide IoEvents.Inv, WaiterAt;
    forall fd: nat, e | WaiterAt(io, fd, e).Some? && WaiterAt(Dispatch(io, r.fd, r.reported, r.failed, r.kernel).0, fd, e).None?
      ensures WaiterAt(io, fd, e).value in Dispatch(io, r.fd, r.reported, r.failed, r.kernel).1
    {
      assert e == READ || e == WRITE;
    }
  }

  class IOManager {
    var fdContexts: seq<FdContext>
    var epoll: map<nat, set<Event>>
    var pendingEventCount: int
    var queue: seq<Task>

    predicate Distinct()
      reads this`fdContexts
    {
      && (forall i :: 0 <= i < |fdContexts| ==> fdContexts[i].fd == i)
    }

    function Abs(): Io
      reads this`fdContexts, this`epoll, this`pendingEventCount, fdContexts
    {
      Io(Values(fdContexts), epoll, pendingEventCount)
    }

    ghost predicate Valid()
      reads this`fdContexts, this`epoll, this`pendingEventCount, fdContexts
    {
      Distinct() && IoEvents.Inv(Abs())
    }

    constructor ()
      ensures Valid() && Abs() == Io(FreshCtxs(32), map[], 0) && queue == [] && forall x :: x in fdContexts ==> fresh(x)
    {
      fdContexts, epoll, pendingEventCount, queue := [], map[], 0, [];
      new;
      hide IoEvents.Inv;
      ContextResize(32);
      RR.InitIo(Abs(), 32);
    }

    /** contextResize to a larger size. */
    method ContextResize(size: nat)
      requires Distinct() && |fdContexts| <= size
      modifies this`fdContexts
      ensures Distinct() && Abs().ctxs == old(Abs().ctxs) + FreshCtxs(size - |old(fdContexts)|)
      ensures old(fdContexts) <= fdContexts && forall i :: |old(fdContexts)| <= i < |fdContexts| ==> fresh(fdContexts[i])
    {
      hide Values;
      var i := |fdContexts|;
      while i < size
        invariant i == |fdContexts| && |old(fdContexts)| <= i <= size && Distinct() && old(fdContexts) == fdContexts[..|old(fdContexts)|]
        invariant forall j :: |old(fdContexts)| <= j < i ==> fresh(fdContexts[j]) && fdContexts[j].Value() == FRESH
      {
        var x := new FdContext(i);
        fdContexts := fdContexts + [x];
        i := i + 1;
      }
    }

    /** epoll_ctl. */
    method EpollCtl(op: CtlOp, fd: nat, mask: set<Event>, kernel: bool) returns (ok: bool)
      modifies this`epoll
      ensures (ok, epoll) == Ctl(old(epoll), op, fd, mask, kernel)
    {
      ok := kernel && (op.CtlAdd? <==> fd !in epoll);
      if ok {
        epoll := if op.CtlDel? then epoll - {fd} else epoll[fd := mask];
      }
    }

    /** Replacing one context's value replaces one element of the abstract sequence. */
    twostate lemma OneChanged(k: nat)
      requires Distinct() && old(fdContexts) == fdContexts && k < |fdContexts|
      requires old(allocated(fdContexts)) && forall i :: 0 <= i < |fdContexts| && i != k ==> unchanged(fdContexts[i])
      ensures Abs().ctxs == old(Abs().ctxs)[k := fdContexts[k].Value()]
    {
      hide Values;
    }

    /** The new state once the interest list has been updated: the bit, the empty slot and the count. */
    method Fill(fd: nat, ev: Event, w: Waiter)
      requires Distinct() && fd < |fdContexts| && GetContext(fdContexts[fd].Value(), ev) == EMPTY
      modifies this`pendingEventCount, fdContexts[fd]
      ensures var io := old(Abs()); var x := io.ctxs[fd];
              Abs() == Io(io.ctxs[fd := SetContext(x.(events := x.events + {ev}), ev, SlotFor(w))], io.epoll, io.pending + 1)
    {
      hide Values;
      var ctx := fdContexts[fd];
      pendingEventCount := pendingEventCount + 1;
      ctx.events := ctx.events + {ev};
      if ev == READ { ctx.read := SlotFor(w); } else { ctx.write := SlotFor(w); }
      OneChanged(fd);
    }

    method AddEvent(fd: nat, ev: Event, w: Waiter, kernel: bool) returns (ok: bool)
      requires Valid() && WaiterAt(Abs(), fd, ev) == None
      modifies this`fdContexts, this`epoll, this`pendingEventCount, fdContexts
      ensures Valid() && fd < |Covered(old(Abs()), fd).ctxs| && ev !in Covered(old(Abs()), fd).ctxs[fd].events
      ensures (Abs(), ok) == IoEvents.AddEvent(old(Abs()), fd, ev, w, kernel)
      ensures old(fdContexts) <= fdContexts && forall i :: |old(fdContexts)| <= i < |fdContexts| ==> fresh(fdContexts[i])
    {
      hide IoEvents.Inv, IoEvents.AddEvent, WaiterAt, Covered, Values;
      AddEventKeeps(Abs(), fd, ev, w, kernel);
      AddCovered(Abs(), fd, ev, w, kernel);
      CoveredKeeps(Abs(), fd);
      Cover(fd);
      ok := AddHere(fd, ev, w, kernel);
    }

    /** addEvent on a descriptor that has its context already. */
    method AddHere(fd: nat, ev: Event, w: Waiter, kernel: bool) returns (ok: bool)
      requires Valid() && WaiterAt(Abs(), fd, ev) == None && fd < |fdContexts|
      modifies this`epoll, this`pendingEventCount, fdContexts[fd]
      ensures ev !in old(fdContexts[fd].events) && (Abs(), ok) == IoEvents.AddEvent(old(Abs()), fd, ev, w, kernel)
    {
      hide IoEvents.Inv, Values;
      SlotIsEmpty(Abs(), fd, ev);
      var ctx := fdContexts[fd];
      ok := EpollCtl(if ctx.events != {} then CtlMod else CtlAdd, fd, ctx.events + {ev}, kernel);
      if ok {
        Fill(fd, ev, w);
      }
    }

    /** The growth before an addEvent. */
    method Cover(fd: nat)
      requires Valid()
      modifies this`fdContexts
      ensures Valid() && Abs() == Covered(old(Abs()), fd) && fd < |fdContexts|
      ensures old(fdContexts) <= fdContexts && forall i :: |old(fdContexts)| <= i < |fdContexts| ==> fresh(fdContexts[i])
    {
      hide Values;
      CoveredKeeps(Abs(), fd);
      if |fdContexts| <= fd {
        ContextResize(fd * 3 / 2);
      }
    }

    /** The shared beginning of removing events: MOD while something is left, else DEL. */
    method Leave(fd: nat, gone: set<Event>, kernel: bool) returns (ok: bool)
      requires Distinct() && fd < |fdContexts|
      modifies this`epoll
      ensures (ok, epoll) == Unlist(old(Abs()), fd, gone, kernel)
    {
      var left := fdContexts[fd].events - gone;
      ok := EpollCtl(if left != {} then CtlMod else CtlDel, fd, left, kernel);
    }

    /** delEvent. The range test lets fd equal to the number of contexts through, which is left out; above it the call
        fails. */
    method DelEvent(fd: nat, ev: Event, kernel: bool) returns (ok: bool)
      requires Valid() && fd != |fdContexts|
      modifies this`epoll, this`pendingEventCount, if fd < |fdContexts| then {fdContexts[fd]} else {}
      ensures Valid() && fdContexts == old(fdContexts)
      ensures if fd < |fdContexts| then (Abs(), ok) == IoEvents.DelEvent(old(Abs()), fd, ev, kernel)
              else !ok && Abs() == old(Abs())
    {
      hide IoEvents.Inv, IoEvents.DelEvent, Values;
      if fd > |fdContexts| {
        return false;
      }
      DelEventKeeps(Abs(), fd, ev, kernel);
      ok := DelHere(fd, ev, kernel);
    }

    method DelHere(fd: nat, ev: Event, kernel: bool) returns (ok: bool)
      requires Distinct() && fd < |fdContexts|
      modifies this`epoll, this`pendingEventCount, fdContexts[fd]
      ensures (Abs(), ok) == IoEvents.DelEvent(old(Abs()), fd, ev, kernel)
    {
      hide Values;
      if ev !in fdContexts[fd].events {
        return false;
      }
      ok := Leave(fd, {ev}, kernel);
      if ok {
        Empty(fd, ev);
      }
    }

    /** The bit, the slot and the count of a deleted event. */
    method Empty(fd: nat, ev: Event)
      requires Distinct() && fd < |fdContexts|
      modifies this`pendingEventCount, fdContexts[fd]
      ensures var io := old(Abs()); var x := io.ctxs[fd];
              Abs() == Io(io.ctxs[fd := SetContext(x.(events := x.events - {ev}), ev, EMPTY)], io.epoll, io.pending - 1)
    {
      hide Values;
      var ctx := fdContexts[fd];
      pendingEventCount := pendingEventCount - 1;
      ctx.events := ctx.events - {ev};
      ctx.ResetContext(ev);
      OneChanged(fd);
    }

    /** triggerEvent of one descriptor and the count, when it is asked for. */
    method TriggerWhen(fd: nat, ev: Event, really: bool)
      requires Distinct() && fd < |fdContexts| && (really ==> ev in fdContexts[fd].events)
      modifies this`pendingEventCount, this`queue, fdContexts[fd]
      ensures var (io, ws) := TriggerIf(old(Abs()), fd, ev, really); Abs() == io && queue == old(queue) + Tasks(ws)
    {
      hide Values;
      if really {
        TriggerHere(fd, ev);
      }
    }

    method TriggerHere(fd: nat, ev: Event)
      requires Distinct() && fd < |fdContexts| && ev in fdContexts[fd].events
      modifies this`pendingEventCount, this`queue, fdContexts[fd]
      ensures var io := old(Abs()); var (y, w) := Trigger(io.ctxs[fd], ev);
              && Abs() == Io(io.ctxs[fd := y], io.epoll, io.pending - 1) && queue == old(queue) + [Task(w, -1)]
    {
      hide Values;
      var w := fdContexts[fd].TriggerEvent(ev);
      queue := queue + [Task(w, -1)];
      pendingEventCount := pendingEventCount - 1;
      OneChanged(fd);
    }

    /** cancelEvent, with the same range test. */
    method CancelEvent(fd: nat, ev: Event, kernel: bool) returns (ok: bool)
      requires Valid() && fd != |fdContexts|
      modifies this`epoll, this`pendingEventCount, this`queue, if fd < |fdContexts| then {fdContexts[fd]} else {}
      ensures Valid() && fdContexts == old(fdContexts)
      ensures if fd < |fdContexts| then
                var (io, done, ws) := IoEvents.CancelEvent(old(Abs()), fd, ev, kernel);
                Abs() == io && ok == done && queue == old(queue) + Tasks(ws)
              else !ok && Abs() == old(Abs()) && queue == old(queue)
    {
      hide IoEvents.Inv, IoEvents.CancelEvent, Values;
      if fd > |fdContexts| {
        return false;
      }
      CancelEventKeeps(Abs(), fd, ev, kernel);
      ok := CancelHere(fd, ev, kernel);
    }

    method CancelHere(fd: nat, ev: Event, kernel: bool) returns (ok: bool)
      requires Distinct() && fd < |fdContexts|
      modifies this`epoll, this`pendingEventCount, this`queue, fdContexts[fd]
      ensures var (io, done, ws) := IoEvents.CancelEvent(old(Abs()), fd, ev, kernel);
              Abs() == io && ok == done && queue == old(queue) + Tasks(ws)
    {
      hide Values;
      if ev !in fdContexts[fd].events {
        return false;
      }
      ok := Leave(fd, {ev}, kernel);
      if ok {
        TriggerWhen(fd, ev, true);
      }
    }

    /** Triggers READ and WRITE as far as they are asked for. */
    method TriggerThese(fd: nat, evs: set<Event>)
      requires Distinct() && fd < |fdContexts| && evs <= fdContexts[fd].events
      modifies this`pendingEventCount, this`queue, fdContexts[fd]
      ensures var (io, ws) := TriggerBoth(old(Abs()), fd, evs); Abs() == io && queue == old(queue) + Tasks(ws)
    {
      hide Values;
      TriggerWhen(fd, READ, READ in evs);
      TriggerWhen(fd, WRITE, WRITE in evs);
    }

    /** cancelAll, with the same range test. */
    method CancelAll(fd: nat, kernel: bool) returns (ok: bool)
      requires Valid() && fd != |fdContexts|
      modifies this`epoll, this`pendingEventCount, this`queue, if fd < |fdContexts| then {fdContexts[fd]} else {}
      ensures Valid() && fdContexts == old(fdContexts)
      ensures if fd < |fdContexts| then
                var (io, done, ws) := IoEvents.CancelAll(old(Abs()), fd, kernel);
                Abs() == io && ok == done && queue == old(queue) + Tasks(ws) && (ok ==> fdContexts[fd].events == {})
              else !ok && Abs() == old(Abs()) && queue == old(queue)
    {
      hide IoEvents.Inv, IoEvents.CancelAll;
      if fd > |fdContexts| {
        return false;
      }
      CancelAllKeeps(Abs(), fd, kernel);
      ok := CancelAllHere(fd, kernel);
    }

    method CancelAllHere(fd: nat, kernel: bool) returns (ok: bool)
      requires Distinct() && fd < |fdContexts|
      modifies this`epoll, this`pendingEventCount, this`queue, fdContexts[fd]
      ensures var (io, done, ws) := IoEvents.CancelAll(old(Abs()), fd, kernel);
              Abs() == io && ok == done && queue == old(queue) + Tasks(ws)
    {
      hide Values;
      if fdContexts[fd].events == {} {
        return false;
      }
      ok := EpollCtl(CtlDel, fd, {}, kernel);
      if ok {
        TriggerThese(fd, fdContexts[fd].events);
      }
    }

    /** One round of the dispatch loop of idle(). */
    method DispatchOne(r: Report)
      requires Valid() && ReportSafe(Abs(), r)
      modifies this`epoll, this`pendingEventCount, this`queue, fdContexts[r.fd]
      ensures var (io, ws) := Dispatch(old(Abs()), r.fd, r.reported, r.failed, r.kernel);
              Valid() && Abs() == io && queue == old(queue) + Tasks(ws)
    {
      hide IoEvents.Inv, Values;
      DispatchKeeps(Abs(), r.fd, r.reported, r.failed, r.kernel);
      var ctx := fdContexts[r.fd];
      var due := if r.failed then r.reported + ctx.events else r.reported;
      if due * ctx.events == {} {
        return;
      }
      var ok := Leave(r.fd, due, r.kernel);
      if ok {
        TriggerThese(r.fd, due);
      }
    }

    /** The dispatch loop of idle(). */
    method DispatchReports(rs: seq<Report>)
      requires Valid() && ReportsSafe(Abs(), rs)
      modifies this`epoll, this`pendingEventCount, this`queue, fdContexts
      ensures var (io, ws) := DispatchAll(old(Abs()), rs);
              Valid() && Abs() == io && queue == old(queue) + Tasks(ws)
    {
      hide IoEvents.Inv, Dispatch, DispatchAll, ReportsSafe, Values, DispatchSafe;
      DispatchNone(Abs());
      assert rs[0..] == rs && rs[|rs|..] == [];
      ghost var sent: seq<Waiter> := [];
      var i := 0;
      while i < |rs|
        invariant 0 <= i <= |rs| && Valid() && ReportsSafe(Abs(), rs[i..])
        invariant DispatchAll(old(Abs()), rs).0 == DispatchAll(Abs(), rs[i..]).0
        invariant DispatchAll(old(Abs()), rs).1 == sent + DispatchAll(Abs(), rs[i..]).1
        invariant queue == old(queue) + Tasks(sent)
      {
        DispatchFirst(Abs(), rs, i);
        ghost var ws := Dispatch(Abs(), rs[i].fd, rs[i].reported, rs[i].failed, rs[i].kernel).1;
        DispatchOne(rs[i]);
        assert Tasks(sent + ws) == Tasks(sent) + Tasks(ws);
        sent := sent + ws;
        i := i + 1;
      }
      DispatchNone(Abs());
    }
  }

  lemma AddCovered(io: Io, fd: nat, ev: Event, w: Waiter, kernel: bool)
    requires fd < |Covered(io, fd).ctxs| && ev !in Covered(io, fd).ctxs[fd].events
    ensures Covered(Covered(io, fd), fd) == Covered(io, fd)
    ensures AddEvent(Covered(io, fd), fd, ev, w, kernel) == AddEvent(io, fd, ev, w, kernel)
  {
  }

  lemma DispatchNone(io: Io)
    ensures ReportsSafe(io, []) && DispatchAll(io, []) == (io, [])
  {
  }

  lemma DispatchFirst(io: Io, rs: seq<Report>, i: nat)
    requires i < |rs| && ReportsSafe(io, rs[i..])
    ensures ReportSafe(io, rs[i])
    ensures var (t, ws) := Dispatch(io, rs[i].fd, rs[i].reported, rs[i].failed, rs[i].kernel);
            ReportsSafe(t, rs[i + 1..])
            && DispatchAll(io, rs[i..]) == (DispatchAll(t, rs[i + 1..]).0, ws + DispatchAll(t, rs[i + 1..]).1)
  {
    hide Dispatch;
    assert rs[i..][0] == rs[i] && rs[i..][1..] == rs[i + 1..];
  }

  lemma SlotIsEmpty(io: Io, fd: nat, ev: Event)
    requires IoEvents.Inv(io) && fd < |io.ctxs| && WaiterAt(io, fd, ev) == None
    ensures GetContext(io.ctxs[fd], ev) == EMPTY
  {
    assert ev == READ || ev == WRITE;
  }
}
