/** Scheduler of bobliew/scheduler.cc and scheduler.h in its own form: the list of entries, the counters and the parts of
    the worker loop around swapIn, each shown to be the step of the transition system in Runtime. */
module Schedulers {
  import opened IoEvents
  import opened Runtime
  import RR = RuntimeRuns

  /** The entries a batch adds: the pointers that are not null, in order. */
  function Entries(ws: seq<Option<Waiter>>): seq<Task>
  {
    if ws == [] then []
    else (if ws[0].Some? then [Task(ws[0].value, -1)] else []) + Entries(ws[1..])
  }

  lemma {:induction false} EntriesSnoc(ws: seq<Option<Waiter>>, x: Option<Waiter>)
    ensures Entries(ws + [x]) == Entries(ws) + if x.Some? then [Task(x.value, -1)] else []
  {
    if ws == [] {
      assert ws + [x] == [x] && [x][1..] == [];
    } else {
      EntriesSnoc(ws[1..], x);
      assert (ws + [x])[1..] == ws[1..] + [x];
    }
  }

  /** How often a piece of work occurs among entries and among pointers. */
  function Queued(q: seq<Task>, x: Waiter): nat
  {
    if q == [] then 0 else (if q[0].work == x then 1 else 0) + Queued(q[1..], x)
  }

  function Pointed(ws: seq<Option<Waiter>>, x: Waiter): nat
  {
    if ws == [] then 0 else (if ws[0] == Some(x) then 1 else 0) + Pointed(ws[1..], x)
  }

  lemma {:induction false} QueuedAppend(q: seq<Task>, r: seq<Task>, x: Waiter)
    ensures Queued(q + r, x) == Queued(q, x) + Queued(r, x)
  {
    if q == [] {
      assert q + r == r;
    } else {
      QueuedAppend(q[1..], r, x);
      assert (q + r)[1..] == q[1..] + r;
    }
  }

  /** Batch scheduling moves ownership: what was pointed to is queued afterwards, as often as before. */
  lemma {:induction false} BatchConserves(q: seq<Task>, ws: seq<Option<Waiter>>, x: Waiter)
    ensures Queued(q + Entries(ws), x) == Queued(q, x) + Pointed(ws, x)
    decreases |ws|
  {
    QueuedAppend(q, Entries(ws), x);
    if ws != [] {
      var head := if ws[0].Some? then [Task(ws[0].value, -1)] else [];
      BatchConserves([], ws[1..], x);
      assert [] + Entries(ws[1..]) == Entries(ws[1..]);
      QueuedAppend(head, Entries(ws[1..]), x);
    }
  }

  /** run() passes over this entry because of its thread. */
  predicate Elsewhere(t: Task, w: int) { t.thread != -1 && t.thread != w }

  class Scheduler {
    var states: map<nat, FiberState>
    var queue: seq<Task>
    var cbFiber: map<int, nat>
    var active: int
    var autoStop: bool
    var stopRequested: bool

    /** This object is the scheduler part of the runtime state s. */
    predicate Agrees(s: Rt)
      reads this
    {
      states == s.fibers && queue == s.queue && cbFiber == s.cbFiber && active == s.active
    }

    /** scheduleNoLock; nothing is added for a null fiber or callback. */
    method ScheduleNoLock(x: Option<Waiter>, thread: int) returns (needTickle: bool)
      modifies this`queue
      ensures needTickle == (old(queue) == [])
      ensures queue == old(queue) + if x.Some? then [Task(x.value, thread)] else []
    {
      needTickle := queue == [];
      if x.Some? {
        queue := queue + [Task(x.value, thread)];
      }
    }

    /** schedule(begin, end): every pointer is swapped out of the caller's array. */
    method ScheduleBatch(ws: array<Option<Waiter>>) returns (needTickle: bool)
      modifies this`queue, ws
      ensures queue == old(queue) + Entries(old(ws[..]))
      ensures forall i :: 0 <= i < ws.Length ==> ws[i] == None
      ensures needTickle == (old(queue) == [] && ws.Length > 0)
    {
      needTickle := false;
      var i := 0;
      while i < ws.Length
        invariant 0 <= i <= ws.Length
        invariant queue == old(queue) + Entries(old(ws[..])[..i])
        invariant forall j :: 0 <= j < i ==> ws[j] == None
        invariant forall j :: i <= j < ws.Length ==> ws[j] == old(ws[j])
        invariant needTickle == (old(queue) == [] && i > 0)
      {
        EntriesSnoc(old(ws[..])[..i], ws[i]);
        assert old(ws[..])[..i + 1] == old(ws[..])[..i] + [ws[i]];
        var first := ScheduleNoLock(ws[i], -1);
        needTickle := first || needTickle;
        ws[i] := None;
        i := i + 1;
      }
      assert old(ws[..])[..ws.Length] == old(ws[..]);
    }

    /** The search of run() on thread w: it takes the first entry that may run here and leaves the rest in order, or finds
        that there is none; and it asks for a wake-up if it passed over an entry of another thread or left some behind. */
    method PickTask(w: int, ghost s: Rt) returns (found: bool, task: Task, tickleMe: bool)
      requires Agrees(s)
      modifies this`queue, this`active
      ensures found <==> exists i: nat :: FirstEligible(s, w, i)
      ensures found ==> exists i: nat :: FirstEligible(s, w, i) && task == s.queue[i] && Agrees(Pick(s, w, i))
                                  && tickleMe == (i + 1 < |s.queue| || exists j :: 0 <= j < i && Elsewhere(s.queue[j], w))
      ensures !found ==> Agrees(s) && tickleMe == exists j :: 0 <= j < |s.queue| && Elsewhere(s.queue[j], w)
    {
      found, tickleMe, task := false, false, Task(WFiber(0), -1);
      var i := 0;
      while i < |queue| && !found
        invariant 0 <= i <= |s.queue|
        invariant forall j :: 0 <= j < i ==> !Eligible(s.queue[j], w, s.fibers)
        invariant tickleMe <==> exists j :: 0 <= j < i && Elsewhere(s.queue[j], w)
        invariant !found ==> Agrees(s)
        invariant found ==> FirstEligible(s, w, i) && task == s.queue[i] && Agrees(Pick(s, w, i))
        decreases |s.queue| - i, !found
      {
        if queue[i].thread != -1 && queue[i].thread != w {
          tickleMe := true;
          i := i + 1;
        } else if queue[i].work.WFiber? && queue[i].work.f in states && states[queue[i].work.f] == EXEC {
          i := i + 1;
        } else {
          task := queue[i];
          queue := queue[..i] + queue[i + 1..];
          active := active + 1;
          found := true;
        }
      }
      if found {
        tickleMe := tickleMe || i < |queue|;
      }
    }

    /** What run() does after swapIn returned with fiber f, run on worker w, in the state it left itself in: it goes back to
        the queue, is parked, or is done with; a callback fiber is reset for reuse or let go. */
    method Settle(w: int, f: nat, viaCb: bool, ghost s: Rt)
      requires RR.IsRunning(s, w) && s.workers[w].f == f && s.workers[w].viaCb == viaCb
      requires f in states && states[f] in {HOLD, READY, TERM, EXCEPT} && states == s.fibers[f := states[f]]
      requires queue == s.queue && cbFiber == s.cbFiber && active == s.active
      modifies this`states, this`queue, this`cbFiber, this`active
      ensures old(states[f]) == READY ==> Agrees(YieldReady(s, w))
      ensures old(states[f]) == HOLD ==> Agrees(YieldHold(s, w))
      ensures old(states[f]) in {TERM, EXCEPT} ==> Agrees(Finish(s, w, old(states[f]) == TERM))
    {
      active := active - 1;
      if states[f] == READY {
        var _ := ScheduleNoLock(Some(WFiber(f)), -1);
      } else if states[f] in {TERM, EXCEPT} {
        if viaCb {
          states := states[f := INIT];
        }
      } else {
        states := states[f := HOLD];
        if viaCb {
          cbFiber := cbFiber - {w};
        }
      }
    }

    /** Scheduler::stopping: the counter says what a look at all workers would say. */
    method Stopping(ghost s: Rt) returns (r: bool)
      requires RtInv(s) && Agrees(s)
      ensures r <==> autoStop && stopRequested && s.queue == [] && forall w :: w in s.workers ==> s.workers[w] == Free
    {
      hide At, Waits, IoEvents.Inv, FiberOk, CallbackOk, KeepOk, Execution;
      r := autoStop && stopRequested && queue == [] && active == 0;
      RR.NobodyBusy(s);
    }
  }
}
