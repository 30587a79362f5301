/** FiberSemaphore of bobliew/mutex.cc: the steps under its lock, the class, and what holds over whole runs. */
module Semaphores {

  /** m_concurrency and m_waiters, the waiting fibers in arrival order. */
  datatype Sem = Sem(count: nat, waiters: seq<nat>)

  /** wait by fiber f up to the point where it either has a permit (true) or is queued and must yield. */
  function Wait(s: Sem, f: nat): (Sem, bool)
  {
    if s.count > 0 then (s.(count := s.count - 1), true) else (s.(waiters := s.waiters + [f]), false)
  }

  function TryWait(s: Sem): (Sem, bool)
  {
    if s.count > 0 then (s.(count := s.count - 1), true) else (s, false)
  }

  /** notify: hands the permit to the first waiter, who is scheduled, or stores it. */
  function Notify(s: Sem): (Sem, seq<nat>)
  {
    if s.waiters != [] then (s.(waiters := s.waiters[1..]), [s.waiters[0]]) else (s.(count := s.count + 1), [])
  }

  class FiberSemaphore {
    var concurrency: nat
    var waiters: seq<nat>

    function Abs(): Sem
      reads this
    {
      Sem(concurrency, waiters)
    }

    constructor (initial: nat)
      ensures Abs() == Sem(initial, [])
    {
      concurrency := initial;
      waiters := [];
    }

    /** wait; the result says whether the caller goes on without yielding. */
    method WaitHere(f: nat) returns (granted: bool)
      modifies this
      ensures (Abs(), granted) == Wait(old(Abs()), f)
    {
      if concurrency > 0 {
        concurrency := concurrency - 1;
        return true;
      }
      waiters := waiters + [f];
      return false;
    }

    method TryWaitHere() returns (granted: bool)
      modifies this
      ensures (Abs(), granted) == TryWait(old(Abs()))
    {
      if concurrency > 0 {
        concurrency := concurrency - 1;
        return true;
      }
      return false;
    }

    /** notify; the result is the fiber handed to its scheduler, if any. */
    method NotifyOne() returns (woken: seq<nat>)
      modifies this
      ensures (Abs(), woken) == Notify(old(Abs()))
    {
      woken := [];
      if waiters != [] {
        woken := [waiters[0]];
        waiters := waiters[1..];
      } else {
        concurrency := concurrency + 1;
      }
    }
  }

  // ---- runs ----

  datatype Op = OpWait(f: nat) | OpTryWait | OpNotify

  /** The semaphore with its history: who had to queue, in arrival order; who of them was granted, in order of the
      grants; how many permits were granted in all; how many notifications there were. */
  datatype Log = Log(sem: Sem, queued: seq<nat>, served: seq<nat>, grants: nat, notifies: nat)

  function Step(l: Log, op: Op): Log
  {
    match op
    case OpWait(f) =>
      var (t, ok) := Wait(l.sem, f);
      if ok then l.(sem := t, grants := l.grants + 1) else l.(sem := t, queued := l.queued + [f])
    case OpTryWait =>
      var (t, ok) := TryWait(l.sem);
      if ok then l.(sem := t, grants := l.grants + 1) else l.(sem := t)
    case OpNotify =>
      var (t, woken) := Notify(l.sem);
      l.(sem := t, served := l.served + woken, grants := l.grants + |woken|, notifies := l.notifies + 1)
  }

  function Exec(l: Log, ops: seq<Op>): Log
    decreases |ops|
  {
    if ops == [] then l else Exec(Step(l, ops[0]), ops[1..])
  }

  /** A positive count means nobody waits; permits are conserved; those served so far followed by those still
      waiting are those who queued, in arrival order. */
  ghost predicate Inv(l: Log, initial: nat)
  {
    && (l.sem.count > 0 ==> l.sem.waiters == [])
    && initial + l.notifies == l.sem.count + l.grants
    && l.queued == l.served + l.sem.waiters
  }

  lemma StepKeeps(l: Log, op: Op, initial: nat)
    requires Inv(l, initial)
    ensures Inv(Step(l, op), initial)
  {
    match op
    case OpWait(f) => assert l.served + (l.sem.waiters + [f]) == l.served + l.sem.waiters + [f];
    case OpTryWait =>
    case OpNotify =>
      if l.sem.waiters != [] {
        assert l.sem.waiters == [l.sem.waiters[0]] + l.sem.waiters[1..];
      }
  }

  /** Over every run: no permit is lost or invented, waiters are served strictly in arrival order, and while somebody
      waits neither wait nor tryWait by a newcomer gets a permit. */
  lemma {:induction false} RunKeeps(l: Log, ops: seq<Op>, initial: nat)
    requires Inv(l, initial)
    ensures Inv(Exec(l, ops), initial)
    ensures var s := Exec(l, ops).sem; s.waiters != [] ==> (forall f :: !Wait(s, f).1) && !TryWait(s).1
    decreases |ops|
  {
    if ops != [] {
      StepKeeps(l, ops[0], initial);
      RunKeeps(Step(l, ops[0]), ops[1..], initial);
    }
  }

  lemma EveryRun(initial: nat, ops: seq<Op>)
    ensures var l := Exec(Log(Sem(initial, []), [], [], 0, 0), ops);
            && (l.sem.count > 0 ==> l.sem.waiters == [])
            && initial + l.notifies == l.sem.count + l.grants
            && l.served <= l.queued && l.queued[|l.served|..] == l.sem.waiters
  {
    var start := Log(Sem(initial, []), [], [], 0, 0);
    RunKeeps(start, ops, initial);
  }

  /** In every run tryWait and wait succeed exactly when fewer permits were granted than there have been, one grant each;
      tryWait never queues anybody, wait queues its caller last when it fails, and a notify is granted at once to the
      longest waiter or else adds to what can be granted. */
  lemma GrantsExact(initial: nat, ops: seq<Op>, f: nat)
    ensures var l := Exec(Log(Sem(initial, []), [], [], 0, 0), ops);
            var free := initial + l.notifies - l.grants;
            var tried, waited, notified := Step(l, OpTryWait), Step(l, OpWait(f)), Step(l, OpNotify);
            && (TryWait(l.sem).1 <==> free > 0) && (Wait(l.sem, f).1 <==> free > 0)
            && tried.grants == l.grants + (if free > 0 then 1 else 0) && tried.queued == l.queued
            && waited.grants == l.grants + (if free > 0 then 1 else 0)
            && waited.queued == l.queued + (if free > 0 then [] else [f])
            && (l.served == l.queued ==> notified.served == l.served && notified.grants == l.grants)
            && (l.served != l.queued ==> |l.served| < |l.queued| && notified.served == l.served + [l.queued[|l.served|]]
                                         && notified.grants == l.grants + 1)
  {
    hide Exec;
    var start := Log(Sem(initial, []), [], [], 0, 0);
    RunKeeps(start, ops, initial);
    var l := Exec(start, ops);
    assert l.queued == l.served + l.sem.waiters;
    assert l.sem.waiters == [] <==> l.served == l.queued by {
      if l.sem.waiters != [] { assert |l.queued| > |l.served|; }
    }
  }
}
