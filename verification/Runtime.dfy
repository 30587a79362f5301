/** The fiber runtime as a transition system: run queue and worker loop (bobliew/scheduler.cc), fiber states
    (bobliew/fiber.cc), event slots (bobliew/iomanager.cc) and semaphore waiters (bobliew/mutex.cc). Registering as a
    waiter and yielding are separate steps; a yield and the worker's bookkeeping after it are one. */
module Runtime {
  import opened IoEvents
  import Semaphores

  datatype FiberState = INIT | HOLD | EXEC | TERM | READY | EXCEPT

  /** FiberAndThread: a fiber or a callback, pinned to a thread unless thread is -1. */
  datatype Task = Task(work: Waiter, thread: int)

  /** Where a worker thread is in Scheduler::run. */
  datatype Worker = Free | Held(task: Task) | Running(f: nat, viaCb: bool, thread: int)

  datatype Rt = Rt(
    fibers: map<nat, FiberState>,
    registered: set<nat>,           // running fibers that stored themselves as waiters and have not yielded yet
    queue: seq<Task>,
    workers: map<int, Worker>,
    cbFiber: map<int, nat>,         // the callback fiber a worker keeps for reuse
    active: int,
    io: Io,
    sems: map<nat, Semaphores.Sem>,
    host: map<nat, nat>,            // the callback a fiber executes
    issued: set<nat>,               // callbacks ever submitted
    finished: set<Waiter>,
    dropped: set<Waiter>)

  // ---- where a piece of work waits ----

  datatype Loc = InQueue(i: int) | HeldBy(w: int) | InSlot(fd: nat, ev: Event) | InSem(id: nat, i: int)

  ghost predicate At(s: Rt, x: Waiter, l: Loc)
  {
    match l
    case InQueue(i) => 0 <= i < |s.queue| && s.queue[i].work == x
    case HeldBy(w) => w in s.workers && s.workers[w].Held? && s.workers[w].task.work == x
    case InSlot(fd, ev) => WaiterAt(s.io, fd, ev) == Some(x)
    case InSem(id, i) => id in s.sems && 0 <= i < |s.sems[id].waiters| && WFiber(s.sems[id].waiters[i]) == x
  }

  ghost predicate Waits(s: Rt, x: Waiter) { exists l :: At(s, x, l) }

  /** No piece of work waits in two places, nor twice in one. */
  ghost predicate Unique(s: Rt) { forall x, l, m :: At(s, x, l) && At(s, x, m) ==> l == m }

  predicate Runs(s: Rt, f: nat, w: int) { w in s.workers && s.workers[w].Running? && s.workers[w].f == f }

  predicate Asleep(st: FiberState) { st in {INIT, HOLD, READY} }

  // ---- steps ----

  /** Scheduler::schedule appends. */
  function Push(s: Rt, x: Waiter, thread: int): Rt { s.(queue := s.queue + [Task(x, thread)]) }

  function Tasks(ws: seq<Waiter>): (q: seq<Task>)
    ensures |q| == |ws| && forall i :: 0 <= i < |ws| ==> q[i] == Task(ws[i], -1)
  {
    seq(|ws|, i requires 0 <= i < |ws| => Task(ws[i], -1))
  }

  /** run() may take this entry on thread w. */
  predicate Eligible(t: Task, w: int, fibers: map<nat, FiberState>)
  {
    && (t.thread == -1 || t.thread == w)
    && !(t.work.WFiber? && t.work.f in fibers && fibers[t.work.f] == EXEC)
  }

  predicate FirstEligible(s: Rt, w: int, i: nat)
  {
    && i < |s.queue| && Eligible(s.queue[i], w, s.fibers)
    && forall j :: 0 <= j < i ==> !Eligible(s.queue[j], w, s.fibers)
  }

  function SubmitFiber(s: Rt, f: nat, thread: int): Rt
  {
    Push(s.(fibers := s.fibers[f := INIT]), WFiber(f), thread)
  }

  function SubmitCallback(s: Rt, c: nat, thread: int): Rt
  {
    Push(s.(issued := s.issued + {c}), WCallback(c), thread)
  }

  function Pick(s: Rt, w: int, i: nat): Rt
    requires i < |s.queue|
  {
    s.(queue := s.queue[..i] + s.queue[i + 1..], workers := s.workers[w := Held(s.queue[i])], active := s.active + 1)
  }

  /** swapIn of a picked fiber. */
  function SwapIn(s: Rt, w: int): Rt
    requires w in s.workers && s.workers[w].Held? && s.workers[w].task.work.WFiber?
  {
    var t := s.workers[w].task;
    s.(fibers := s.fibers[t.work.f := EXEC], workers := s.workers[w := Running(t.work.f, false, t.thread)])
  }

  /** A picked callback goes into the worker's callback fiber, or into the new fiber g. */
  function StartCallback(s: Rt, w: int, g: nat): Rt
    requires w in s.workers && s.workers[w].Held? && s.workers[w].task.work.WCallback?
  {
    var t := s.workers[w].task;
    var f := if w in s.cbFiber then s.cbFiber[w] else g;
    s.(fibers := s.fibers[f := EXEC], workers := s.workers[w := Running(f, true, t.thread)],
       cbFiber := s.cbFiber[w := f], host := s.host[f := t.work.c])
  }

  /** YieldToHold, and the worker letting go. */
  function YieldHold(s: Rt, w: int): Rt
    requires w in s.workers && s.workers[w].Running?
  {
    var f := s.workers[w].f;
    s.(fibers := s.fibers[f := HOLD], registered := s.registered - {f}, workers := s.workers[w := Free],
       cbFiber := if s.workers[w].viaCb then s.cbFiber - {w} else s.cbFiber, active := s.active - 1)
  }

  /** YieldToReady, and the worker requeueing the fiber; a callback fiber stays with the worker as well. */
  function YieldReady(s: Rt, w: int): Rt
    requires w in s.workers && s.workers[w].Running?
  {
    var f := s.workers[w].f;
    Push(s.(fibers := s.fibers[f := READY], workers := s.workers[w := Free], active := s.active - 1), WFiber(f), -1)
  }

  /** The fiber's function returns (TERM) or throws (EXCEPT); a callback fiber is reset for reuse. */
  function Finish(s: Rt, w: int, ok: bool): Rt
    requires w in s.workers && s.workers[w].Running?
  {
    var f := s.workers[w].f;
    var done := if s.workers[w].viaCb then INIT else if ok then TERM else EXCEPT;
    s.(fibers := s.fibers[f := done], workers := s.workers[w := Free], active := s.active - 1, host := s.host - {f},
       finished := s.finished + (if s.workers[w].viaCb then {} else {WFiber(f)})
                              + (if f in s.host then {WCallback(s.host[f])} else {}))
  }

  /** addEvent without a callback, by the fiber running on w. */
  function RegisterFiber(s: Rt, w: int, fd: nat, ev: Event, kernel: bool): Rt
    requires w in s.workers && s.workers[w].Running?
    requires fd < |Covered(s.io, fd).ctxs| && ev !in Covered(s.io, fd).ctxs[fd].events
  {
    var f := s.workers[w].f;
    var (io, ok) := AddEvent(s.io, fd, ev, WFiber(f), kernel);
    s.(io := io, registered := if ok then s.registered + {f} else s.registered)
  }

  /** addEvent with a callback. */
  function RegisterCallback(s: Rt, c: nat, fd: nat, ev: Event, kernel: bool): Rt
    requires fd < |Covered(s.io, fd).ctxs| && ev !in Covered(s.io, fd).ctxs[fd].events
  {
    var (io, ok) := AddEvent(s.io, fd, ev, WCallback(c), kernel);
    s.(io := io, issued := s.issued + {c}, dropped := if ok then s.dropped else s.dropped + {WCallback(c)})
  }

  function DropEvent(s: Rt, fd: nat, ev: Event, kernel: bool): Rt
    requires fd < |s.io.ctxs|
  {
    var (io, ok) := DelEvent(s.io, fd, ev, kernel);
    s.(io := io, dropped := if ok && WaiterAt(s.io, fd, ev).Some? then s.dropped + {WaiterAt(s.io, fd, ev).value} else s.dropped)
  }

  /** cancelEvent, cancelAll and the dispatch loop hand their waiters to the queue. */
  function Release(s: Rt, io: Io, ws: seq<Waiter>): Rt { s.(io := io, queue := s.queue + Tasks(ws)) }

  function SemWait(s: Rt, w: int, id: nat): Rt
    requires w in s.workers && s.workers[w].Running? && id in s.sems
  {
    var f := s.workers[w].f;
    var (sem, ok) := Semaphores.Wait(s.sems[id], f);
    s.(sems := s.sems[id := sem], registered := if ok then s.registered else s.registered + {f})
  }

  function SemTryWait(s: Rt, id: nat): Rt
    requires id in s.sems
  {
    s.(sems := s.sems[id := Semaphores.TryWait(s.sems[id]).0])
  }

  function SemNotify(s: Rt, id: nat): Rt
    requires id in s.sems
  {
    var (sem, woken) := Semaphores.Notify(s.sems[id]);
    s.(sems := s.sems[id := sem], queue := s.queue + Tasks(if woken == [] then [] else [WFiber(woken[0])]))
  }

  // ---- the invariant ----

  predicate KeptBy(s: Rt, f: nat, w: int) { w in s.cbFiber && s.cbFiber[w] == f }

  ghost predicate Kept(s: Rt, f: nat) { exists w :: KeptBy(s, f, w) }

  predicate HostedBy(s: Rt, c: nat, f: nat) { f in s.host && s.host[f] == c }

  ghost predicate Hosted(s: Rt, c: nat) { exists f :: HostedBy(s, c, f) }

  /** A fiber is executing exactly while one worker runs it. */
  ghost predicate Execution(s: Rt)
  {
    && (forall f, w :: Runs(s, f, w) ==> f in s.fibers && s.fibers[f] == EXEC)
    && (forall f :: f in s.fibers && s.fibers[f] == EXEC ==> exists w :: Runs(s, f, w))
    && (forall f, w, v :: Runs(s, f, w) && Runs(s, f, v) ==> w == v)
  }

  /** Who may wait: a sleeping fiber, or a running one that has registered and not yielded yet; and whoever sleeps or
      has registered does wait, unless its waiter was deleted or it is a callback fiber kept for reuse. */
  ghost predicate FiberOk(s: Rt, f: nat)
  {
    && (Waits(s, WFiber(f)) ==> f in s.fibers && (Asleep(s.fibers[f]) || f in s.registered))
    && (f in s.registered ==> f in s.fibers && s.fibers[f] == EXEC)
    && (f in s.fibers && (Asleep(s.fibers[f]) || f in s.registered) ==>
          Waits(s, WFiber(f)) || WFiber(f) in s.dropped || (s.fibers[f] == INIT && Kept(s, f)))
    && (WFiber(f) in s.dropped ==>
          f in s.fibers && !Waits(s, WFiber(f)) && (Asleep(s.fibers[f]) || f in s.registered))
  }

  /** An entry a worker has picked but not swapped in is a sleeping fiber: the assertion in swapIn. */
  ghost predicate HeldAsleep(s: Rt)
  {
    forall w :: w in s.workers && s.workers[w].Held? && s.workers[w].task.work.WFiber? ==>
      s.workers[w].task.work.f in s.fibers && Asleep(s.fibers[s.workers[w].task.work.f])
  }

  /** The callback fiber a worker keeps is either running on it, or idle in INIT and waiting nowhere. */
  ghost predicate KeepOk(s: Rt, w: int)
  {
    && (w in s.cbFiber ==>
          && s.cbFiber[w] in s.fibers
          && ((s.fibers[s.cbFiber[w]] == INIT && !Waits(s, WFiber(s.cbFiber[w])) && s.cbFiber[w] !in s.host
               && WFiber(s.cbFiber[w]) !in s.dropped)
              || (w in s.workers && s.workers[w].Running? && s.workers[w].viaCb && s.workers[w].f == s.cbFiber[w])))
    && (w in s.workers && s.workers[w].Running? && s.workers[w].viaCb ==>
          w in s.cbFiber && s.cbFiber[w] == s.workers[w].f)
  }

  /** No two workers keep the same callback fiber. */
  ghost predicate OwnKeeps(s: Rt)
  {
    forall w, v :: w in s.cbFiber && v in s.cbFiber && s.cbFiber[w] == s.cbFiber[v] ==> w == v
  }

  /** A callback that was submitted waits, is being executed, has finished or was dropped: exactly one of these. */
  ghost predicate CallbackOk(s: Rt, c: nat)
  {
    var waits, hosted := Waits(s, WCallback(c)), Hosted(s, c);
    var finished, dropped := WCallback(c) in s.finished, WCallback(c) in s.dropped;
    && (c in s.issued <==> waits || hosted || finished || dropped)
    && !(waits && hosted) && !(waits && finished) && !(waits && dropped)
    && !(hosted && finished) && !(hosted && dropped) && !(finished && dropped)
  }

  /** A callback is executed by one fiber. */
  ghost predicate OwnHosts(s: Rt)
  {
    && (forall f :: f in s.host ==> f in s.fibers)
    && (forall f, g :: f in s.host && g in s.host && s.host[f] == s.host[g] ==> f == g)
  }

  /** Pinned entries are only with their thread. */
  ghost predicate Pinned(s: Rt)
  {
    && (forall w :: w in s.workers && s.workers[w].Held? ==> s.workers[w].task.thread in {-1, w})
    && (forall w :: w in s.workers && s.workers[w].Running? ==> s.workers[w].thread in {-1, w})
  }

  ghost function Busy(s: Rt): set<int> { set w | w in s.workers && s.workers[w] != Free }

  ghost predicate RtInv(s: Rt)
  {
    && Unique(s) && Execution(s) && (forall f :: FiberOk(s, f)) && HeldAsleep(s)
    && (forall w :: KeepOk(s, w)) && OwnKeeps(s) && (forall c :: CallbackOk(s, c)) && OwnHosts(s) && Pinned(s)
    && s.active == |Busy(s)|
    && IoEvents.Inv(s.io)
  }
}
