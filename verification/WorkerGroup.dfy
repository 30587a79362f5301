/** WorkerGroup of bobliew/worker.cc: a batch barrier on a FiberSemaphore, as a transition system. A wait may park its
    fiber, so schedule, each round of the loop in waitAll, and the parts of doWork are separate steps. */
module WorkerGroups {
  import S = Semaphores

  /** Where a callback is: its schedule() is parked in wait; it has a permit; cb() runs; cb() returned; the permit was
      given back; or cb() threw, so that notify is skipped. */
  datatype Job = Asking | Admitted | Running | Returned | Released | Thrown

  /** early holds the jobs there were when waitAll began, got the permits waitAll has collected. */
  datatype Group = Group(batch: nat, sem: S.Sem, finish: bool, jobs: map<nat, Job>, closer: set<nat>, got: nat, early: set<nat>)

  predicate Holds(j: Job) { j in {Admitted, Running, Returned, Thrown} }

  ghost function Holding(g: Group): set<nat> { set r | r in g.jobs && Holds(g.jobs[r]) }

  ghost function InFlight(g: Group): set<nat> { set r | r in g.jobs && g.jobs[r] in {Admitted, Running, Returned} }

  // ---- the steps ----

  /** WorkerGroup::schedule by request r. */
  function Schedule(g: Group, r: nat): Group
  {
    var (sem, ok) := S.Wait(g.sem, r);
    g.(sem := sem, jobs := g.jobs[r := if ok then Admitted else Asking])
  }

  /** The permit goes to the request that was woken: a parked schedule(), or the loop of waitAll. */
  function Grant(g: Group, woken: seq<nat>): Group
  {
    if woken == [] then g
    else if woken[0] in g.jobs then g.(jobs := g.jobs[woken[0] := Admitted])
    else g.(got := g.got + 1)
  }

  /** The end of doWork. */
  function GiveBack(g: Group, r: nat): Group
  {
    var (sem, woken) := S.Notify(g.sem);
    Grant(g.(sem := sem, jobs := g.jobs[r := Released]), woken)
  }

  /** waitAll up to its loop. */
  function WaitAll(g: Group, z: nat): Group
  {
    if g.finish then g else g.(finish := true, closer := {z}, early := g.jobs.Keys)
  }

  /** One round of the loop. */
  function Collect(g: Group, z: nat): Group
  {
    var (sem, ok) := S.Wait(g.sem, z);
    g.(sem := sem, got := if ok then g.got + 1 else g.got)
  }

  datatype Step = DoSchedule(r: nat) | DoStart(r: nat) | DoReturn(r: nat) | DoThrow(r: nat) | DoGiveBack(r: nat)
                | DoWaitAll(z: nat) | DoCollect(z: nat)

  predicate Is(g: Group, r: nat, j: Job) { r in g.jobs && g.jobs[r] == j }

  predicate Enabled(g: Group, step: Step)
  {
    match step
    case DoSchedule(r) => r !in g.jobs && r !in g.closer
    case DoStart(r) => Is(g, r, Admitted)
    case DoReturn(r) => Is(g, r, Running)
    case DoThrow(r) => Is(g, r, Running)
    case DoGiveBack(r) => Is(g, r, Returned)
    case DoWaitAll(z) => z !in g.jobs
    case DoCollect(z) => z in g.closer && z !in g.sem.waiters && g.got < g.batch
  }

  function Next(g: Group, step: Step): Group
  {
    match step
    case DoSchedule(r) => Schedule(g, r)
    case DoStart(r) => g.(jobs := g.jobs[r := Running])
    case DoReturn(r) => g.(jobs := g.jobs[r := Returned])
    case DoThrow(r) => g.(jobs := g.jobs[r := Thrown])
    case DoGiveBack(r) => GiveBack(g, r)
    case DoWaitAll(z) => WaitAll(g, z)
    case DoCollect(z) => Collect(g, z)
  }

  // ---- the invariant ----

  ghost predicate Lined(ws: seq<nat>) { forall i, j :: 0 <= i < j < |ws| ==> ws[i] != ws[j] }

  ghost predicate Inv(g: Group)
  {
    // every permit is in the semaphore, with a job, or with waitAll
    && g.batch == g.sem.count + |Holding(g)| + g.got
    && (g.sem.count > 0 ==> g.sem.waiters == [])
    // who is parked
    && Lined(g.sem.waiters)
    && (forall r :: Is(g, r, Asking) ==> r in g.sem.waiters)
    && (forall r :: r in g.sem.waiters ==> Is(g, r, Asking) || (r in g.closer && g.got < g.batch))
    && (forall z :: z in g.closer ==> z !in g.jobs) && |g.closer| <= 1 && (g.finish <==> g.closer != {})
    && (!g.finish ==> g.got == 0 && g.early == {})
    // whoever asked before waitAll is served before it
    && (g.got > 0 ==> forall r :: r in g.early ==> !Is(g, r, Asking))
    && (forall i, j :: 0 <= i < j < |g.sem.waiters| && g.sem.waiters[i] in g.closer ==> g.sem.waiters[j] !in g.early)
    && g.early <= g.jobs.Keys
  }

  lemma HoldingChange(g: Group, t: Group, r: nat)
    requires r in t.jobs && t.jobs == g.jobs[r := t.jobs[r]]
    ensures |Holding(t)| - |Holding(g)| ==
            (if Holds(t.jobs[r]) then 1 else 0) - (if r in g.jobs && Holds(g.jobs[r]) then 1 else 0)
  {
    var rest := Holding(g) - {r};
    assert Holding(g) == if r in g.jobs && Holds(g.jobs[r]) then rest + {r} else rest;
    assert Holding(t) == if Holds(t.jobs[r]) then rest + {r} else rest;
  }

  lemma ScheduleKeeps(g: Group, r: nat)
    requires Inv(g) && Enabled(g, DoSchedule(r))
    ensures Inv(Schedule(g, r))
  {
    HoldingChange(g, Schedule(g, r), r);
    assert r !in g.sem.waiters;
  }

  lemma MoveKeeps(g: Group, r: nat, j: Job)
    requires Inv(g) && r in g.jobs && Holds(g.jobs[r]) && Holds(j)
    ensures Inv(g.(jobs := g.jobs[r := j]))
  {
    HoldingChange(g, g.(jobs := g.jobs[r := j]), r);
  }

  /** A permit is free: it is stored, or goes to the first in line. */
  lemma GiveBackKeeps(g: Group, r: nat)
    requires Inv(g) && Enabled(g, DoGiveBack(r))
    ensures Inv(GiveBack(g, r))
  {
    if g.sem.waiters == [] {
      HoldingChange(g, GiveBack(g, r), r);
    } else {
      assert g.sem.waiters[0] in g.sem.waiters;
      if g.sem.waiters[0] in g.jobs { ToJob(g, r); } else { ToCloser(g, r); }
    }
  }

  lemma ToJob(g: Group, r: nat)
    requires Inv(g) && Enabled(g, DoGiveBack(r)) && g.sem.waiters != [] && Is(g, g.sem.waiters[0], Asking)
    ensures Inv(GiveBack(g, r))
  {
    var u := g.(sem := S.Notify(g.sem).0, jobs := g.jobs[r := Released]);
    HoldingChange(g, u, r);
    HoldingChange(u, GiveBack(g, r), g.sem.waiters[0]);
    Shortened(g.sem.waiters);
  }

  lemma ToCloser(g: Group, r: nat)
    requires Inv(g) && Enabled(g, DoGiveBack(r)) && g.sem.waiters != [] && g.sem.waiters[0] !in g.jobs
    ensures Inv(GiveBack(g, r))
  {
    HoldingChange(g, GiveBack(g, r), r);
    Shortened(g.sem.waiters);
    FirstIsCloser(g);
    OnlyCloser(g, g.sem.waiters[0]);
  }

  lemma Shortened(ws: seq<nat>)
    requires Lined(ws) && ws != []
    ensures Lined(ws[1..]) && forall x :: x in ws[1..] <==> x in ws && x != ws[0]
  {
  }

  /** waitAll is first in line only when nobody who asked before it is still parked. */
  lemma FirstIsCloser(g: Group)
    requires Inv(g) && g.sem.waiters != [] && g.sem.waiters[0] !in g.jobs
    ensures g.sem.waiters[0] in g.closer && forall r :: r in g.early ==> !Is(g, r, Asking)
  {
    assert g.sem.waiters[0] in g.sem.waiters;
    assert forall j :: 0 <= j < |g.sem.waiters| ==> g.sem.waiters[j] !in g.early;
  }

  lemma WaitAllKeeps(g: Group, z: nat)
    requires Inv(g) && Enabled(g, DoWaitAll(z))
    ensures Inv(WaitAll(g, z))
  {
    var t := WaitAll(g, z);
    assert Holding(t) == Holding(g);
    if !g.finish {
      forall i | 0 <= i < |g.sem.waiters| ensures g.sem.waiters[i] !in t.closer {
        assert g.sem.waiters[i] in g.sem.waiters;
      }
    }
  }

  lemma CollectKeeps(g: Group, z: nat)
    requires Inv(g) && Enabled(g, DoCollect(z))
    ensures Inv(Collect(g, z))
  {
    var t := Collect(g, z);
    assert Holding(t) == Holding(g);
    OnlyCloser(g, z);
  }

  lemma OnlyCloser(g: Group, z: nat)
    requires |g.closer| <= 1 && z in g.closer
    ensures g.closer == {z}
  {
    if y :| y in g.closer && y != z {
      assert {y, z} <= g.closer && |{y, z}| == 2;
      Smaller({y, z}, g.closer);
    }
  }

  lemma {:induction false} Smaller(a: set<nat>, b: set<nat>)
    requires a <= b
    ensures |a| <= |b|
  {
    if a != {} {
      var x :| x in a;
      Smaller(a - {x}, b - {x});
    }
  }

  lemma StepKeeps(g: Group, step: Step)
    requires Inv(g) && Enabled(g, step)
    ensures Inv(Next(g, step))
  {
    hide Inv, Schedule, GiveBack, WaitAll, Collect;
    match step
    case DoSchedule(r) => ScheduleKeeps(g, r);
    case DoStart(r) => MoveKeeps(g, r, Running);
    case DoReturn(r) => MoveKeeps(g, r, Returned);
    case DoThrow(r) => MoveKeeps(g, r, Thrown);
    case DoGiveBack(r) => GiveBackKeeps(g, r);
    case DoWaitAll(z) => WaitAllKeeps(g, z);
    case DoCollect(z) => CollectKeeps(g, z);
  }

  // ---- runs ----

  function Create(batch: nat): Group { Group(batch, S.Sem(batch, []), false, map[], {}, 0, {}) }

  ghost predicate Run(g: Group, steps: seq<Step>)
    decreases |steps|
  {
    steps == [] || (Enabled(g, steps[0]) && Run(Next(g, steps[0]), steps[1..]))
  }

  ghost function Exec(g: Group, steps: seq<Step>): Group
    decreases |steps|
  {
    if steps == [] then g else Exec(Next(g, steps[0]), steps[1..])
  }

  lemma {:induction false} RunKeeps(g: Group, steps: seq<Step>)
    requires Inv(g) && Run(g, steps)
    ensures Inv(Exec(g, steps)) && Exec(g, steps).batch == g.batch
    decreases |steps|
  {
    hide Inv;
    if steps != [] {
      StepKeeps(g, steps[0]);
      RunKeeps(Next(g, steps[0]), steps[1..]);
    }
  }

  lemma Reachable(batch: nat, steps: seq<Step>)
    requires Run(Create(batch), steps)
    ensures Inv(Exec(Create(batch), steps)) && Exec(Create(batch), steps).batch == batch
  {
    assert Holding(Create(batch)) == {};
    RunKeeps(Create(batch), steps);
  }

  // ---- the theorems ----

  /** In every run at most batch callbacks have a permit at a time. */
  lemma BoundedInFlight(batch: nat, steps: seq<Step>)
    requires Run(Create(batch), steps)
    ensures |InFlight(Exec(Create(batch), steps))| <= batch
  {
    Reachable(batch, steps);
    var g := Exec(Create(batch), steps);
    Smaller(InFlight(g), Holding(g));
  }

  /** waitAll has returned from its loop. */
  predicate Closed(g: Group) { g.finish && g.got == g.batch }

  /** When the first waitAll returns, every callback that had a permit has finished and none threw; and if the batch size
      is positive, every callback scheduled before waitAll began is among them. */
  lemma WaitAllIsBarrier(batch: nat, steps: seq<Step>)
    requires Run(Create(batch), steps) && Closed(Exec(Create(batch), steps))
    ensures var g := Exec(Create(batch), steps);
            && (forall r :: r in g.jobs ==> g.jobs[r] in {Asking, Released})
            && (batch > 0 ==> forall r :: r in g.early ==> r in g.jobs && g.jobs[r] == Released)
  {
    Reachable(batch, steps);
    var g := Exec(Create(batch), steps);
    forall r | r in g.jobs ensures g.jobs[r] in {Asking, Released} {
      assert Holding(g) == {};
      assert r !in Holding(g);
      assert g.jobs[r] in {Asking, Released, Admitted, Running, Returned, Thrown};
    }
  }

  /** Stated over the run itself: whatever was scheduled before the step in which waitAll began has finished when it
      returns. */
  lemma EarlierJobsFinished(batch: nat, before: seq<Step>, z: nat, after: seq<Step>)
    requires batch > 0 && Run(Create(batch), before + [DoWaitAll(z)] + after) && Closed(Exec(Create(batch), before + [DoWaitAll(z)] + after))
    requires !Exec(Create(batch), before).finish
    ensures var g, t := Exec(Create(batch), before), Exec(Create(batch), before + [DoWaitAll(z)] + after);
            forall r :: r in g.jobs ==> r in t.jobs && t.jobs[r] == Released
  {
    var g := Exec(Create(batch), before);
    var steps := before + [DoWaitAll(z)] + after;
    assert steps == before + ([DoWaitAll(z)] + after);
    RunSplit(Create(batch), before, [DoWaitAll(z)] + after);
    assert ([DoWaitAll(z)] + after)[1..] == after;
    EarlyStays(WaitAll(g, z), after);
    WaitAllIsBarrier(batch, steps);
  }

  lemma {:induction false} RunSplit(g: Group, a: seq<Step>, b: seq<Step>)
    requires Run(g, a + b)
    ensures Run(g, a) && Run(Exec(g, a), b) && Exec(g, a + b) == Exec(Exec(g, a), b)
    decreases |a|
  {
    hide Enabled, Next;
    if a == [] {
      assert a + b == b;
    } else {
      assert (a + b)[1..] == a[1..] + b;
      RunSplit(Next(g, a[0]), a[1..], b);
    }
  }

  lemma {:induction false} EarlyStays(g: Group, steps: seq<Step>)
    requires g.finish && Run(g, steps)
    ensures Exec(g, steps).finish && Exec(g, steps).early == g.early
    decreases |steps|
  {
    if steps != [] { EarlyStays(Next(g, steps[0]), steps[1..]); }
  }

  /** A callback that throws keeps its permit, so that waitAll never returns after it. */
  lemma {:induction false} ThrownStays(g: Group, steps: seq<Step>, r: nat)
    requires Inv(g) && Run(g, steps) && Is(g, r, Thrown)
    ensures Is(Exec(g, steps), r, Thrown) && !Closed(Exec(g, steps))
    decreases |steps|
  {
    if steps == [] {
      assert r in Holding(g);
    } else {
      ThrownStep(g, steps[0], r);
      StepKeeps(g, steps[0]);
      ThrownStays(Next(g, steps[0]), steps[1..], r);
    }
  }

  lemma ThrownStep(g: Group, step: Step, r: nat)
    requires Inv(g) && Enabled(g, step) && Is(g, r, Thrown)
    ensures Is(Next(g, step), r, Thrown)
  {
    if step.DoGiveBack? && g.sem.waiters != [] {
      assert g.sem.waiters[0] in g.sem.waiters;
    }
  }

  // ---- when waitAll can return ----

  ghost predicate NoneThrown(g: Group) { forall r :: !Is(g, r, Thrown) }

  ghost function Unfinished(g: Group): set<nat> { set r | r in g.jobs && g.jobs[r] != Released }

  /** Some continuation lets waitAll return. */
  ghost predicate CanClose(g: Group) { exists steps :: Run(g, steps) && Closed(Exec(g, steps)) }

  lemma CanCloseVia(g: Group, step: Step)
    requires Enabled(g, step) && CanClose(Next(g, step))
    ensures CanClose(g)
  {
    var rest :| Run(Next(g, step), rest) && Closed(Exec(Next(g, step), rest));
    var steps := [step] + rest;
    assert steps[1..] == rest;
    assert Run(g, steps) && Closed(Exec(g, steps));
  }

  /** A callback with a permit can run to its end, and then one callback less is unfinished. */
  lemma {:induction false} Serve(g: Group, r: nat)
    requires Inv(g) && g.finish && NoneThrown(g) && r in Holding(g)
    requires forall t :: Inv(t) && t.finish && NoneThrown(t) && |Unfinished(t)| < |Unfinished(g)| ==> CanClose(t)
    ensures CanClose(g)
    decreases g.jobs[r] == Admitted, g.jobs[r] == Running
  {
    hide Inv, CanClose;
    assert !Is(g, r, Thrown);
    var step := if g.jobs[r] == Admitted then DoStart(r) else if g.jobs[r] == Running then DoReturn(r) else DoGiveBack(r);
    var t := Next(g, step);
    StepKeeps(g, step);
    if step.DoGiveBack? {
      GivenBack(g, r);
    } else {
      assert Unfinished(t) == Unfinished(g);
      assert forall q :: Is(t, q, Thrown) ==> Is(g, q, Thrown);
      Serve(t, r);
    }
    CanCloseVia(g, step);
  }

  lemma GivenBack(g: Group, r: nat)
    requires Inv(g) && Enabled(g, DoGiveBack(r)) && NoneThrown(g)
    ensures var t := GiveBack(g, r); t.finish == g.finish && NoneThrown(t) && |Unfinished(t)| < |Unfinished(g)|
  {
    var t := GiveBack(g, r);
    if g.sem.waiters != [] { assert g.sem.waiters[0] in g.sem.waiters; }
    assert Unfinished(t) == Unfinished(g) - {r} && r in Unfinished(g);
    assert forall q :: Is(t, q, Thrown) ==> Is(g, q, Thrown);
  }

  lemma {:induction false} UnthrownCanClose(g: Group)
    requires Inv(g) && g.finish && NoneThrown(g)
    ensures CanClose(g)
    decreases |Unfinished(g)|, g.batch - g.got
  {
    hide CanClose, NoneThrown;
    if Closed(g) {
      AlreadyClosed(g);
    } else if Holding(g) != {} {
      var r :| r in Holding(g);
      forall t | Inv(t) && t.finish && NoneThrown(t) && |Unfinished(t)| < |Unfinished(g)| ensures CanClose(t) {
        UnthrownCanClose(t);
      }
      Serve(g, r);
    } else {
      var z :| z in g.closer;
      var t := Next(g, DoCollect(z));
      StepKeeps(g, DoCollect(z));
      assert Unfinished(t) == Unfinished(g);
      SameJobs(g, t);
      UnthrownCanClose(t);
      CanCloseVia(g, DoCollect(z));
    }
  }

  lemma AlreadyClosed(g: Group)
    requires Closed(g)
    ensures CanClose(g)
  {
    assert Run(g, []) && Closed(Exec(g, []));
  }

  lemma SameJobs(g: Group, t: Group)
    requires t.jobs == g.jobs && NoneThrown(g)
    ensures NoneThrown(t)
  {
    assert forall q :: Is(t, q, Thrown) ==> Is(g, q, Thrown);
  }

  /** Once waitAll has begun, it can still return exactly when no callback has thrown. */
  lemma CanCloseExact(g: Group)
    requires Inv(g) && g.finish
    ensures CanClose(g) <==> NoneThrown(g)
  {
    if NoneThrown(g) {
      UnthrownCanClose(g);
    } else {
      var r :| Is(g, r, Thrown);
      forall steps | Run(g, steps) ensures !Closed(Exec(g, steps)) {
        ThrownStays(g, steps, r);
      }
    }
  }

  /** ... over every run: from any reachable state in which waitAll has begun. */
  lemma WaitAllReturnsExact(batch: nat, steps: seq<Step>)
    requires Run(Create(batch), steps) && Exec(Create(batch), steps).finish
    ensures var g := Exec(Create(batch), steps);
            CanClose(g) <==> NoneThrown(g)
  {
    hide Inv, CanClose, NoneThrown;
    Reachable(batch, steps);
    CanCloseExact(Exec(Create(batch), steps));
  }

  /** A run that ends so: one callback, which throws, and then waitAll. */
  lemma ThrowHappens()
    ensures var steps := [DoSchedule(0), DoStart(0), DoThrow(0), DoWaitAll(1)];
            && Run(Create(1), steps)
            && var g := Exec(Create(1), steps);
               Inv(g) && g.finish && Is(g, 0, Thrown) && forall more :: Run(g, more) ==> !Closed(Exec(g, more))
  {
    var steps := [DoSchedule(0), DoStart(0), DoThrow(0), DoWaitAll(1)];
    var g0 := Create(1);
    var g1 := Next(g0, steps[0]);
    var g2 := Next(g1, steps[1]);
    var g3 := Next(g2, steps[2]);
    var g4 := Next(g3, steps[3]);
    assert steps[1..] == [DoStart(0), DoThrow(0), DoWaitAll(1)] && steps[1..][1..] == [DoThrow(0), DoWaitAll(1)];
    assert steps[1..][1..][1..] == [DoWaitAll(1)] && [DoWaitAll(1)][1..] == [];
    assert Run(g4, []) && Exec(g4, []) == g4;
    assert Run(g3, [DoWaitAll(1)]) && Exec(g3, [DoWaitAll(1)]) == g4;
    assert Run(g2, steps[1..][1..]) && Exec(g2, steps[1..][1..]) == g4;
    assert Run(g1, steps[1..]) && Exec(g1, steps[1..]) == g4;
    Reachable(1, steps);
    forall more | Run(g4, more) ensures !Closed(Exec(g4, more)) {
      ThrownStays(g4, more, 0);
    }
  }

  /** After waitAll returned, whoever asks for a permit is parked for ever. */
  lemma {:induction false} ClosedForever(g: Group, steps: seq<Step>)
    requires Inv(g) && Run(g, steps) && Closed(g)
    ensures Closed(Exec(g, steps)) && forall r :: Is(g, r, Asking) ==> Is(Exec(g, steps), r, Asking)
    decreases |steps|
  {
    if steps != [] {
      ClosedStep(g, steps[0]);
      StepKeeps(g, steps[0]);
      ClosedForever(Next(g, steps[0]), steps[1..]);
    }
  }

  lemma ClosedStep(g: Group, step: Step)
    requires Inv(g) && Enabled(g, step) && Closed(g)
    ensures Closed(Next(g, step)) && forall r :: Is(g, r, Asking) ==> Is(Next(g, step), r, Asking)
  {
    assert Holding(g) == {};
    assert forall r :: r in g.jobs && Holds(g.jobs[r]) ==> r in Holding(g);
  }

  // ---- the class ----

  /** The loop of waitAll up to where it parks its fiber or ends. */
  function CollectLoop(g: Group, z: nat): Group
    decreases g.batch - g.got, z !in g.sem.waiters
  {
    if z in g.sem.waiters || g.got >= g.batch then g else CollectLoop(Collect(g, z), z)
  }

  /** The loop is a run of single waits. */
  lemma {:induction false} LoopIsRun(g: Group, z: nat) returns (steps: seq<Step>)
    requires z in g.closer
    ensures Run(g, steps) && Exec(g, steps) == CollectLoop(g, z) && forall s :: s in steps ==> s == DoCollect(z)
    ensures var t := CollectLoop(g, z); z in t.sem.waiters || t.got >= t.batch
    decreases g.batch - g.got, z !in g.sem.waiters
  {
    if z in g.sem.waiters || g.got >= g.batch {
      steps := [];
    } else {
      var rest := LoopIsRun(Collect(g, z), z);
      steps := [DoCollect(z)] + rest;
      assert steps[1..] == rest;
    }
  }

  class WorkerGroup {
    const batchSize: nat
    const sem: S.FiberSemaphore
    var finish: bool
    var collected: nat
    /** 1 while the fiber of waitAll has been woken and has not gone on, else 0. */
    ghost var due: nat

    constructor (batch: nat)
      ensures Agrees(Create(batch)) && fresh(sem)
    {
      batchSize := batch;
      sem := new S.FiberSemaphore(batch);
      finish, collected, due := false, 0, 0;
    }

    /** This object is the group g, jobs aside; the loop counter lags behind while waitAll has been woken only. */
    ghost predicate Agrees(g: Group)
      reads this, sem
    {
      batchSize == g.batch && sem.Abs() == g.sem && finish == g.finish && collected + due == g.got
    }

    /** schedule by fiber r up to where it parks or hands the callback to the scheduler. */
    method ScheduleJob(r: nat, ghost g: Group) returns (admitted: bool)
      requires Agrees(g)
      modifies sem
      ensures Agrees(Schedule(g, r)) && admitted == (Schedule(g, r).jobs[r] == Admitted)
    {
      admitted := sem.WaitHere(r);
    }

    /** The end of doWork for callback r, which returned: the permit goes on, and the result is who is woken, if any. */
    method EndWork(r: nat, ghost g: Group) returns (woken: seq<nat>)
      requires Agrees(g) && Is(g, r, Returned)
      modifies sem, this`due
      ensures Agrees(GiveBack(g, r)) && |woken| <= 1
      ensures due == old(due) + if woken != [] && woken[0] !in g.jobs then 1 else 0
    {
      woken := sem.NotifyOne();
      due := due + if woken != [] && woken[0] !in g.jobs then 1 else 0;
    }

    /** waitAll by fiber z up to where it parks or returns. */
    method WaitForAll(z: nat, ghost g: Group) returns (parked: bool)
      requires Agrees(g) && z !in g.sem.waiters && due == 0
      modifies this, sem
      ensures Agrees(if g.finish then g else CollectLoop(WaitAll(g, z), z)) && due == 0
      ensures parked <==> !g.finish && z in sem.waiters
    {
      parked := false;
      if !finish {
        finish := true;
        parked := Loop(z, WaitAll(g, z));
      }
    }

    /** The parked fiber of waitAll was woken with a permit: it counts the permit and goes on with the loop. */
    method WakeUp(z: nat, ghost g: Group) returns (parked: bool)
      requires Agrees(g) && z !in g.sem.waiters && due == 1
      modifies this`collected, this`due, sem
      ensures Agrees(CollectLoop(g, z)) && due == 0 && (parked <==> z in sem.waiters)
    {
      collected, due := collected + 1, 0;
      parked := Loop(z, g);
    }

    /** The loop, from its first round or from where its fiber was woken. */
    method Loop(z: nat, ghost g: Group) returns (parked: bool)
      requires Agrees(g) && z !in g.sem.waiters && due == 0
      modifies this`collected, sem
      ensures Agrees(CollectLoop(g, z)) && (parked <==> z in sem.waiters)
    {
      parked := false;
      ghost var t := g;
      while collected < batchSize && !parked
        invariant Agrees(t) && (parked <==> z in t.sem.waiters) && CollectLoop(t, z) == CollectLoop(g, z)
        decreases batchSize - collected, !parked
      {
        var ok := sem.WaitHere(z);
        t := Collect(t, z);
        if ok {
          collected := collected + 1;
        } else {
          parked := true;
        }
      }
    }
  }
}
