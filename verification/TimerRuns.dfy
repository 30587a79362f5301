/** Whole runs of the timer machine: what holds after any sequence of operations. */
module TimerRuns {
  import opened TimerSet
  import opened TimerMachine

  datatype Op =
    | OpAdd(a: nat, ms: nat, cb: nat, recurring: bool, now: nat)
    | OpNext(now: nat)
    | OpExpire(now: nat, probe: nat)
    | OpCancel(a: nat)
    | OpRefresh(a: nat, now: nat)
    | OpReset(a: nat, ms: nat, fromNow: bool, now: nat)

  /** The operation is about existing timers (a new address for addTimer). */
  predicate Sensible(s: State, op: Op)
  {
    match op
    case OpAdd(a, _, _, _, _) => a !in s.pool
    case OpCancel(a) => a in s.pool
    case OpRefresh(a, _) => a in s.pool
    case OpReset(a, _, _, _) => a in s.pool
    case _ => true
  }

  /** ... and it does not give a second timer the deadline zero, to which sums can wrap. */
  ghost predicate Legal(s: State, op: Op)
    requires Known(s)
  {
    Sensible(s, op) &&
    match op
    case OpAdd(a, ms, _, _, now) => !(Deadline(now, ms) == 0 && OtherZero(s, a))
    case OpNext(_) => true
    case OpExpire(now, probe) => !TwoZeros(s, Expire(s, now, probe).1, now)
    case OpCancel(a) => true
    case OpRefresh(a, now) => !(a in s.timers && Deadline(now, s.pool[a].ms) == 0 && OtherZero(s, a))
    case OpReset(a, ms, fromNow, now) =>
      !(ResetMoves(s.pool[a], ms, fromNow) && ResetDeadline(s.pool[a], ms, fromNow, now) == 0 && OtherZero(s, a))
  }

  ghost function Step(s: State, op: Op): (t: State)
    requires Known(s) && Sensible(s, op)
    ensures Known(t)
  {
    match op
    case OpAdd(a, ms, cb, recurring, now) => Add(s, a, ms, cb, recurring, now).0
    case OpNext(now) => Next(s, now).0
    case OpExpire(now, probe) => Expire(s, now, probe).0
    case OpCancel(a) => if Cancel(s, a).Some? then Cancel(s, a).value.0 else s
    case OpRefresh(a, now) => Refresh(s, a, now).0
    case OpReset(a, ms, fromNow, now) => Reset(s, a, ms, fromNow, now).0
  }

  /** The timers whose callbacks the operation lists. */
  ghost function Listed(s: State, op: Op): seq<nat>
    requires Known(s)
  {
    if op.OpExpire? then Expire(s, op.now, op.probe).1 else []
  }

  ghost predicate Runs(s: State, ops: seq<Op>)
    requires Known(s)
    decreases |ops|
  {
    ops == [] || (Sensible(s, ops[0]) && Legal(s, ops[0]) && Runs(Step(s, ops[0]), ops[1..]))
  }

  ghost function Exec(s: State, ops: seq<Op>): State
    requires Known(s) && Runs(s, ops)
    decreases |ops|
  {
    if ops == [] then s else Exec(Step(s, ops[0]), ops[1..])
  }

  ghost function ListedAll(s: State, ops: seq<Op>): seq<nat>
    requires Known(s) && Runs(s, ops)
    decreases |ops|
  {
    if ops == [] then [] else Listed(s, ops[0]) + ListedAll(Step(s, ops[0]), ops[1..])
  }

  /** An operation keeps the invariant exactly when it does not make a second zero deadline. */
  lemma StepExact(s: State, op: Op)
    requires Inv(s) && Sensible(s, op)
    ensures Inv(Step(s, op)) <==> Legal(s, op)
  {
    hide Inv, Add, Next, Expire, Cancel, Refresh, Reset, Deadline, ResetDeadline, OtherZero, TwoZeros;
    KnownOf(s);
    match op
    case OpAdd(a, ms, cb, recurring, now) => AddKeeps(s, a, ms, cb, recurring, now);
    case OpNext(now) => NextKeeps(s, now);
    case OpExpire(now, probe) => ExpireKeeps(s, now, probe);
    case OpCancel(a) => CancelKeeps(s, a);
    case OpRefresh(a, now) => InvFacts(s, a); RefreshKeeps(s, a, now);
    case OpReset(a, ms, fromNow, now) => ResetKeeps(s, a, ms, fromNow, now);
  }

  lemma StepKeeps(s: State, op: Op)
    requires Inv(s) && Legal(s, op)
    ensures Inv(Step(s, op))
    ensures forall a :: a in s.pool && s.pool[a].cb.None? ==>
              a in Step(s, op).pool && Step(s, op).pool[a].cb.None? && a !in Listed(s, op)
  {
    hide Inv, Add, Next, Expire, Cancel, Refresh, Reset, Deadline, ResetDeadline, OtherZero, TwoZeros;
    StepExact(s, op);
    KnownOf(s);
    match op
    case OpAdd(a, ms, cb, recurring, now) => AddFrame(s, op);
    case OpNext(now) => NextKeeps(s, now);
    case OpExpire(now, probe) => ExpireFrame(s, now, probe);
    case OpCancel(a) => CancelFrame(s, a);
    case OpRefresh(a, now) => RefreshFrame(s, a, now);
    case OpReset(a, ms, fromNow, now) => ResetFrame(s, a, ms, fromNow, now);
  }

  lemma AddFrame(s: State, op: Op)
    requires Known(s) && op.OpAdd? && Legal(s, op)
    ensures forall b :: b in s.pool ==> b in Step(s, op).pool && Step(s, op).pool[b] == s.pool[b]
  {
  }

  lemma NextKeeps(s: State, now: nat)
    requires Inv(s)
    ensures Inv(Next(s, now).0) && Next(s, now).0.pool == s.pool
  {
    SameSetSameInv(s, Next(s, now).0);
  }

  lemma CancelFrame(s: State, a: nat)
    requires Inv(s) && a in s.pool
    ensures Cancel(s, a).Some? ==>
              forall b :: b in s.pool && s.pool[b].cb.None? ==>
                b in Cancel(s, a).value.0.pool && Cancel(s, a).value.0.pool[b].cb.None?
  {
  }

  lemma RefreshFrame(s: State, a: nat, now: nat)
    requires Inv(s) && a in s.pool
    ensures forall b :: b in s.pool && s.pool[b].cb.None? ==>
              b in Refresh(s, a, now).0.pool && Refresh(s, a, now).0.pool[b].cb.None?
  {
  }

  lemma ResetFrame(s: State, a: nat, ms: nat, fromNow: bool, now: nat)
    requires Inv(s) && a in s.pool
    ensures forall b :: b in s.pool && s.pool[b].cb.None? ==>
              b in Reset(s, a, ms, fromNow, now).0.pool && Reset(s, a, ms, fromNow, now).0.pool[b].cb.None?
  {
  }

  lemma ExpireFrame(s: State, now: nat, probe: nat)
    requires Inv(s)
    ensures forall a :: a in s.pool && s.pool[a].cb.None? ==>
              && a !in Expire(s, now, probe).1
              && a in Expire(s, now, probe).0.pool && Expire(s, now, probe).0.pool[a].cb.None?
  {
    hide Keys, Rearm, DueCount, Deadline;
    ExpireKeeps(s, now, probe);
    assert forall a :: a in Expire(s, now, probe).1 ==> a in s.timers;
  }

  /** Over every run: the set stays ordered by current keys and live means in the set. */
  lemma {:induction false} RunKeeps(s: State, ops: seq<Op>)
    requires Inv(s) && Runs(s, ops)
    ensures Inv(Exec(s, ops))
    decreases |ops|
  {
    hide Inv, Legal, Step;
    KnownOf(s);
    if ops != [] {
      StepKeeps(s, ops[0]);
      RunKeeps(Step(s, ops[0]), ops[1..]);
    }
  }

  lemma KnownOf(s: State)
    requires Inv(s)
    ensures Known(s)
  {
  }

  lemma {:induction false} DeadStaysDead(s: State, a: nat, ops: seq<Op>)
    requires Inv(s) && Runs(s, ops) && a in s.pool && s.pool[a].cb.None?
    ensures a !in ListedAll(s, ops)
    ensures a in Exec(s, ops).pool && Exec(s, ops).pool[a].cb.None?
    decreases |ops|
  {
    hide Inv, Legal, Step, Listed;
    KnownOf(s);
    if ops != [] {
      StepKeeps(s, ops[0]);
      DeadStaysDead(Step(s, ops[0]), a, ops[1..]);
    }
  }

  /** A timer that was cancelled with success is never listed again, in any continuation. */
  lemma CancelledNeverListed(s: State, a: nat, ops: seq<Op>)
    requires Inv(s) && a in s.pool && s.pool[a].cb.Some?
    ensures Cancel(s, a).Some? && Cancel(s, a).value.1
    ensures Runs(Cancel(s, a).value.0, ops) ==> a !in ListedAll(Cancel(s, a).value.0, ops)
  {
    CancelKeeps(s, a);
    CancelFrame(s, a);
    var t := Cancel(s, a).value.0;
    if Runs(t, ops) {
      DeadStaysDead(t, a, ops);
    }
  }

  /** Why zero deadlines are excluded: of two timers whose deadlines wrap to zero the second is not stored, and
      cancelling it removes the first, which stays live but can never expire. */
  lemma ZeroDeadlinesCollide()
    ensures var s := State([], map[], false, 0);
            var t := Add(Add(s, 1, WORD - 5, 10, false, 5).0, 2, WORD - 5, 20, false, 5).0;
            && t.timers == [1] && t.pool[2].cb == Some(20) && !Inv(t)
            && Cancel(t, 2).Some? && Cancel(t, 2).value.1
            && Cancel(t, 2).value.0.timers == [] && Cancel(t, 2).value.0.pool[1].cb == Some(10)
  {
    var s := State([], map[], false, 0);
    assert Deadline(5, WORD - 5) == 0;
    var u := Add(s, 1, WORD - 5, 10, false, 5).0;
    assert u.timers == [1];
    var t := Add(u, 2, WORD - 5, 20, false, 5).0;
    assert t.timers == [1];
  }
}
