/** The m_tickled protocol of bobliew/timer.cc: under a non-decreasing clock no deadline earlier than the one the
    last getNextTimer reported goes without a notification. */
module TimerWatch {
  import opened TimerSet
  import opened TimerMachine
  import opened TimerRuns

  /** The machine with what an observer knows: the time, the earliest deadline at the last getNextTimer (None for an
      empty set) and whether onTimerInsertedAtFront has run since. */
  datatype Watch = Watch(s: State, clock: nat, seen: Option<nat>, notified: bool)

  /** No member of the set is due before the deadline last reported. */
  ghost predicate NotBefore(s: State, seen: Option<nat>)
    requires Known(s)
  {
    forall a :: a in s.timers ==> seen.Some? && seen.value <= s.pool[a].next
  }

  /** Every member was armed at some past time, start = next - ms. */
  ghost predicate Started(s: State, clock: nat)
    requires Known(s)
  {
    forall a :: a in s.timers ==> s.pool[a].ms < s.pool[a].next <= s.pool[a].ms + clock
  }

  ghost predicate WatchInv(w: Watch)
  {
    && Inv(w.s)
    && w.s.previousTime <= w.clock
    && Started(w.s, w.clock)
    && w.notified == w.s.tickled
    && (!w.s.tickled ==> NotBefore(w.s, w.seen))
  }

  /** The clock does not go back and sums stay below 2^64. */
  ghost predicate Timely(w: Watch, op: Op)
    requires Known(w.s)
  {
    match op
    case OpAdd(a, ms, _, _, now) => a !in w.s.pool && w.clock <= now && 0 < now && now + ms < WORD
    case OpNext(now) => w.clock <= now
    case OpExpire(now, _) =>
      w.clock <= now && 0 < now && forall a :: a in w.s.timers ==> now + w.s.pool[a].ms < WORD
    case OpCancel(a) => a in w.s.pool
    case OpRefresh(a, now) => a in w.s.pool && w.clock <= now && 0 < now && now + w.s.pool[a].ms < WORD
    case OpReset(a, ms, fromNow, now) =>
      && a in w.s.pool && w.clock <= now && 0 < now
      && (if fromNow then now + ms < WORD else w.s.pool[a].next - w.s.pool[a].ms + ms < WORD)
  }

  ghost function WatchStep(w: Watch, op: Op): Watch
    requires Known(w.s) && Timely(w, op) && Legal(w.s, op)
  {
    var t := Step(w.s, op);
    match op
    case OpAdd(a, ms, cb, recurring, now) => Watch(t, now, w.seen, w.notified || Add(w.s, a, ms, cb, recurring, now).1)
    case OpNext(now) => Watch(t, now, if w.s.timers == [] then None else Some(w.s.pool[w.s.timers[0]].next), false)
    case OpExpire(now, _) => Watch(t, now, w.seen, w.notified)
    case OpCancel(_) => w.(s := t)
    case OpRefresh(_, now) => Watch(t, now, w.seen, w.notified)
    case OpReset(a, ms, fromNow, now) => Watch(t, now, w.seen, w.notified || Reset(w.s, a, ms, fromNow, now).2)
  }

  lemma SmallDeadline(now: nat, ms: nat)
    requires now + ms < WORD
    ensures Deadline(now, ms) == now + ms
  {
  }

  /** A timely operation never computes a zero deadline. */
  lemma TimelyIsLegal(w: Watch, op: Op)
    requires WatchInv(w) && Timely(w, op)
    ensures Legal(w.s, op)
  {
    hide Deadline, Keys;
    match op
    case OpAdd(a, ms, _, _, now) => SmallDeadline(now, ms);
    case OpExpire(now, _) =>
      forall a | a in w.s.timers ensures Deadline(now, w.s.pool[a].ms) != 0 { SmallDeadline(now, w.s.pool[a].ms); }
    case OpRefresh(a, now) => SmallDeadline(now, w.s.pool[a].ms);
    case OpReset(a, ms, fromNow, now) => if a in w.s.timers { ResetSmall(w, a, ms, fromNow, now); }
    case _ =>
  }

  lemma ResetSmall(w: Watch, a: nat, ms: nat, fromNow: bool, now: nat)
    requires WatchInv(w) && Timely(w, OpReset(a, ms, fromNow, now)) && a in w.s.timers
    ensures ResetDeadline(w.s.pool[a], ms, fromNow, now)
         == (if fromNow then now else w.s.pool[a].next - w.s.pool[a].ms) + ms
  {
  }

  /** The first member has the earliest deadline. */
  lemma FirstIsEarliest(s: State)
    requires Inv(s) && s.timers != []
    ensures NotBefore(s, Some(s.pool[s.timers[0]].next))
  {
    var ks := Keys(s.timers, s.pool);
    forall a | a in s.timers ensures s.pool[s.timers[0]].next <= s.pool[a].next {
      var i :| 0 <= i < |s.timers| && s.timers[i] == a;
      assert i > 0 ==> Less(ks[0], ks[i]);
    }
  }

  /** A timer that is not inserted first is not earlier than the present first one. */
  lemma NotAtFront(s: State, a: nat, seen: Option<nat>)
    requires Ordered(s) && a in s.pool && a !in s.timers && Place(s, a) != 0 && NotBefore(s, seen)
    ensures seen.Some? && seen.value <= s.pool[a].next
  {
    var ks := Keys(s.timers, s.pool);
    assert Less(ks[0], KeyOf(s.pool, a));
    assert s.timers[0] in s.timers;
  }

  /** addTimer(val, lock) on a timer outside the set, the shared end of addTimer and reset. */
  lemma AddToSetWatched(s: State, a: nat, seen: Option<nat>, notified: bool, clock: nat)
    requires Ordered(s) && a in s.pool && a !in s.timers && s.pool[a].next != 0
    requires Started(s, clock) && s.pool[a].ms < s.pool[a].next <= s.pool[a].ms + clock
    requires notified == s.tickled && (!s.tickled ==> NotBefore(s, seen))
    ensures var (t, front) := AddToSet(s, a);
            && Started(t, clock) && (notified || front) == t.tickled && (!t.tickled ==> NotBefore(t, seen))
            && t.previousTime == s.previousTime
  {
    hide Keys, Less;
    InsertOrdered(s, a);
    if !s.tickled && Place(s, a) != 0 {
      NotAtFront(s, a, seen);
    }
  }

  lemma AddWatched(w: Watch, op: Op)
    requires WatchInv(w) && op.OpAdd? && Timely(w, op) && Legal(w.s, op)
    ensures WatchInv(WatchStep(w, op))
  {
    hide Keys, Less, Deadline;
    var x := Record(Deadline(op.now, op.ms), op.ms, op.recurring, Some(op.cb));
    SmallDeadline(op.now, op.ms);
    UpdateOrdered(w.s, op.a, x);
    AddToSetWatched(w.s.(pool := w.s.pool[op.a := x]), op.a, w.seen, w.notified, op.now);
    StepKeeps(w.s, op);
  }

  lemma ResetWatched(w: Watch, op: Op)
    requires WatchInv(w) && op.OpReset? && Timely(w, op) && Legal(w.s, op)
    ensures WatchInv(WatchStep(w, op))
  {
    hide Keys, Less, Deadline, ResetDeadline;
    var s, a := w.s, op.a;
    var x := s.pool[a];
    StepKeeps(s, op);
    if a in s.timers && !(op.ms == x.ms && !op.fromNow) {
      EraseOrdered(s, a);
      ResetSmall(w, a, op.ms, op.fromNow, op.now);
      var t := Erase(s, a);
      var y := x.(ms := op.ms, next := ResetDeadline(x, op.ms, op.fromNow, op.now));
      UpdateOrdered(t, a, y);
      AddToSetWatched(t.(pool := t.pool[a := y]), a, w.seen, w.notified, op.now);
    }
  }

  /** refresh may skip the notification: it only moves a deadline later. */
  lemma RefreshWatched(w: Watch, op: Op)
    requires WatchInv(w) && op.OpRefresh? && Timely(w, op) && Legal(w.s, op)
    ensures WatchInv(WatchStep(w, op))
  {
    hide Keys, Less, Deadline, Refresh, Reinserted, Erase, Insert;
    var s, a := w.s, op.a;
    var x := s.pool[a];
    StepKeeps(s, op);
    RefreshKeeps(s, a, op.now);
    RefreshDead(s, a, op.now);
    if a in s.timers {
      SmallDeadline(op.now, x.ms);
      var y := x.(next := Deadline(op.now, x.ms));
      assert x.next <= y.next;
      ReinsertKeeps(s, a, y);
      ReinsertedFields(s, a, y);
    }
  }

  lemma RefreshDead(s: State, a: nat, now: nat)
    requires Inv(s) && a in s.pool
    ensures a !in s.timers ==> Refresh(s, a, now).0 == s
  {
  }

  lemma ReinsertedFields(s: State, a: nat, x: Record)
    requires Inv(s) && a in s.timers && x.cb.Some?
    ensures var t := Reinserted(s, a, x);
            t.tickled == s.tickled && t.previousTime == s.previousTime && t.pool == s.pool[a := x]
  {
  }

  lemma {:induction false} DueTimersAreDue(ts: seq<nat>, pool: map<nat, Record>, now: nat, a: nat)
    requires forall i :: 0 <= i < |ts| ==> ts[i] in pool
    requires a in DueTimers(ts, pool, now)
    ensures a in ts && pool[a].next <= now
  {
    if ts != [] && !(a == ts[0] && pool[a].next <= now) {
      DueTimersAreDue(ts[1..], pool, now, a);
    }
  }

  /** Expiry may skip the notification: a re-armed timer is due no earlier than it was. */
  lemma ExpireWatched(w: Watch, op: Op)
    requires WatchInv(w) && op.OpExpire? && Timely(w, op) && Legal(w.s, op)
    ensures WatchInv(WatchStep(w, op))
  {
    hide Keys, Less, Deadline, Rearm, DueCount;
    var s := w.s;
    ExpireKeeps(s, op.now, op.probe);
    ExpireLists(s, op.now, op.probe);
    ExpireFields(s, op.now, op.probe);
    var (t, listed) := Expire(s, op.now, op.probe);
    forall a | a in t.timers
      ensures a in s.timers && t.pool[a].ms == s.pool[a].ms && s.pool[a].next <= t.pool[a].next
      ensures t.pool[a].ms < t.pool[a].next <= t.pool[a].ms + op.now
    {
      if a in listed {
        DueTimersAreDue(s.timers, s.pool, op.now, a);
        SmallDeadline(op.now, s.pool[a].ms);
      }
    }
  }

  lemma ExpireFields(s: State, now: nat, probe: nat)
    requires Inv(s)
    ensures var t := Expire(s, now, probe).0;
            t.tickled == s.tickled && (t.previousTime == now || t == s) && t.pool.Keys == s.pool.Keys
  {
    hide DueCount, Keys;
    if s.timers != [] {
      var d := DueCount(s, now, probe);
      RearmFields(s.(timers := s.timers[d..], previousTime := now), s.timers[..d], now);
    }
  }

  lemma {:induction false} RearmFields(s: State, expired: seq<nat>, now: nat)
    requires Known(s) && forall i :: 0 <= i < |expired| ==> expired[i] in s.pool
    ensures var t := Rearm(s, expired, now); t.tickled == s.tickled && t.previousTime == s.previousTime
    decreases |expired|
  {
    hide Keys;
    if expired != [] {
      RearmFields(RearmOne(s, expired[0], now), expired[1..], now);
    }
  }

  lemma CancelWatched(w: Watch, op: Op)
    requires WatchInv(w) && op.OpCancel? && Timely(w, op) && Legal(w.s, op)
    ensures WatchInv(WatchStep(w, op))
  {
    hide Keys, Less;
    StepKeeps(w.s, op);
    CancelKeeps(w.s, op.a);
  }

  /** Every timely operation keeps the protocol. */
  lemma WatchKeeps(w: Watch, op: Op)
    requires WatchInv(w) && Timely(w, op)
    ensures Legal(w.s, op) && WatchInv(WatchStep(w, op))
  {
    hide WatchInv, WatchStep, Timely, Legal;
    KnownWatched(w);
    TimelyIsLegal(w, op);
    match op
    case OpAdd(_, _, _, _, _) => AddWatched(w, op);
    case OpNext(now) => NextWatched(w, now);
    case OpExpire(_, _) => ExpireWatched(w, op);
    case OpCancel(_) => CancelWatched(w, op);
    case OpRefresh(_, _) => RefreshWatched(w, op);
    case OpReset(_, _, _, _) => ResetWatched(w, op);
  }

  lemma KnownWatched(w: Watch)
    requires WatchInv(w)
    ensures Known(w.s)
  {
  }

  lemma NextWatched(w: Watch, now: nat)
    requires WatchInv(w) && Timely(w, OpNext(now)) && Legal(w.s, OpNext(now))
    ensures WatchInv(WatchStep(w, OpNext(now)))
  {
    hide Keys, Less;
    StepKeeps(w.s, OpNext(now));
    if w.s.timers != [] {
      FirstIsEarliest(w.s);
    }
  }

  ghost predicate WatchRun(w: Watch, ops: seq<Op>)
    decreases |ops|
  {
    ops == [] ||
    (Known(w.s) && Timely(w, ops[0]) && Legal(w.s, ops[0]) && WatchRun(WatchStep(w, ops[0]), ops[1..]))
  }

  ghost function WatchExec(w: Watch, ops: seq<Op>): Watch
    requires WatchRun(w, ops)
    decreases |ops|
  {
    if ops == [] then w else WatchExec(WatchStep(w, ops[0]), ops[1..])
  }

  /** After every run from the empty manager: if some timer is due before what the last getNextTimer reported,
      then onTimerInsertedAtFront has been called since. */
  lemma NoStaleSleeper(clock: nat, ops: seq<Op>)
    requires WatchRun(Watch(State([], map[], false, 0), clock, None, false), ops)
    ensures var w := WatchExec(Watch(State([], map[], false, 0), clock, None, false), ops);
            && WatchInv(w)
            && (!NotBefore(w.s, w.seen) ==> w.notified)
  {
    RunWatched(Watch(State([], map[], false, 0), clock, None, false), ops);
  }

  lemma {:induction false} RunWatched(w: Watch, ops: seq<Op>)
    requires WatchInv(w) && WatchRun(w, ops)
    ensures WatchInv(WatchExec(w, ops))
    decreases |ops|
  {
    hide WatchInv, WatchStep, Timely, Legal;
    if ops != [] {
      WatchKeeps(w, ops[0]);
      RunWatched(WatchStep(w, ops[0]), ops[1..]);
    }
  }

  // ---- when deadlines may wrap ----

  /** The promise of the tickled flag for a sleeper that was told `seen`. */
  ghost predicate Guarded(s: State, seen: Option<nat>)
    requires Known(s)
  {
    !s.tickled ==> NotBefore(s, seen)
  }

  predicate NoEarlier(seen: Option<nat>, deadline: nat) { seen.Some? && seen.value <= deadline }

  /** Whatever the clock does: refresh, which never notifies, keeps the promise exactly when a notification is pending
      already or the new deadline is not before the one reported. */
  lemma RefreshExact(s: State, a: nat, now: nat, seen: Option<nat>)
    requires Inv(s) && Guarded(s, seen) && a in s.timers
    ensures Guarded(Refresh(s, a, now).0, seen) <==> s.tickled || NoEarlier(seen, Deadline(now, s.pool[a].ms))
  {
    hide Keys, Less, Deadline, Refresh, Erase, Insert;
    var y := s.pool[a].(next := Deadline(now, s.pool[a].ms));
    RefreshKeeps(s, a, now);
    ReinsertKeeps(s, a, y);
    ReinsertedFields(s, a, y);
    ReinsertedMember(s, a, y);
  }

  /** The moved timer is in the set again, or another one with deadline zero is. */
  lemma ReinsertedMember(s: State, a: nat, x: Record)
    requires Inv(s) && a in s.timers && x.cb.Some?
    ensures a in Reinserted(s, a, x).timers || (x.next == 0 && OtherZero(s, a))
  {
    hide Keys, Less;
    EraseOrdered(s, a);
    var t := Erase(s, a);
    UpdateOrdered(t, a, x);
    InsertOrdered(t.(pool := t.pool[a := x]), a);
  }

  /** The same for the re-arming in listExpireCb. */
  lemma ExpireExact(s: State, now: nat, probe: nat, seen: Option<nat>)
    requires Inv(s) && Guarded(s, seen) && !TwoZeros(s, Expire(s, now, probe).1, now)
    ensures Guarded(Expire(s, now, probe).0, seen) <==>
              s.tickled || forall a :: a in Expire(s, now, probe).1 && a in s.pool && s.pool[a].recurring ==>
                                       NoEarlier(seen, Deadline(now, s.pool[a].ms))
  {
    hide Keys, Less, Deadline, Rearm, DueCount, TwoZeros;
    ExpireKeeps(s, now, probe);
    ExpireFields(s, now, probe);
    var (t, listed) := Expire(s, now, probe);
    forall a | a in t.timers ensures a in s.pool { }
  }

  /** A deadline that wraps breaks the promise: a timer almost 2^64 ms away is refreshed, becomes due at 100, and nobody
      tells the sleeper, who was told to wait for the far deadline. */
  lemma WrapBreaksPromise()
    ensures var s := Add(State([], map[], false, 0), 1, WORD - 100, 10, false, 5).0;
            var (t, left) := Next(s, 5);
            var (u, ok) := Refresh(t, 1, 200);
            && left == Some(WORD - 100) && Guarded(t, Some(WORD - 95)) && ok && u.timers == [1] && u.pool[1].next == 100
            && !Guarded(u, Some(WORD - 95))
  {
    var s := Add(State([], map[], false, 0), 1, WORD - 100, 10, false, 5).0;
    assert s.timers == [1] && s.pool[1].next == WORD - 95;
    var t := Next(s, 5).0;
    FarWraps();
    var u := Refresh(t, 1, 200).0;
    assert Erase(t, 1).timers == [];
    assert u.timers == [1] && 1 in u.timers;
  }

  lemma FarWraps()
    ensures Deadline(5, WORD - 100) == WORD - 95 && Deadline(200, WORD - 100) == 100
  {
  }
}
