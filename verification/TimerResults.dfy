/** What each timer operation leaves behind, field by field, and what a recurring timer gets over a whole run. */
module TimerResults {
  import opened TimerSet
  import opened TimerMachine
  import opened TimerRuns
  import opened TimerWatch

  const TWO64: nat := 0x1_0000_0000_0000_0000

  /** The comparator: by deadline, then by address; deadlines of zero are all alike. */
  lemma LessMeaning(x: Key, y: Key)
    ensures Less(x, y) <==> x.next < y.next || (x.next == y.next && x.next != 0 && x.addr < y.addr)
  {
  }

  /** a has the earliest deadline of the set, and among equal ones the lowest address. */
  ghost predicate IsEarliest(s: State, a: nat)
    requires Known(s) && a in s.pool
  {
    forall b :: b in s.timers && b != a ==>
      s.pool[a].next < s.pool[b].next || (s.pool[a].next == s.pool[b].next && a < b)
  }

  /** Timer a, outside the set so far, went into it or was kept out by another zero deadline; the others stayed; and the
      caller is told to notify exactly when a is first now (or was kept out at the front) and nothing was pending. */
  ghost predicate Joined(s: State, t: State, a: nat, notify: bool)
    requires Known(s) && Known(t) && a in t.pool
  {
    var kept := t.pool[a].next == 0 && exists b :: b in s.timers && b != a && s.pool[b].next == 0;
    && (a in t.timers <==> !kept)
    && (forall b :: b != a ==> (b in t.timers <==> b in s.timers))
    && (notify <==> !s.tickled && (kept || t.timers[0] == a))
    && (!kept ==> (t.timers[0] == a <==> IsEarliest(t, a)))
    && t.tickled == (s.tickled || notify) && t.previousTime == s.previousTime
  }

  /** The place a timer gets is the front exactly when it is the earliest, or is kept out by a zero. */
  lemma FrontMeans(s: State, a: nat)
    requires Ordered(s) && a in s.pool && a !in s.timers
    ensures Ordered(Insert(s, a)) && Insert(s, a).pool == s.pool
    ensures !Blocked(s, a) ==> Insert(s, a).timers != [] && (Insert(s, a).timers[0] == a <==> Place(s, a) == 0)
    ensures !Blocked(s, a) ==> (Place(s, a) == 0 <==> IsEarliest(s, a))
    ensures Blocked(s, a) ==> Place(s, a) == 0
  {
    hide Keys, LowerBound, Less;
    InsertOrdered(s, a);
    var ks, k := Keys(s.timers, s.pool), KeyOf(s.pool, a);
    if Blocked(s, a) {
      BlockedAtFront(s, a);
    } else {
      FrontIsEarliest(s, a);
      var i := Place(s, a);
      if i > 0 { assert Insert(s, a).timers[0] == s.timers[0] && s.timers[0] in s.timers; }
    }
  }

  lemma BlockedAtFront(s: State, a: nat)
    requires Ordered(s) && a in s.pool && a !in s.timers && Blocked(s, a)
    ensures Place(s, a) == 0
  {
    BlockedMeaning(s, a);
    var ks := Keys(s.timers, s.pool);
    assert s.pool[a].next == 0;
    if s.timers != [] { LessMeaning(ks[0], KeyOf(s.pool, a)); }
  }

  lemma FrontIsEarliest(s: State, a: nat)
    requires Ordered(s) && a in s.pool && a !in s.timers && !Blocked(s, a)
    ensures Place(s, a) == 0 <==> IsEarliest(s, a)
  {
    hide LowerBound, Less;
    var ks, k := Keys(s.timers, s.pool), KeyOf(s.pool, a);
    BlockedMeaning(s, a);
    if s.timers != [] {
      LessMeaning(ks[0], k);
      assert ks[0] == KeyOf(s.pool, s.timers[0]) && s.timers[0] in s.timers;
      FrontIsLess(ks, k);
      if Place(s, a) == 0 {
        forall b | b in s.timers && b != a
          ensures s.pool[a].next < s.pool[b].next || (s.pool[a].next == s.pool[b].next && a < b)
        {
          var i :| 0 <= i < |s.timers| && s.timers[i] == b;
          FirstBelow(ks, i);
          LessMeaning(ks[0], ks[i]);
        }
      }
    }
  }

  lemma FrontIsLess(ks: seq<Key>, k: Key)
    requires ks != []
    ensures LowerBound(ks, k) == 0 <==> !Less(ks[0], k)
  {
  }

  lemma FirstBelow(ks: seq<Key>, i: nat)
    requires Sorted(ks) && i < |ks|
    ensures i == 0 || Less(ks[0], ks[i])
  {
  }

  /** addTimer(val, lock) on a timer whose record is in the pool already. */
  lemma AddToSetResult(s: State, a: nat)
    requires Ordered(s) && a in s.pool && a !in s.timers
    ensures var (t, notify) := AddToSet(s, a); t.pool == s.pool && Joined(s, t, a, notify)
  {
    hide Keys, Less, LowerBound, Insert, IsEarliest;
    FrontMeans(s, a);
    InsertOrdered(s, a);
    InsertFields(s, a);
    var t := AddToSet(s, a).0;
    assert t.timers == Insert(s, a).timers && t.pool == s.pool && t.previousTime == s.previousTime;
    EarliestSame(s, t, a);
    assert ZeroTaken(s, a) <==> s.pool[a].next == 0 && exists b :: b in s.timers && b != a && s.pool[b].next == 0;
    assert t.tickled == (s.tickled || AddToSet(s, a).1);
  }

  lemma InsertFields(s: State, a: nat)
    requires Known(s) && a in s.pool
    ensures Insert(s, a).tickled == s.tickled && Insert(s, a).previousTime == s.previousTime
  {
  }

  lemma EarliestSame(s: State, t: State, a: nat)
    requires Known(s) && Known(t) && a in s.pool && t.pool == s.pool && forall b :: b != a ==> (b in t.timers <==> b in s.timers)
    ensures IsEarliest(t, a) <==> IsEarliest(s, a)
  {
  }

  /** addTimer stores exactly what it was given, due at now + ms in 64 bits, and touches no other record. */
  lemma AddResult(s: State, a: nat, ms: nat, cb: nat, recurring: bool, now: nat)
    requires Inv(s) && a !in s.pool
    ensures var (t, notify) := Add(s, a, ms, cb, recurring, now);
            && t.pool == s.pool[a := Record((now + ms) % TWO64, ms, recurring, Some(cb))]
            && Joined(s, t, a, notify)
  {
    hide Keys, Less, LowerBound, Insert, IsEarliest, AddToSet;
    var x := Record(Deadline(now, ms), ms, recurring, Some(cb));
    var u := s.(pool := s.pool[a := x]);
    UpdateOrdered(s, a, x);
    AddToSetResult(u, a);
    JoinedFrom(s, u, Add(s, a, ms, cb, recurring, now).0, a, Add(s, a, ms, cb, recurring, now).1);
  }

  /** Joining is the same seen from before the record of a changed and it left the set. */
  lemma JoinedFrom(s: State, u: State, t: State, a: nat, notify: bool)
    requires Known(s) && Known(u) && Known(t) && a in t.pool && Joined(u, t, a, notify)
    requires u.tickled == s.tickled && u.previousTime == s.previousTime
    requires forall b :: b != a ==> (b in u.timers <==> b in s.timers) && (b in s.timers ==> b in u.pool && u.pool[b] == s.pool[b])
    ensures Joined(s, t, a, notify)
  {
    hide IsEarliest;
    assert (exists b :: b in s.timers && b != a && s.pool[b].next == 0) <==> (exists b :: b in u.timers && b != a && u.pool[b].next == 0);
  }

  /** reset: no change when the period stays and the start is kept, nothing for a dead timer, else a new period and a
      deadline that far after now or after the old start, put back into the set. */
  lemma ResetResult(s: State, a: nat, ms: nat, fromNow: bool, now: nat)
    requires Inv(s) && a in s.pool
    ensures var (t, ok, notify) := Reset(s, a, ms, fromNow, now); var x := s.pool[a];
            if ms == x.ms && !fromNow then t == s && ok && !notify
            else if x.cb.None? then t == s && !ok && !notify
            else
              && ok && t.pool == s.pool[a := x.(ms := ms, next := ((if fromNow then now else (x.next - x.ms) % TWO64) + ms) % TWO64)]
              && Joined(s, t, a, notify)
  {
    hide Keys, Less, LowerBound, Insert, Erase, IsEarliest, AddToSet;
    var x := s.pool[a];
    InvFacts(s, a);
    if x.cb.Some? && !(ms == x.ms && !fromNow) {
      EraseOrdered(s, a);
      EraseFields(s, a);
      var e := Erase(s, a);
      var y := x.(ms := ms, next := ResetDeadline(x, ms, fromNow, now));
      UpdateOrdered(e, a, y);
      AddToSetResult(e.(pool := e.pool[a := y]), a);
      JoinedFrom(s, e.(pool := e.pool[a := y]), Reset(s, a, ms, fromNow, now).0, a, Reset(s, a, ms, fromNow, now).2);
    }
  }

  lemma EraseFields(s: State, a: nat)
    requires Known(s) && a in s.pool && Blocked(s, a)
    ensures Erase(s, a).tickled == s.tickled && Erase(s, a).previousTime == s.previousTime
  {
  }

  /** refresh and cancel change one field of one live timer. */
  lemma RefreshResult(s: State, a: nat, now: nat)
    requires Inv(s) && a in s.pool
    ensures var (t, ok) := Refresh(s, a, now); var x := s.pool[a];
            && (ok <==> x.cb.Some?) && t.tickled == s.tickled && t.previousTime == s.previousTime
            && t.pool == (if ok then s.pool[a := x.(next := (now + x.ms) % TWO64)] else s.pool)
            && (forall b :: b != a ==> (b in t.timers <==> b in s.timers))
  {
    hide Keys, Less, LowerBound, Insert, Erase;
    RefreshKeeps(s, a, now);
    RefreshDead(s, a, now);
    if s.pool[a].cb.Some? {
      var y := s.pool[a].(next := Deadline(now, s.pool[a].ms));
      ReinsertKeeps(s, a, y);
      ReinsertedFields(s, a, y);
    }
  }

  lemma CancelResult(s: State, a: nat)
    requires Inv(s) && a in s.pool
    ensures Cancel(s, a).Some?
    ensures var (t, ok) := Cancel(s, a).value; var x := s.pool[a];
            && (ok <==> x.cb.Some?) && t.tickled == s.tickled && t.previousTime == s.previousTime
            && t.pool == (if ok then s.pool[a := x.(cb := None)] else s.pool)
            && (forall b :: b in t.timers <==> b in s.timers && b != a)
  {
    hide Keys, Less, LowerBound;
    CancelKeeps(s, a);
  }

  // ---- getNextTimer ----

  /** getNextTimer: nothing for an empty set, zero exactly when some timer is due, and else the time left to the earliest
      deadline of all; afterwards no notification is pending. */
  lemma NextResult(s: State, now: nat)
    requires Inv(s)
    ensures var (t, r) := Next(s, now);
            && t == s.(tickled := false)
            && (r.None? <==> s.timers == [])
            && (r == Some(0) <==> exists a :: a in s.timers && s.pool[a].next <= now)
            && (r.Some? && r.value > 0 ==> (forall a :: a in s.timers ==> now + r.value <= s.pool[a].next)
                                           && exists a :: a in s.timers && s.pool[a].next == now + r.value)
  {
    if s.timers != [] {
      FirstIsEarliest(s);
      assert s.timers[0] in s.timers;
    }
  }

  // ---- a recurring timer over a whole run ----

  /** Every expiry at or after the deadline the timer has then lists it. */
  ghost predicate Served(s: State, ops: seq<Op>, a: nat)
    requires Known(s) && Runs(s, ops)
    decreases |ops|
  {
    ops == [] ||
    (a in s.pool && (ops[0].OpExpire? && s.pool[a].next <= ops[0].now ==> a in Listed(s, ops[0])) && Served(Step(s, ops[0]), ops[1..], a))
  }

  ghost predicate LiveRecurring(s: State, a: nat, cb: nat) { a in s.pool && s.pool[a].recurring && s.pool[a].cb == Some(cb) }

  lemma StaysRecurring(s: State, op: Op, a: nat, cb: nat)
    requires Inv(s) && Legal(s, op) && LiveRecurring(s, a, cb) && op != OpCancel(a)
    ensures LiveRecurring(Step(s, op), a, cb)
    ensures op.OpExpire? && a in Listed(s, op) ==> Step(s, op).pool[a].next == (op.now + s.pool[a].ms) % TWO64
  {
    hide Inv, Add, Next, Expire, Cancel, Refresh, Reset, ResetDeadline, OtherZero, TwoZeros, Joined;
    KnownOf(s);
    match op
    case OpAdd(b, ms, c, recurring, now) => AddResult(s, b, ms, c, recurring, now);
    case OpNext(now) => NextKeeps(s, now);
    case OpExpire(now, probe) => ExpireStays(s, now, probe, a);
    case OpCancel(b) => CancelResult(s, b);
    case OpRefresh(b, now) => RefreshResult(s, b, now);
    case OpReset(b, ms, fromNow, now) => ResetResult(s, b, ms, fromNow, now);
  }

  lemma ExpireStays(s: State, now: nat, probe: nat, a: nat)
    requires Inv(s) && a in s.pool && s.pool[a].recurring && !TwoZeros(s, Expire(s, now, probe).1, now)
    ensures var (t, listed) := Expire(s, now, probe);
            && a in t.pool && t.pool[a].recurring && t.pool[a].cb == s.pool[a].cb
            && (a in listed ==> t.pool[a].next == (now + s.pool[a].ms) % TWO64)
  {
    hide Keys, Rearm, DueCount, TwoZeros;
    ExpireKeeps(s, now, probe);
  }

  /** A due member of the set is listed. */
  lemma DueIsListed(s: State, now: nat, probe: nat, a: nat)
    requires Inv(s) && a in s.timers && s.pool[a].next <= now
    ensures a in Expire(s, now, probe).1
  {
    hide Keys, Expire, Rollover;
    ExpireLists(s, now, probe);
    if !Rollover(s, now) { InDueTimers(s.timers, s.pool, now, a); }
  }

  lemma {:induction false} InDueTimers(ts: seq<nat>, pool: map<nat, Record>, now: nat, a: nat)
    requires (forall i :: 0 <= i < |ts| ==> ts[i] in pool) && a in ts && pool[a].next <= now
    ensures a in DueTimers(ts, pool, now)
  {
    if a != ts[0] { InDueTimers(ts[1..], pool, now, a); }
  }

  /** Over every run without a cancel of it, a live recurring timer stays live and recurring with its callback, and every
      expiry at or after its deadline lists it. */
  lemma {:induction false} RecurringServed(s: State, ops: seq<Op>, a: nat, cb: nat)
    requires Inv(s) && Runs(s, ops) && LiveRecurring(s, a, cb) && forall i :: 0 <= i < |ops| ==> ops[i] != OpCancel(a)
    ensures Served(s, ops, a) && LiveRecurring(Exec(s, ops), a, cb) && a in Exec(s, ops).timers
    decreases |ops|
  {
    hide Legal, Step, Sensible, Expire;
    KnownOf(s);
    InvFacts(s, a);
    if ops != [] {
      StepKeeps(s, ops[0]);
      StaysRecurring(s, ops[0], a, cb);
      if ops[0].OpExpire? && s.pool[a].next <= ops[0].now { DueIsListed(s, ops[0].now, ops[0].probe, a); }
      assert forall i :: 0 <= i < |ops[1..]| ==> ops[1..][i] == ops[i + 1];
      RecurringServed(Step(s, ops[0]), ops[1..], a, cb);
    }
  }

  /** In particular one just added. */
  lemma AddedIsServed(s: State, a: nat, ms: nat, cb: nat, now: nat, ops: seq<Op>)
    requires Inv(s) && Legal(s, OpAdd(a, ms, cb, true, now)) && Runs(Step(s, OpAdd(a, ms, cb, true, now)), ops)
    requires forall i :: 0 <= i < |ops| ==> ops[i] != OpCancel(a)
    ensures Served(Step(s, OpAdd(a, ms, cb, true, now)), ops, a)
    ensures var t := Exec(Step(s, OpAdd(a, ms, cb, true, now)), ops); LiveRecurring(t, a, cb) && a in t.timers
  {
    hide Joined, Served, Runs;
    StepKeeps(s, OpAdd(a, ms, cb, true, now));
    AddResult(s, a, ms, cb, true, now);
    RecurringServed(Step(s, OpAdd(a, ms, cb, true, now)), ops, a, cb);
  }
}
