/** TimerManager and Timer of bobliew/timer.cc as a state machine: the ordered set, the timer records by
    address, the tickled flag and the last seen time. Deadlines are uint64_t and wrap. */
module TimerMachine {
  import opened TimerSet

  datatype Option<+T> = None | Some(value: T)

  const WORD: nat := 0x1_0000_0000_0000_0000

  /** The fields of one Timer object; a null callback is None. */
  datatype Record = Record(next: nat, ms: nat, recurring: bool, cb: Option<nat>)

  datatype State = State(timers: seq<nat>, pool: map<nat, Record>, tickled: bool, previousTime: nat)

  /** Every member of the set is a known timer. */
  predicate Known(s: State) { forall i :: 0 <= i < |s.timers| ==> s.timers[i] in s.pool }

  function KeyOf(pool: map<nat, Record>, a: nat): Key
    requires a in pool
  {
    Key(pool[a].next, a)
  }

  function Keys(ts: seq<nat>, pool: map<nat, Record>): (ks: seq<Key>)
    requires forall i :: 0 <= i < |ts| ==> ts[i] in pool
    ensures |ks| == |ts| && forall i :: 0 <= i < |ts| ==> ks[i] == KeyOf(pool, ts[i])
  {
    if ts == [] then [] else [KeyOf(pool, ts[0])] + Keys(ts[1..], pool)
  }

  /** The set is ordered by current keys, and a timer's callback is live exactly while it is in the set. */
  ghost predicate Inv(s: State)
  {
    && Known(s)
    && Sorted(Keys(s.timers, s.pool))
    && (forall a :: a in s.pool ==> (s.pool[a].cb.Some? <==> a in s.timers))
  }

  function Deadline(now: nat, ms: nat): nat { (now + ms) % WORD }

  // ---- set updates on the state ----

  /** m_timers.insert(a): its place, or the place of the equivalent member that keeps it out. */
  function Place(s: State, a: nat): (i: nat)
    requires Known(s) && a in s.pool
    ensures i <= |s.timers|
  {
    LowerBound(Keys(s.timers, s.pool), KeyOf(s.pool, a))
  }

  predicate Blocked(s: State, a: nat)
    requires Known(s) && a in s.pool
  {
    Clash(Keys(s.timers, s.pool), KeyOf(s.pool, a))
  }

  function Insert(s: State, a: nat): (t: State)
    requires Known(s) && a in s.pool
    ensures Known(t)
  {
    if Blocked(s, a) then s
    else var i := Place(s, a); s.(timers := s.timers[..i] + [a] + s.timers[i..])
  }

  /** m_timers.erase(m_timers.find(a)); find returning end() is outside the model. */
  function Erase(s: State, a: nat): (t: State)
    requires Known(s) && a in s.pool && Blocked(s, a)
    ensures Known(t)
  {
    var i := Find(Keys(s.timers, s.pool), KeyOf(s.pool, a));
    s.(timers := s.timers[..i] + s.timers[i + 1..])
  }

  /** addTimer(val, lock): insert, and notify when the timer is first and no notification is pending. */
  function AddToSet(s: State, a: nat): (r: (State, bool))
    requires Known(s) && a in s.pool
    ensures Known(r.0)
  {
    var atFront := Place(s, a) == 0 && !s.tickled;
    var t := Insert(s, a);
    (if atFront then t.(tickled := true) else t, atFront)
  }

  // ---- the public operations ----

  /** addTimer; a is the address of the new Timer. The second result is onTimerInsertedAtFront. */
  function Add(s: State, a: nat, ms: nat, cb: nat, recurring: bool, now: nat): (r: (State, bool))
    requires Known(s) && a !in s.pool
    ensures Known(r.0)
  {
    AddToSet(s.(pool := s.pool[a := Record(Deadline(now, ms), ms, recurring, Some(cb))]), a)
  }

  /** getNextTimer; None is ~0ull. */
  function Next(s: State, now: nat): (r: (State, Option<nat>))
    requires Known(s)
    ensures Known(r.0)
  {
    (s.(tickled := false),
     if s.timers == [] then None
     else var n := s.pool[s.timers[0]].next; Some(if now >= n then 0 else n - now))
  }

  /** One hour in milliseconds. */
  const HOUR: nat := 60 * 60 * 1000

  /** detectClockRollover for a last time of `before`; the difference is an uint64_t. */
  predicate RolledOver(before: nat, now: nat) { now < before && now < (before - HOUR) % WORD }

  predicate Rollover(s: State, now: nat) { RolledOver(s.previousTime, now) }

  /** A step back counts when it is more than an hour, and any step back counts while the last time is within the first
      hour, where the difference wraps. */
  lemma RolloverExact(before: nat, now: nat)
    requires before < WORD
    ensures RolledOver(before, now) <==> now < before && (before < HOUR || before - now > HOUR)
  {
    if before < HOUR {
      assert (before - HOUR) % WORD == before - HOUR + WORD;
    } else {
      assert (before - HOUR) % WORD == before - HOUR;
    }
  }

  /** How many members of the set listExpireCb takes out. */
  function DueCount(s: State, now: nat, probe: nat): (d: nat)
    requires Known(s)
    ensures d <= |s.timers|
  {
    var ks := Keys(s.timers, s.pool);
    if ks == [] then 0
    else if Rollover(s, now) then |ks|
    else if ks[0].next > now then 0
    else SkipEqual(ks, LowerBound(ks, Key(now, probe)), now)
  }

  /** The loop over the expired timers: a recurring one is re-armed, the others lose their callback. */
  function Rearm(s: State, expired: seq<nat>, now: nat): (t: State)
    requires Known(s) && forall i :: 0 <= i < |expired| ==> expired[i] in s.pool
    ensures Known(t) && t.pool.Keys == s.pool.Keys
    decreases |expired|
  {
    if expired == [] then s else Rearm(RearmOne(s, expired[0], now), expired[1..], now)
  }

  function RearmOne(s: State, a: nat, now: nat): (t: State)
    requires Known(s) && a in s.pool
    ensures Known(t) && t.pool.Keys == s.pool.Keys
  {
    var x := s.pool[a];
    if x.recurring then Insert(s.(pool := s.pool[a := x.(next := Deadline(now, x.ms))]), a)
    else s.(pool := s.pool[a := x.(cb := None)])
  }

  /** listExpireCb: the new state and the timers whose callbacks are listed, in order. */
  function Expire(s: State, now: nat, probe: nat): (r: (State, seq<nat>))
    requires Known(s)
    ensures Known(r.0)
  {
    if s.timers == [] then (s, [])
    else
      var d := DueCount(s, now, probe);
      var expired := s.timers[..d];
      (Rearm(s.(timers := s.timers[d..], previousTime := now), expired, now), expired)
  }

  /** Timer::cancel; None when find would return end(), which the code erases without a check. */
  function Cancel(s: State, a: nat): (r: Option<(State, bool)>)
    requires Known(s) && a in s.pool
    ensures r.Some? ==> Known(r.value.0)
  {
    if s.pool[a].cb.None? then Some((s, false))
    else
      var t := s.(pool := s.pool[a := s.pool[a].(cb := None)]);
      if Blocked(t, a) then Some((Erase(t, a), true)) else None
  }

  /** Timer::refresh. */
  function Refresh(s: State, a: nat, now: nat): (r: (State, bool))
    requires Known(s) && a in s.pool
    ensures Known(r.0)
  {
    if s.pool[a].cb.None? || !Blocked(s, a) then (s, false)
    else
      var t := Erase(s, a);
      (Insert(t.(pool := t.pool[a := t.pool[a].(next := Deadline(now, t.pool[a].ms))]), a), true)
  }

  /** The deadline Timer::reset computes. */
  function ResetDeadline(x: Record, ms: nat, fromNow: bool, now: nat): nat
  {
    Deadline(if fromNow then now else (x.next - x.ms) % WORD, ms)
  }

  /** Timer::reset: the new state, the result and whether it notified. */
  function Reset(s: State, a: nat, ms: nat, fromNow: bool, now: nat): (r: (State, bool, bool))
    requires Known(s) && a in s.pool
    ensures Known(r.0)
  {
    var x := s.pool[a];
    if ms == x.ms && !fromNow then (s, true, false)
    else if x.cb.None? || !Blocked(s, a) then (s, false, false)
    else
      var t := Erase(s, a);
      var u := AddToSet(t.(pool := t.pool[a := x.(ms := ms, next := ResetDeadline(x, ms, fromNow, now))]), a);
      (u.0, true, u.1)
  }

  // ---- the ordered set under insertion and removal ----

  ghost predicate Ordered(s: State) { Known(s) && Sorted(Keys(s.timers, s.pool)) }

  /** a is in the pool, outside the set, and another timer of the set holds the zero deadline it needs. */
  ghost predicate ZeroTaken(s: State, a: nat)
    requires Known(s) && a in s.pool
  {
    s.pool[a].next == 0 && exists b :: b in s.timers && s.pool[b].next == 0
  }

  lemma BlockedMeaning(s: State, a: nat)
    requires Ordered(s) && a in s.pool && a !in s.timers
    ensures Blocked(s, a) <==> ZeroTaken(s, a)
  {
    var ks, k := Keys(s.timers, s.pool), KeyOf(s.pool, a);
    ClashMeaning(ks, k);
    forall j | 0 <= j < |ks| ensures Equivalent(ks[j], k) <==> ks[j].next == 0 && k.next == 0 {
      LessIsOrder(ks[j], k, k);
    }
    if ZeroTaken(s, a) {
      var b :| b in s.timers && s.pool[b].next == 0;
      var j :| 0 <= j < |s.timers| && s.timers[j] == b;
      assert ks[j].next == 0;
    }
  }

  lemma InsertOrdered(s: State, a: nat)
    requires Ordered(s) && a in s.pool && a !in s.timers
    ensures Blocked(s, a) <==> ZeroTaken(s, a)
    ensures Ordered(Insert(s, a)) && Insert(s, a).pool == s.pool
    ensures forall b :: b in Insert(s, a).timers <==> b in s.timers || (b == a && !ZeroTaken(s, a))
  {
    hide Less, LowerBound, ZeroTaken, Clash, Keys;
    BlockedMeaning(s, a);
    if !Blocked(s, a) {
      var ks, k, i := Keys(s.timers, s.pool), KeyOf(s.pool, a), Place(s, a);
      InsertSorted(ks, k);
      var t := Insert(s, a);
      assert Keys(t.timers, t.pool) == ks[..i] + [k] + ks[i..];
      assert s.timers == s.timers[..i] + s.timers[i..];
    }
  }

  lemma MembersDistinct(s: State)
    requires Ordered(s)
    ensures forall i, j :: 0 <= i < j < |s.timers| ==> s.timers[i] != s.timers[j]
  {
    var ks := Keys(s.timers, s.pool);
    forall i, j | 0 <= i < j < |s.timers| ensures s.timers[i] != s.timers[j] {
      LessIsOrder(ks[i], ks[i], ks[i]);
      assert Less(ks[i], ks[j]);
    }
  }

  /** find never misses a member, so that erase removes that member and nothing else. */
  lemma EraseOrdered(s: State, a: nat)
    requires Ordered(s) && a in s.timers
    ensures Blocked(s, a)
    ensures Ordered(Erase(s, a)) && Erase(s, a).pool == s.pool
    ensures forall b :: b in Erase(s, a).timers <==> b in s.timers && b != a
  {
    hide Less, Keys;
    var ks := Keys(s.timers, s.pool);
    var j :| 0 <= j < |s.timers| && s.timers[j] == a;
    FindHits(ks, j);
    RemoveSorted(ks, j);
    var t := Erase(s, a);
    assert Keys(t.timers, t.pool) == ks[..j] + ks[j + 1..];
    MembersDistinct(s);
    RemovedMembers(s.timers, j);
  }

  lemma RemovedMembers(ts: seq<nat>, j: nat)
    requires j < |ts| && forall i, k :: 0 <= i < k < |ts| ==> ts[i] != ts[k]
    ensures forall b :: b in ts[..j] + ts[j + 1..] <==> b in ts && b != ts[j]
  {
    assert ts == ts[..j] + [ts[j]] + ts[j + 1..];
  }

  /** Changing a record outside the set, or anything but a deadline, leaves the order alone. */
  lemma UpdateOrdered(s: State, a: nat, x: Record)
    requires Ordered(s) && (a !in s.timers || (a in s.pool && x.next == s.pool[a].next))
    ensures Ordered(s.(pool := s.pool[a := x]))
    ensures Keys(s.timers, s.pool[a := x]) == Keys(s.timers, s.pool)
  {
    assert Keys(s.timers, s.pool[a := x]) == Keys(s.timers, s.pool);
  }

  // ---- what each operation keeps ----

  /** Another member of the set has deadline zero. */
  ghost predicate OtherZero(s: State, a: nat)
    requires Known(s)
  {
    exists b :: b in s.timers && b != a && s.pool[b].next == 0
  }

  /** reset goes as far as moving the timer. */
  predicate ResetMoves(x: Record, ms: nat, fromNow: bool) { x.cb.Some? && !(ms == x.ms && !fromNow) }

  /** addTimer keeps the invariant exactly when the new deadline is not a second zero. */
  lemma AddKeeps(s: State, a: nat, ms: nat, cb: nat, recurring: bool, now: nat)
    requires Inv(s) && a !in s.pool
    ensures var t := Add(s, a, ms, cb, recurring, now).0;
            Inv(t) <==> !(Deadline(now, ms) == 0 && OtherZero(s, a))
  {
    var x := Record(Deadline(now, ms), ms, recurring, Some(cb));
    var u := s.(pool := s.pool[a := x]);
    UpdateOrdered(s, a, x);
    InsertOrdered(u, a);
    assert forall b :: b in s.timers ==> u.pool[b] == s.pool[b];
    var t := Add(s, a, ms, cb, recurring, now).0;
    assert t.pool == u.pool && t.timers == Insert(u, a).timers;
  }

  lemma CancelKeeps(s: State, a: nat)
    requires Inv(s) && a in s.pool
    ensures Cancel(s, a).Some?
    ensures var (t, ok) := Cancel(s, a).value;
            && Inv(t) && ok == s.pool[a].cb.Some?
            && t.pool[a].cb.None? && (forall b :: b in t.timers <==> b in s.timers && b != a)
  {
    if s.pool[a].cb.Some? {
      var x := s.pool[a].(cb := None);
      UpdateOrdered(s, a, x);
      EraseOrdered(s.(pool := s.pool[a := x]), a);
    }
  }

  /** The record of a is replaced and a is put back: the common part of refresh and reset. */
  ghost function Reinserted(s: State, a: nat, x: Record): State
    requires Inv(s) && a in s.timers && x.cb.Some?
    ensures Known(Reinserted(s, a, x))
  {
    EraseOrdered(s, a);
    var t := Erase(s, a);
    Insert(t.(pool := t.pool[a := x]), a)
  }

  lemma ReinsertKeeps(s: State, a: nat, x: Record)
    requires Inv(s) && a in s.timers && x.cb.Some?
    ensures Inv(Reinserted(s, a, x)) <==> !(x.next == 0 && OtherZero(s, a))
    ensures forall b :: b in s.pool && b != a ==> Reinserted(s, a, x).pool[b] == s.pool[b]
    ensures forall b :: b != a ==> (b in Reinserted(s, a, x).timers <==> b in s.timers)
  {
    EraseOrdered(s, a);
    var t := Erase(s, a);
    UpdateOrdered(t, a, x);
    var u := t.(pool := t.pool[a := x]);
    InsertOrdered(u, a);
    assert forall b :: b in t.timers ==> u.pool[b] == s.pool[b];
  }

  lemma RefreshKeeps(s: State, a: nat, now: nat)
    requires Inv(s) && a in s.pool
    ensures var (t, ok) := Refresh(s, a, now);
            && ok == s.pool[a].cb.Some?
            && (Inv(t) <==> !(ok && Deadline(now, s.pool[a].ms) == 0 && OtherZero(s, a)))
            && (ok ==> t == Reinserted(s, a, s.pool[a].(next := Deadline(now, s.pool[a].ms))))
  {
    if s.pool[a].cb.Some? {
      EraseOrdered(s, a);
      ReinsertKeeps(s, a, s.pool[a].(next := Deadline(now, s.pool[a].ms)));
    }
  }

  lemma InvFacts(s: State, a: nat)
    requires Inv(s)
    ensures Ordered(s) && (a in s.pool ==> (s.pool[a].cb.Some? <==> a in s.timers))
  {
  }

  lemma ResetKeeps(s: State, a: nat, ms: nat, fromNow: bool, now: nat)
    requires Inv(s) && a in s.pool
    ensures var (t, ok, _) := Reset(s, a, ms, fromNow, now);
            && (Inv(t) <==> !(ResetMoves(s.pool[a], ms, fromNow) && ResetDeadline(s.pool[a], ms, fromNow, now) == 0
                              && OtherZero(s, a)))
            && ok == (s.pool[a].cb.Some? || (ms == s.pool[a].ms && !fromNow))
  {
    hide Less, Keys, ResetDeadline, Inv, Place, Blocked;
    var x := s.pool[a];
    InvFacts(s, a);
    if x.cb.Some? && !(ms == x.ms && !fromNow) {
      EraseOrdered(s, a);
      var y := x.(ms := ms, next := ResetDeadline(x, ms, fromNow, now));
      ReinsertKeeps(s, a, y);
      SameSetSameInv(Reinserted(s, a, y), Reset(s, a, ms, fromNow, now).0);
    }
  }

  lemma SameSetSameInv(s: State, t: State)
    requires s.timers == t.timers && s.pool == t.pool
    ensures Inv(s) <==> Inv(t)
  {
  }

  // ---- expiry ----

  /** The timers with a due deadline, in set order: the plain filter. */
  ghost function DueTimers(ts: seq<nat>, pool: map<nat, Record>, now: nat): seq<nat>
    requires forall i :: 0 <= i < |ts| ==> ts[i] in pool
  {
    if ts == [] then []
    else (if pool[ts[0]].next <= now then [ts[0]] else []) + DueTimers(ts[1..], pool, now)
  }

  lemma {:induction false} DueTimersOfPrefix(ts: seq<nat>, pool: map<nat, Record>, now: nat, d: nat)
    requires forall i :: 0 <= i < |ts| ==> ts[i] in pool
    requires d <= |ts| && forall j :: 0 <= j < |ts| ==> (pool[ts[j]].next <= now <==> j < d)
    ensures DueTimers(ts, pool, now) == ts[..d]
  {
    if ts != [] {
      var e := if d == 0 then 0 else d - 1;
      assert forall j :: 0 <= j < |ts| - 1 ==> ts[1..][j] == ts[j + 1];
      DueTimersOfPrefix(ts[1..], pool, now, e);
    }
  }

  /** listExpireCb lists exactly the due timers in comparator order (all of them after a rollover), whatever the
      address of the probe timer. */
  lemma ExpireLists(s: State, now: nat, probe: nat)
    requires Ordered(s)
    ensures Expire(s, now, probe).1 == if Rollover(s, now) then s.timers else DueTimers(s.timers, s.pool, now)
  {
    hide Rearm, Less, Rollover;
    var ks := Keys(s.timers, s.pool);
    if s.timers != [] && !Rollover(s, now) {
      DuePrefix(ks, now, probe);
      var d := SkipEqual(ks, LowerBound(ks, Key(now, probe)), now);
      assert forall j :: 0 <= j < |s.timers| ==> s.pool[s.timers[j]].next == ks[j].next;
      DueTimersOfPrefix(s.timers, s.pool, now, d);
    }
  }

  /** What re-arming did to the record and the membership of one expired timer. */
  ghost predicate Rearmed(s: State, t: State, a: nat, now: nat)
    requires a in s.pool && a in t.pool
  {
    var x := s.pool[a];
    if x.recurring then t.pool[a] == x.(next := Deadline(now, x.ms)) && a in t.timers
    else t.pool[a] == x.(cb := None) && a !in t.timers
  }

  ghost predicate Untouched(s: State, t: State, a: nat)
    requires a in s.pool && a in t.pool
  {
    t.pool[a] == s.pool[a] && (a in t.timers <==> a in s.timers)
  }

  /** The expired timers wait outside the set, each once and still live. */
  ghost predicate Pending(s: State, expired: seq<nat>)
  {
    && Ordered(s)
    && (forall i :: 0 <= i < |expired| ==> expired[i] in s.pool && expired[i] !in s.timers)
    && (forall i, j :: 0 <= i < j < |expired| ==> expired[i] != expired[j])
    && (forall a :: a in s.pool ==> (s.pool[a].cb.Some? <==> a in s.timers || a in expired))
  }

  /** Re-arming a would give it deadline zero. */
  predicate ZeroRearm(s: State, a: nat, now: nat) { a in s.pool && s.pool[a].recurring && Deadline(now, s.pool[a].ms) == 0 }

  /** Some member of the set has deadline zero. */
  ghost predicate ZeroIn(s: State)
    requires Known(s)
  {
    exists b :: b in s.timers && s.pool[b].next == 0
  }

  /** Two of the listed timers would be re-armed at deadline zero. */
  ghost predicate TwoZeros(s: State, listed: seq<nat>, now: nat)
  {
    exists a, b :: a in listed && b in listed && a != b && ZeroRearm(s, a, now) && ZeroRearm(s, b, now)
  }

  ghost predicate Collides(s: State, expired: seq<nat>, now: nat)
    requires Known(s)
  {
    TwoZeros(s, expired, now) || (ZeroIn(s) && exists a :: a in expired && ZeroRearm(s, a, now))
  }

  /** One round re-arms its timer unless it would be a second zero, which is then live and outside the set. */
  lemma RearmOneExact(s: State, a: nat, now: nat)
    requires Ordered(s) && a in s.pool && a !in s.timers
    ensures var u := RearmOne(s, a, now);
            && Ordered(u) && (forall b :: b in s.pool && b != a ==> Untouched(s, u, b))
            && (if ZeroRearm(s, a, now) && ZeroIn(s) then u.pool[a].cb == s.pool[a].cb && a !in u.timers else Rearmed(s, u, a, now))
            && (ZeroIn(u) <==> ZeroIn(s) || ZeroRearm(s, a, now))
  {
    hide Keys, Deadline, Sorted, Insert;
    var x := s.pool[a];
    var u := RearmOne(s, a, now);
    if x.recurring {
      var y := x.(next := Deadline(now, x.ms));
      var v := s.(pool := s.pool[a := y]);
      UpdateOrdered(s, a, y);
      InsertOrdered(v, a);
      ZerosBeside(s, v, a);
      ZerosInserted(v, u, a);
    } else {
      UpdateOrdered(s, a, x.(cb := None));
      ZerosBeside(s, u, a);
    }
  }

  /** Changing the record of a timer outside the set changes no deadline in it. */
  lemma ZerosBeside(s: State, v: State, a: nat)
    requires Known(s) && a in s.pool && a !in s.timers && v.timers == s.timers && a in v.pool && v.pool == s.pool[a := v.pool[a]]
    ensures Known(v) && (ZeroIn(v) <==> ZeroIn(s)) && (ZeroTaken(v, a) <==> v.pool[a].next == 0 && ZeroIn(s))
  {
    assert forall b :: b in s.timers ==> v.pool[b] == s.pool[b];
  }

  lemma ZerosInserted(v: State, u: State, a: nat)
    requires Known(v) && Known(u) && a in v.pool && u.pool == v.pool
    requires forall b :: b in u.timers <==> b in v.timers || (b == a && !ZeroTaken(v, a))
    ensures ZeroIn(u) <==> ZeroIn(v) || v.pool[a].next == 0
  {
  }

  /** Timers that are not re-armed keep record and membership. */
  lemma {:induction false} RearmSkips(s: State, expired: seq<nat>, now: nat, a: nat)
    requires Ordered(s) && a in s.pool && a !in expired
    requires forall i :: 0 <= i < |expired| ==> expired[i] in s.pool && expired[i] !in s.timers
    requires forall i, j :: 0 <= i < j < |expired| ==> expired[i] != expired[j]
    ensures Untouched(s, Rearm(s, expired, now), a)
    decreases |expired|
  {
    hide Keys, Deadline, Insert, ZeroIn, ZeroRearm;
    if expired != [] {
      var u := RearmOne(s, expired[0], now);
      RearmOneExact(s, expired[0], now);
      assert Untouched(s, u, a);
      assert forall i :: 0 <= i < |expired| - 1 ==> expired[1..][i] == expired[i + 1];
      assert forall i :: 0 < i < |expired| ==> Untouched(s, u, expired[i]);
      RearmSkips(u, expired[1..], now, a);
    }
  }

  /** u is s after the first of the expired timers was re-armed as it should be. */
  ghost predicate FirstDone(s: State, u: State, expired: seq<nat>, now: nat)
  {
    && Pending(s, expired) && expired != [] && Ordered(u) && u.pool.Keys == s.pool.Keys
    && Rearmed(s, u, expired[0], now) && (forall b :: b in s.pool && b != expired[0] ==> Untouched(s, u, b))
  }

  lemma RestPending(s: State, u: State, expired: seq<nat>, now: nat)
    requires FirstDone(s, u, expired, now)
    ensures Pending(u, expired[1..])
  {
    hide Keys, Deadline, Sorted;
    var a, rest := expired[0], expired[1..];
    assert forall i :: 0 <= i < |rest| ==> rest[i] == expired[i + 1];
    assert forall b :: b in expired <==> b == a || b in rest;
  }

  lemma CollidesRest(s: State, u: State, expired: seq<nat>, now: nat)
    requires FirstDone(s, u, expired, now) && !(ZeroRearm(s, expired[0], now) && ZeroIn(s))
    requires ZeroIn(u) <==> ZeroIn(s) || ZeroRearm(s, expired[0], now)
    ensures Collides(s, expired, now) <==> Collides(u, expired[1..], now)
  {
    hide Keys, Deadline, Sorted, ZeroIn;
    var a, rest := expired[0], expired[1..];
    assert forall i :: 0 <= i < |rest| ==> rest[i] == expired[i + 1];
    assert forall b :: b in expired <==> b == a || b in rest;
    assert forall b :: b in rest ==> b != a && (ZeroRearm(u, b, now) <==> ZeroRearm(s, b, now));
  }

  /** The loop keeps the invariant exactly when no two deadlines collide at zero. */
  lemma {:induction false} RearmExact(s: State, expired: seq<nat>, now: nat)
    requires Pending(s, expired)
    ensures var t := Rearm(s, expired, now);
            && (Inv(t) <==> !Collides(s, expired, now))
            && (Inv(t) ==> forall a :: a in expired ==> a in s.pool && Rearmed(s, t, a, now))
    decreases |expired|
  {
    hide Keys, Deadline, Insert, ZeroIn, ZeroRearm, Sorted;
    if expired != [] {
      var a, rest := expired[0], expired[1..];
      var u := RearmOne(s, a, now);
      RearmOneExact(s, a, now);
      assert a in expired && a !in rest;
      if ZeroRearm(s, a, now) && ZeroIn(s) {
        assert forall i :: 0 <= i < |rest| ==> rest[i] == expired[i + 1] && Untouched(s, u, expired[i + 1]);
        RearmSkips(u, rest, now, a);
      } else {
        RestPending(s, u, expired, now);
        CollidesRest(s, u, expired, now);
        RearmSkips(u, rest, now, a);
        RearmExact(u, rest, now);
        assert forall b :: b in expired <==> b == a || b in rest;
        assert forall b :: b in rest ==> Untouched(s, u, b);
      }
    }
  }

  /** Expiry keeps the invariant exactly when at most one listed timer is re-armed at deadline zero; then each listed
      recurring timer is in the set again at now + period and no listed one-shot is left. No other timer changes. */
  lemma ExpireKeeps(s: State, now: nat, probe: nat)
    requires Inv(s)
    ensures var (t, listed) := Expire(s, now, probe);
            && t.pool.Keys == s.pool.Keys
            && (Inv(t) <==> !TwoZeros(s, listed, now))
            && (Inv(t) ==> forall a :: a in listed ==> a in s.pool && Rearmed(s, t, a, now))
            && (forall a :: a in s.pool && a !in listed ==> Untouched(s, t, a))
  {
    hide Sorted, Deadline, DueCount, Rearm, Rollover, ZeroRearm, Pending;
    if s.timers != [] {
      var d := DueCount(s, now, probe);
      var expired := s.timers[..d];
      var u := s.(timers := s.timers[d..], previousTime := now);
      TakenOut(s, d, now);
      RearmExact(u, expired, now);
      NoZeroLeft(s, now, probe);
      SameZeros(s, u, expired, now);
      forall a | a in s.pool && a !in expired ensures Untouched(s, Rearm(u, expired, now), a) {
        PendingSkips(u, expired, now, a);
      }
    }
  }

  /** Taking the first d members out of the set leaves it ordered and the others pending. */
  lemma TakenOut(s: State, d: nat, now: nat)
    requires Inv(s) && d <= |s.timers|
    ensures Pending(s.(timers := s.timers[d..], previousTime := now), s.timers[..d])
    ensures forall a :: a in s.timers <==> a in s.timers[..d] || a in s.timers[d..]
  {
    hide Keys, Sorted;
    OrderedSuffix(s, d, now);
    MembersDistinct(s);
    assert s.timers == s.timers[..d] + s.timers[d..];
  }

  lemma OrderedSuffix(s: State, d: nat, now: nat)
    requires Ordered(s) && d <= |s.timers|
    ensures Ordered(s.(timers := s.timers[d..], previousTime := now))
  {
    hide Less;
    assert Keys(s.timers[d..], s.pool) == Keys(s.timers, s.pool)[d..];
  }

  lemma PendingSkips(u: State, expired: seq<nat>, now: nat, a: nat)
    requires Pending(u, expired) && a in u.pool && a !in expired
    ensures Untouched(u, Rearm(u, expired, now), a)
  {
    hide Sorted, Rearm;
    RearmSkips(u, expired, now, a);
  }

  lemma SameZeros(s: State, u: State, expired: seq<nat>, now: nat)
    requires u.pool == s.pool
    ensures TwoZeros(u, expired, now) <==> TwoZeros(s, expired, now)
  {
    assert forall a :: ZeroRearm(u, a, now) <==> ZeroRearm(s, a, now);
  }

  /** What stays in the set is due later than now, so its deadline is not zero. */
  lemma NoZeroLeft(s: State, now: nat, probe: nat)
    requires Inv(s)
    ensures forall b :: b in s.timers[DueCount(s, now, probe)..] ==> s.pool[b].next != 0
  {
    hide Less, Rollover;
    var ks, d := Keys(s.timers, s.pool), DueCount(s, now, probe);
    if ks != [] && !Rollover(s, now) {
      DuePrefix(ks, now, probe);
      forall j | d <= j < |ks| ensures s.pool[s.timers[j]].next != 0 {
        assert ks[j].next == s.pool[s.timers[j]].next;
        if ks[0].next > now { FirstEarliest(ks, j); }
      }
    }
  }

  lemma FirstEarliest(ks: seq<Key>, j: nat)
    requires Sorted(ks) && j < |ks|
    ensures ks[0].next <= ks[j].next
  {
    if j > 0 { assert Less(ks[0], ks[j]); }
  }
}
