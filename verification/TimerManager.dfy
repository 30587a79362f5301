/** TimerManager and Timer as objects with fields, each method refining its step of TimerMachine. */
module TimerManagers {
  import opened TimerSet
  import M = TimerMachine

  class Timer {
    const addr: nat
    var recurring: bool
    var ms: nat
    var next: nat
    var cb: M.Option<nat>

    constructor (addr: nat, ms: nat, cb: nat, recurring: bool, now: nat)
      ensures this.addr == addr && Fields() == M.Record(M.Deadline(now, ms), ms, recurring, M.Some(cb))
    {
      this.addr := addr;
      this.recurring := recurring;
      this.ms := ms;
      this.cb := M.Some(cb);
      next := (now + ms) % M.WORD;
    }

    function Fields(): M.Record
      reads this
    {
      M.Record(next, ms, recurring, cb)
    }
  }

  ghost function AddrsOf(ts: seq<Timer>): (s: seq<nat>)
    ensures |s| == |ts| && forall i :: 0 <= i < |ts| ==> s[i] == ts[i].addr
  {
    seq(|ts|, i requires 0 <= i < |ts| => ts[i].addr)
  }

  class TimerManager {
    var timers: seq<Timer>
    var tickled: bool
    var previousTime: nat
    ghost var pool: map<nat, Timer>

    /** Addresses identify timers. */
    ghost predicate Valid()
      reads this`timers, this`pool
    {
      && (forall a :: a in pool ==> pool[a].addr == a)
      && (forall i :: 0 <= i < |timers| ==> timers[i].addr in pool && pool[timers[i].addr] == timers[i])
    }

    ghost function Addrs(): (s: seq<nat>)
      reads this`timers
      ensures |s| == |timers| && forall i :: 0 <= i < |timers| ==> s[i] == timers[i].addr
    {
      AddrsOf(timers)
    }

    ghost function Records(): map<nat, M.Record>
      reads this`pool, pool.Values
    {
      map a | a in pool :: pool[a].Fields()
    }

    /** The state of the machine this manager is in. */
    ghost function Abs(): (s: M.State)
      reads this, pool.Values
      requires Valid()
      ensures M.Known(s)
    {
      M.State(Addrs(), Records(), tickled, previousTime)
    }

    constructor ()
      ensures Valid() && Abs() == M.State([], map[], false, 0) && pool == map[]
    {
      timers := [];
      tickled := false;
      previousTime := 0;
      pool := map[];
    }

    /** m_timers.lower_bound of a key. */
    method LowerBoundOf(k: Key) returns (i: nat)
      requires Valid()
      ensures i == LowerBound(M.Keys(Addrs(), Records()), k)
    {
      ghost var ks := M.Keys(Addrs(), Records());
      i := 0;
      while i < |timers| && Less(Key(timers[i].next, timers[i].addr), k)
        invariant i <= |timers|
        invariant forall j :: 0 <= j < i ==> Less(ks[j], k)
      {
        assert ks[i] == Key(timers[i].next, timers[i].addr);
        i := i + 1;
      }
      LowerBoundUnique(ks, k, i);
    }

    /** m_timers.insert(t); the result is whether the returned iterator is begin(). */
    method InsertTimer(t: Timer) returns (first: bool)
      requires Valid() && t.addr in pool && pool[t.addr] == t
      modifies this`timers
      ensures Valid() && Abs() == M.Insert(old(Abs()), t.addr)
      ensures first == (M.Place(old(Abs()), t.addr) == 0)
    {
      hide M.Keys, Less, LowerBound;
      ghost var ks := M.Keys(Addrs(), Records());
      var i := LowerBoundOf(Key(t.next, t.addr));
      if i < |timers| && !Less(Key(t.next, t.addr), Key(timers[i].next, timers[i].addr)) {
        assert ks[i] == Key(timers[i].next, timers[i].addr);
        return i == 0;
      }
      assert i < |timers| ==> ks[i] == Key(timers[i].next, timers[i].addr);
      ghost var was := Addrs();
      timers := timers[..i] + [t] + timers[i..];
      assert Addrs() == was[..i] + [t.addr] + was[i..];
      first := i == 0;
    }

    /** m_timers.find(t), |timers| standing for end(). */
    method FindTimer(t: Timer) returns (i: nat)
      requires Valid() && t.addr in pool && pool[t.addr] == t
      ensures i <= |timers| && i == Find(M.Keys(Addrs(), Records()), M.KeyOf(Records(), t.addr))
    {
      ghost var ks := M.Keys(Addrs(), Records());
      i := LowerBoundOf(Key(t.next, t.addr));
      assert i < |timers| ==> ks[i] == Key(timers[i].next, timers[i].addr);
      if !(i < |timers| && !Less(Key(t.next, t.addr), Key(timers[i].next, timers[i].addr))) {
        i := |timers|;
      }
    }

    method EraseAt(i: nat, ghost a: nat)
      requires Valid() && a in pool && i < |timers|
      requires i == Find(M.Keys(Addrs(), Records()), M.KeyOf(Records(), a))
      modifies this`timers
      ensures Valid() && Abs() == M.Erase(old(Abs()), a)
    {
      hide M.Keys, Less, LowerBound;
      ghost var was := Addrs();
      timers := timers[..i] + timers[i + 1..];
      assert Addrs() == was[..i] + was[i + 1..];
    }

    /** addTimer(val, lock); the result stands for the call of onTimerInsertedAtFront. */
    method AddToSet(t: Timer) returns (notify: bool)
      requires Valid() && t.addr in pool && pool[t.addr] == t
      modifies this`timers, this`tickled
      ensures Valid() && (Abs(), notify) == M.AddToSet(old(Abs()), t.addr)
    {
      var first := InsertTimer(t);
      notify := first && !tickled;
      if notify {
        tickled := true;
      }
    }

    method AddTimer(addr: nat, ms: nat, cb: nat, recurring: bool, now: nat) returns (t: Timer, notify: bool)
      requires Valid() && addr !in pool
      modifies this`timers, this`tickled, this`pool
      ensures Valid() && fresh(t) && pool == old(pool)[addr := t]
      ensures (Abs(), notify) == M.Add(old(Abs()), addr, ms, cb, recurring, now)
    {
      t := new Timer(addr, ms, cb, recurring, now);
      ghost var was := Records();
      pool := pool[addr := t];
      assert Records() == was[addr := t.Fields()];
      notify := AddToSet(t);
    }

    method GetNextTimer(now: nat) returns (r: M.Option<nat>)
      requires Valid()
      modifies this`tickled
      ensures Valid() && (Abs(), r) == M.Next(old(Abs()), now)
    {
      tickled := false;
      if timers == [] {
        return M.None;
      }
      var first := timers[0];
      assert Records()[Addrs()[0]] == first.Fields();
      r := M.Some(if now >= first.next then 0 else first.next - now);
    }

    method DetectClockRollover(now: nat) returns (rollover: bool)
      modifies this`previousTime
      ensures rollover == M.RolledOver(old(previousTime), now) && previousTime == now
    {
      rollover := false;
      if now < previousTime && now < (previousTime - M.HOUR) % M.WORD {
        rollover := true;
      }
      previousTime := now;
    }

    /** Writes the callback of a timer. */
    method ClearCallback(t: Timer)
      requires Valid() && t.addr in pool && pool[t.addr] == t
      modifies t`cb
      ensures Valid()
      ensures Abs() == old(Abs()).(pool := old(Records())[t.addr := old(t.Fields()).(cb := M.None)])
    {
      ghost var was := Records();
      t.cb := M.None;
      assert Records() == was[t.addr := t.Fields()];
    }

    /** Writes period and deadline of a timer. */
    method SetDeadline(t: Timer, ms: nat, next: nat)
      requires Valid() && t.addr in pool && pool[t.addr] == t
      modifies t`ms, t`next
      ensures Valid()
      ensures Abs() == old(Abs()).(pool := old(Records())[t.addr := old(t.Fields()).(ms := ms, next := next)])
    {
      ghost var was := Records();
      t.ms := ms;
      t.next := next;
      assert Records() == was[t.addr := t.Fields()];
    }

    /** Timer::cancel. The code erases what find returns without a check, so find must not miss. */
    method Cancel(t: Timer) returns (ok: bool)
      requires Valid() && t.addr in pool && pool[t.addr] == t
      requires M.Cancel(Abs(), t.addr).Some?
      modifies this`timers, t`cb
      ensures Valid() && M.Some((Abs(), ok)) == M.Cancel(old(Abs()), t.addr)
    {
      hide M.Keys, Less, LowerBound, Find;
      assert Records()[t.addr] == t.Fields();
      if t.cb.Some? {
        ClearCallback(t);
        var it := FindTimer(t);
        EraseAt(it, t.addr);
        return true;
      }
      return false;
    }

    /** Timer::refresh. */
    method Refresh(t: Timer, now: nat) returns (ok: bool)
      requires Valid() && t.addr in pool && pool[t.addr] == t
      modifies this`timers, t`ms, t`next
      ensures Valid() && (Abs(), ok) == M.Refresh(old(Abs()), t.addr, now)
    {
      hide M.Keys, Less, LowerBound, Find, M.Deadline;
      assert Records()[t.addr] == t.Fields();
      if t.cb.None? {
        return false;
      }
      var it := FindTimer(t);
      if it == |timers| {
        return false;
      }
      EraseAt(it, t.addr);
      SetDeadline(t, t.ms, M.Deadline(now, t.ms));
      var first := InsertTimer(t);
      return true;
    }

    /** Timer::reset. */
    method Reset(t: Timer, ms: nat, fromNow: bool, now: nat) returns (ok: bool, notify: bool)
      requires Valid() && t.addr in pool && pool[t.addr] == t
      modifies this`timers, this`tickled, t`ms, t`next
      ensures Valid() && (Abs(), ok, notify) == M.Reset(old(Abs()), t.addr, ms, fromNow, now)
    {
      hide M.Keys, Less, LowerBound, Find, M.Deadline, M.ResetDeadline, M.AddToSet;
      assert Records()[t.addr] == t.Fields();
      if ms == t.ms && !fromNow {
        return true, false;
      }
      if t.cb.None? {
        return false, false;
      }
      var it := FindTimer(t);
      if it == |timers| {
        return false, false;
      }
      EraseAt(it, t.addr);
      SetDeadline(t, ms, M.ResetDeadline(t.Fields(), ms, fromNow, now));
      notify := AddToSet(t);
      ok := true;
    }

    /** How far the begin of the set is due: lower_bound of the probe, then the loop over equal deadlines. */
    method DueEnd(now: nat, probe: nat) returns (it: nat)
      requires Valid()
      ensures it == SkipEqual(M.Keys(Addrs(), Records()), LowerBound(M.Keys(Addrs(), Records()), Key(now, probe)), now)
    {
      hide M.Keys, Less, LowerBound;
      ghost var ks := M.Keys(Addrs(), Records());
      it := LowerBoundOf(Key(now, probe));
      ghost var start := it;
      assert forall j :: 0 <= j < |timers| ==> ks[j].next == timers[j].next;
      while it < |timers| && timers[it].next == now
        invariant start <= it <= |timers|
        invariant SkipEqual(ks, start, now) == SkipEqual(ks, it, now)
      {
        it := it + 1;
      }
    }

    /** listExpireCb: the callbacks of the listed timers, in order. */
    method ListExpireCb(now: nat, probe: nat) returns (cbs: seq<M.Option<nat>>)
      requires Valid() && M.Ordered(Abs())
      modifies this`timers, this`previousTime, pool.Values
      ensures Valid() && Abs() == M.Expire(old(Abs()), now, probe).0
      ensures cbs == Callbacks(M.Expire(old(Abs()), now, probe).1, old(Records()))
    {
      hide M.Keys, Less, LowerBound, SkipEqual, M.Rearm, Callbacks, M.Ordered;
      CallbacksNone(old(Records()));
      if timers == [] {
        return [];
      }
      ghost var s := Abs();
      DistinctTimers(s);
      var it := CountDue(now, probe);
      var expired := timers[..it];
      assert AddrsOf(expired) == s.timers[..it];
      timers := timers[it..];
      assert Addrs() == s.timers[it..];
      cbs := RearmAll(expired, now);
    }

    /** The part of listExpireCb that decides how many timers are due. */
    method CountDue(now: nat, probe: nat) returns (it: nat)
      requires Valid() && timers != []
      modifies this`previousTime
      ensures it == M.DueCount(old(Abs()), now, probe) && previousTime == now
    {
      hide M.Keys, Less, LowerBound, SkipEqual;
      ghost var s := Abs();
      assert M.Keys(s.timers, s.pool)[0].next == timers[0].next;
      var rollover := DetectClockRollover(now);
      if !rollover && timers[0].next > now {
        return 0;
      }
      it := |timers|;
      if !rollover {
        it := DueEnd(now, probe);
      }
    }

    /** One round of the loop over the expired timers. */
    method RearmTimer(t: Timer, now: nat)
      requires Valid() && t.addr in pool && pool[t.addr] == t
      modifies this`timers, t
      ensures Valid() && Abs() == M.RearmOne(old(Abs()), t.addr, now)
    {
      hide M.Keys, M.Deadline, M.Insert;
      assert Records()[t.addr] == t.Fields();
      if t.recurring {
        SetDeadline(t, t.ms, M.Deadline(now, t.ms));
        var first := InsertTimer(t);
      } else {
        ClearCallback(t);
      }
    }

    /** The loop over the expired timers. */
    method RearmAll(expired: seq<Timer>, now: nat) returns (cbs: seq<M.Option<nat>>)
      requires Valid() && forall i :: 0 <= i < |expired| ==> expired[i].addr in pool && pool[expired[i].addr] == expired[i]
      requires forall i, j :: 0 <= i < j < |expired| ==> expired[i] != expired[j]
      modifies this`timers, pool.Values
      ensures Valid()
      ensures Abs() == M.Rearm(old(Abs()), AddrsOf(expired), now)
      ensures cbs == Callbacks(AddrsOf(expired), old(Records()))
    {
      hide M.Keys, M.RearmOne, M.Rearm, Callbacks;
      ghost var addrs, was := AddrsOf(expired), Records();
      cbs := [];
      var i := 0;
      assert addrs[0..] == addrs;
      CallbacksNone(was);
      while i < |expired|
        invariant 0 <= i <= |expired| && Valid() && Records().Keys == was.Keys
        invariant M.Rearm(Abs(), addrs[i..], now) == M.Rearm(old(Abs()), addrs, now)
        invariant cbs + Callbacks(addrs[i..], was) == Callbacks(addrs, was)
        invariant forall j :: i <= j < |expired| ==> expired[j].Fields() == was[addrs[j]]
      {
        RearmFirst(Abs(), addrs[i..], now);
        CallbacksFirst(addrs[i..], was);
        assert addrs[i..][1..] == addrs[i + 1..];
        var t := expired[i];
        cbs := cbs + [t.cb];
        RearmTimer(t, now);
        i := i + 1;
      }
      RearmNone(Abs(), now);
      CallbacksNone(was);
    }
  }

  lemma DistinctTimers(s: M.State)
    requires M.Ordered(s)
    ensures forall i, j :: 0 <= i < j < |s.timers| ==> s.timers[i] != s.timers[j]
  {
    M.MembersDistinct(s);
  }

  lemma RearmFirst(s: M.State, addrs: seq<nat>, now: nat)
    requires M.Known(s) && addrs != [] && forall i :: 0 <= i < |addrs| ==> addrs[i] in s.pool
    ensures M.Rearm(s, addrs, now) == M.Rearm(M.RearmOne(s, addrs[0], now), addrs[1..], now)
  {
  }

  lemma CallbacksFirst(addrs: seq<nat>, pool: map<nat, M.Record>)
    requires addrs != [] && forall i :: 0 <= i < |addrs| ==> addrs[i] in pool
    ensures Callbacks(addrs, pool) == [pool[addrs[0]].cb] + Callbacks(addrs[1..], pool)
  {
  }

  /** The callbacks of a list of timers. */
  ghost function Callbacks(ts: seq<nat>, pool: map<nat, M.Record>): seq<M.Option<nat>>
    requires forall i :: 0 <= i < |ts| ==> ts[i] in pool
  {
    if ts == [] then [] else [pool[ts[0]].cb] + Callbacks(ts[1..], pool)
  }

  lemma CallbacksNone(pool: map<nat, M.Record>)
    ensures Callbacks([], pool) == []
  {
  }

  lemma RearmNone(s: M.State, now: nat)
    requires M.Known(s)
    ensures M.Rearm(s, [], now) == s
  {
  }

  lemma {:induction false} LowerBoundUnique(ks: seq<Key>, k: Key, i: nat)
    requires i <= |ks| && (forall j :: 0 <= j < i ==> Less(ks[j], k)) && (i < |ks| ==> !Less(ks[i], k))
    ensures LowerBound(ks, k) == i
  {
  }
}
