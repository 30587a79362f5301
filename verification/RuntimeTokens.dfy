/** How each step of the runtime moves pieces of work between places: the token part of the proofs. */
module RuntimeTokens {
  import opened IoEvents
  import Semaphores
  import opened Runtime

  /** Exactly the work in `gone` stops waiting and exactly the work in `come` starts. */
  ghost predicate Shifted(s: Rt, t: Rt, gone: set<Waiter>, come: set<Waiter>)
  {
    forall x :: Waits(t, x) <==> (Waits(s, x) && x !in gone) || x in come
  }

  lemma SamePlaces(s: Rt, t: Rt)
    requires Unique(s) && forall x, l :: At(t, x, l) <==> At(s, x, l)
    ensures Unique(t) && Shifted(s, t, {}, {})
  {
    hide At;
  }

  lemma NewPlace(s: Rt, t: Rt, x: Waiter, at: Loc)
    requires Unique(s) && !Waits(s, x)
    requires forall y, l :: At(t, y, l) <==> At(s, y, l) || (y == x && l == at)
    ensures Unique(t) && Shifted(s, t, {}, {x})
  {
    hide At;
    assert At(t, x, at);
  }

  lemma LostPlace(s: Rt, t: Rt, x: Waiter, at: Loc)
    requires Unique(s) && At(s, x, at)
    requires forall y, l :: At(t, y, l) <==> At(s, y, l) && l != at
    ensures Unique(t) && Shifted(s, t, {x}, {})
  {
    hide At;
    forall y | Waits(s, y) && y != x ensures Waits(t, y) {
      var l :| At(s, y, l);
      assert l != at by {
        if l == at {
          OnePerPlace(s, x, y, at);
        }
      }
      assert At(t, y, l);
    }
  }

  lemma OnePerPlace(s: Rt, x: Waiter, y: Waiter, l: Loc)
    requires At(s, x, l) && At(s, y, l)
    ensures x == y
  {
  }

  /** Places are renamed by `back` from after to before and `forth` from before to after. */
  lemma Renamed(s: Rt, t: Rt, back: Loc -> Loc, forth: Loc -> Loc)
    requires Unique(s)
    requires forall x, l :: At(t, x, l) ==> At(s, x, back(l)) && forth(back(l)) == l
    requires forall x, l :: At(s, x, l) ==> At(t, x, forth(l))
    ensures Unique(t) && Shifted(s, t, {}, {})
  {
    hide At;
    forall x, l, m | At(t, x, l) && At(t, x, m) ensures l == m {
      assert back(l) == back(m);
    }
    forall x | Waits(s, x) ensures Waits(t, x) {
      var l :| At(s, x, l);
      assert At(t, x, forth(l));
    }
    forall x | Waits(t, x) ensures Waits(s, x) {
      var l :| At(t, x, l);
      assert At(s, x, back(l));
    }
  }

  // ---- the steps ----

  lemma PushPlace(s: Rt, x: Waiter, thread: int)
    requires Unique(s) && !Waits(s, x)
    ensures Unique(Push(s, x, thread)) && Shifted(s, Push(s, x, thread), {}, {x})
  {
    NewPlace(s, Push(s, x, thread), x, InQueue(|s.queue|));
  }

  lemma PickPlace(s: Rt, w: int, i: nat)
    requires Unique(s) && i < |s.queue| && w in s.workers && s.workers[w] == Free
    ensures Unique(Pick(s, w, i)) && Shifted(s, Pick(s, w, i), {}, {})
  {
    var back := (l: Loc) =>
      if l == HeldBy(w) then InQueue(i) else if l.InQueue? && l.i >= i then InQueue(l.i + 1) else l;
    var forth := (l: Loc) =>
      if l == InQueue(i) then HeldBy(w) else if l.InQueue? && l.i > i then InQueue(l.i - 1) else l;
    Renamed(s, Pick(s, w, i), back, forth);
  }

  lemma LetGoPlace(s: Rt, t: Rt, w: int)
    requires Unique(s) && w in s.workers && s.workers[w].Held? && !t.workers[w := Free][w].Held?
    requires t.queue == s.queue && t.io == s.io && t.sems == s.sems
    requires w in t.workers && !t.workers[w].Held? && t.workers == s.workers[w := t.workers[w]]
    ensures Unique(t) && Shifted(s, t, {s.workers[w].task.work}, {})
  {
    LostPlace(s, t, s.workers[w].task.work, HeldBy(w));
  }

  /** Steps that touch neither queue nor slots nor semaphores, and no worker that holds an entry. */
  lemma QuietPlace(s: Rt, t: Rt, w: int)
    requires Unique(s) && t.queue == s.queue && t.io == s.io && t.sems == s.sems
    requires w in s.workers && !s.workers[w].Held? && w in t.workers && !t.workers[w].Held?
    requires t.workers == s.workers[w := t.workers[w]]
    ensures Unique(t) && Shifted(s, t, {}, {})
  {
    SamePlaces(s, t);
  }

  lemma SlotFilled(s: Rt, t: Rt, x: Waiter, fd: nat, ev: Event, ok: bool)
    requires Unique(s) && !Waits(s, x) && WaiterAt(s.io, fd, ev) == None
    requires t.queue == s.queue && t.workers == s.workers && t.sems == s.sems
    requires forall g: nat, e :: WaiterAt(t.io, g, e) == if ok && g == fd && e == ev then Some(x) else WaiterAt(s.io, g, e)
    ensures Unique(t) && Shifted(s, t, {}, if ok then {x} else {})
  {
    hide WaiterAt;
    if ok {
      NewPlace(s, t, x, InSlot(fd, ev));
    } else {
      SamePlaces(s, t);
    }
  }

  lemma SlotDropped(s: Rt, t: Rt, fd: nat, ev: Event, ok: bool)
    requires Unique(s) && (ok ==> WaiterAt(s.io, fd, ev).Some?)
    requires t.queue == s.queue && t.workers == s.workers && t.sems == s.sems
    requires forall g: nat, e :: WaiterAt(t.io, g, e) == if ok && g == fd && e == ev then None else WaiterAt(s.io, g, e)
    ensures Unique(t) && Shifted(s, t, if ok then {WaiterAt(s.io, fd, ev).value} else {}, {})
  {
    hide WaiterAt;
    if ok {
      LostPlace(s, t, WaiterAt(s.io, fd, ev).value, InSlot(fd, ev));
    } else {
      SamePlaces(s, t);
    }
  }

  /** One waiter moves from its slot to the end of the queue. */
  lemma ReleaseOne(s: Rt, io: Io, fd: nat, ev: Event)
    requires Unique(s) && WaiterAt(s.io, fd, ev).Some?
    requires forall g: nat, e :: WaiterAt(io, g, e) == if g == fd && e == ev then None else WaiterAt(s.io, g, e)
    ensures var t := Release(s, io, [WaiterAt(s.io, fd, ev).value]);
            Unique(t) && Shifted(s, t, {}, {})
  {
    hide WaiterAt;
    var n := |s.queue|;
    var back := (l: Loc) => if l == InQueue(n) then InSlot(fd, ev) else l;
    var forth := (l: Loc) => if l == InSlot(fd, ev) then InQueue(n) else l;
    Renamed(s, Release(s, io, [WaiterAt(s.io, fd, ev).value]), back, forth);
  }

  /** cancelEvent, cancelAll and dispatch: the waiters of `gone` move to the end of the queue, each once. */
  lemma ReleasePlace(s: Rt, io: Io, fd: nat, gone: set<Event>)
    requires Unique(s)
    requires forall g: nat, e :: WaiterAt(io, g, e) == if g == fd && e in gone then None else WaiterAt(s.io, g, e)
    ensures var t := Release(s, io, IoEvents.Waiting(s.io, fd, gone));
            Unique(t) && Shifted(s, t, {}, {})
  {
    var r := READ in gone && WaiterAt(s.io, fd, READ).Some?;
    var v := WRITE in gone && WaiterAt(s.io, fd, WRITE).Some?;
    var t := Release(s, io, IoEvents.Waiting(s.io, fd, gone));
    if r && v {
      var half := TriggerIf(s.io, fd, READ, true).0;
      assert forall g: nat, e :: WaiterAt(half, g, e) == if g == fd && e == READ then None else WaiterAt(s.io, g, e);
      ReleaseOne(s, half, fd, READ);
      var u := Release(s, half, [WaiterAt(s.io, fd, READ).value]);
      forall g: nat, e ensures WaiterAt(io, g, e) == if g == fd && e == WRITE then None else WaiterAt(half, g, e) {
        assert e == READ || e == WRITE;
      }
      ReleaseOne(u, io, fd, WRITE);
      assert t == Release(u, io, [WaiterAt(s.io, fd, WRITE).value]);
      ShiftTwice(s, u, t);
    } else if r || v {
      var ev := if r then READ else WRITE;
      forall g: nat, e ensures WaiterAt(io, g, e) == if g == fd && e == ev then None else WaiterAt(s.io, g, e) {
        assert e == READ || e == WRITE;
      }
      assert IoEvents.Waiting(s.io, fd, gone) == [WaiterAt(s.io, fd, ev).value];
      ReleaseOne(s, io, fd, ev);
    } else {
      assert t.queue == s.queue;
      forall g: nat, e ensures WaiterAt(io, g, e) == WaiterAt(s.io, g, e) {
        assert e == READ || e == WRITE;
      }
      SamePlaces(s, t);
    }
  }

  lemma ShiftTwice(s: Rt, u: Rt, t: Rt)
    requires Shifted(s, u, {}, {}) && Shifted(u, t, {}, {})
    ensures Shifted(s, t, {}, {})
  {
    hide Waits;
  }

  lemma SemQueuedPlace(s: Rt, t: Rt, id: nat, f: nat)
    requires Unique(s) && id in s.sems && !Waits(s, WFiber(f))
    requires t.queue == s.queue && t.workers == s.workers && t.io == s.io
    requires t.sems == s.sems[id := s.sems[id].(waiters := s.sems[id].waiters + [f])]
    ensures Unique(t) && Shifted(s, t, {}, {WFiber(f)})
  {
    NewPlace(s, t, WFiber(f), InSem(id, |s.sems[id].waiters|));
  }

  lemma SemCountPlace(s: Rt, t: Rt, id: nat)
    requires Unique(s) && id in s.sems && t.queue == s.queue && t.workers == s.workers && t.io == s.io
    requires id in t.sems && t.sems[id].waiters == s.sems[id].waiters && t.sems == s.sems[id := t.sems[id]]
    ensures Unique(t) && Shifted(s, t, {}, {})
  {
    SamePlaces(s, t);
  }

  lemma SemNotifyPlace(s: Rt, id: nat)
    requires Unique(s) && id in s.sems
    ensures Unique(SemNotify(s, id)) && Shifted(s, SemNotify(s, id), {}, {})
  {
    var t := SemNotify(s, id);
    if s.sems[id].waiters == [] {
      assert t.queue == s.queue;
      SemCountPlace(s, t, id);
    } else {
      var n := |s.queue|;
      var back := (l: Loc) =>
        if l == InQueue(n) then InSem(id, 0) else if l.InSem? && l.id == id && l.i >= 0 then InSem(id, l.i + 1) else l;
      var forth := (l: Loc) =>
        if l == InSem(id, 0) then InQueue(n) else if l.InSem? && l.id == id && l.i > 0 then InSem(id, l.i - 1) else l;
      Renamed(s, t, back, forth);
    }
  }
}
