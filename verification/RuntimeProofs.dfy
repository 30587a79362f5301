/** Every step of the runtime keeps the invariant. */
module RuntimeProofs {
  import opened IoEvents
  import Semaphores
  import opened Runtime
  import opened RuntimeTokens

  // ---- the parts of the invariant under a change of one worker, one fiber, one callback ----

  /** One worker becomes busy or free. */
  lemma BusyCount(s: Rt, t: Rt, w: int)
    requires w in s.workers && w in t.workers && t.workers == s.workers[w := t.workers[w]]
    ensures |Busy(t)| - |Busy(s)| ==
            (if t.workers[w] == Free then 0 else 1) - (if s.workers[w] == Free then 0 else 1)
  {
    var rest := Busy(s) - {w};
    assert Busy(s) == if s.workers[w] == Free then rest else rest + {w};
    assert Busy(t) == if t.workers[w] == Free then rest else rest + {w};
  }

  lemma SameBusy(s: Rt, t: Rt)
    requires t.workers == s.workers
    ensures Busy(t) == Busy(s)
  {
  }

  lemma ExecutionSame(s: Rt, t: Rt)
    requires Execution(s) && forall f, w :: Runs(t, f, w) <==> Runs(s, f, w)
    requires forall f :: f in t.fibers && t.fibers[f] == EXEC <==> f in s.fibers && s.fibers[f] == EXEC
    ensures Execution(t)
  {
    hide Runs;
  }

  lemma ExecutionStart(s: Rt, t: Rt, w: int, f: nat)
    requires Execution(s) && !(f in s.fibers && s.fibers[f] == EXEC) && t.fibers == s.fibers[f := EXEC]
    requires forall g, v :: Runs(t, g, v) <==> Runs(s, g, v) || (g == f && v == w)
    ensures Execution(t)
  {
    hide Runs;
    assert Runs(t, f, w);
  }

  lemma ExecutionStop(s: Rt, t: Rt, w: int, f: nat)
    requires Execution(s) && Runs(s, f, w) && f in t.fibers && t.fibers[f] != EXEC
    requires t.fibers == s.fibers[f := t.fibers[f]]
    requires forall g, v :: Runs(t, g, v) <==> Runs(s, g, v) && v != w
    ensures Execution(t)
  {
    assert forall g :: Runs(s, g, w) ==> g == f;
    hide Runs;
    forall g | g in t.fibers && t.fibers[g] == EXEC ensures exists v :: Runs(t, g, v) {
      var v :| Runs(s, g, v);
      assert Runs(t, g, v);
    }
  }

  /** Nothing FiberOk looks at changed for fiber f. */
  ghost predicate SameFiber(s: Rt, t: Rt, f: nat)
  {
    && (f in t.fibers <==> f in s.fibers) && (f in s.fibers ==> t.fibers[f] == s.fibers[f])
    && (f in t.registered <==> f in s.registered)
    && (Waits(t, WFiber(f)) <==> Waits(s, WFiber(f)))
    && (WFiber(f) in t.dropped <==> WFiber(f) in s.dropped)
    && (Kept(s, f) ==> Kept(t, f))
  }

  lemma FibersSame(s: Rt, t: Rt, f: nat)
    requires (forall g :: FiberOk(s, g)) && FiberOk(t, f)
    requires forall g :: g != f ==> SameFiber(s, t, g)
    ensures forall g :: FiberOk(t, g)
  {
    hide Waits, Kept;
    forall g ensures FiberOk(t, g) {
      assert FiberOk(s, g) && (g != f ==> SameFiber(s, t, g));
    }
  }

  ghost predicate SameCallback(s: Rt, t: Rt, c: nat)
  {
    && (c in t.issued <==> c in s.issued)
    && (Waits(t, WCallback(c)) <==> Waits(s, WCallback(c)))
    && (Hosted(t, c) <==> Hosted(s, c))
    && (WCallback(c) in t.finished <==> WCallback(c) in s.finished)
    && (WCallback(c) in t.dropped <==> WCallback(c) in s.dropped)
  }

  lemma CallbacksSame(s: Rt, t: Rt, c: nat)
    requires (forall d :: CallbackOk(s, d)) && CallbackOk(t, c)
    requires forall d :: d != c ==> SameCallback(s, t, d)
    ensures forall d :: CallbackOk(t, d)
  {
    hide Waits, Hosted;
    forall d ensures CallbackOk(t, d) {
      assert CallbackOk(s, d) && (d != c ==> SameCallback(s, t, d));
    }
  }

  lemma HostedSame(s: Rt, t: Rt)
    requires t.host == s.host
    ensures forall c :: Hosted(t, c) <==> Hosted(s, c)
  {
    forall c ensures Hosted(t, c) <==> Hosted(s, c) {
      if Hosted(s, c) { var f :| HostedBy(s, c, f); assert HostedBy(t, c, f); }
      if Hosted(t, c) { var f :| HostedBy(t, c, f); assert HostedBy(s, c, f); }
    }
  }

  lemma KeptSame(s: Rt, t: Rt)
    requires t.cbFiber == s.cbFiber
    ensures forall f :: Kept(t, f) <==> Kept(s, f)
  {
    forall f ensures Kept(t, f) <==> Kept(s, f) {
      if Kept(s, f) { var w :| KeptBy(s, f, w); assert KeptBy(t, f, w); }
      if Kept(t, f) { var w :| KeptBy(t, f, w); assert KeptBy(s, f, w); }
    }
  }

  /** Nothing KeepOk looks at changed for worker w. */
  ghost predicate SameKeep(s: Rt, t: Rt, w: int)
  {
    && (w in t.cbFiber <==> w in s.cbFiber) && (w in s.cbFiber ==> t.cbFiber[w] == s.cbFiber[w])
    && (w in t.workers <==> w in s.workers) && (w in s.workers ==> t.workers[w] == s.workers[w])
    && (w in s.cbFiber && s.cbFiber[w] in s.fibers && s.fibers[s.cbFiber[w]] == INIT
          && !Waits(s, WFiber(s.cbFiber[w])) && s.cbFiber[w] !in s.host && WFiber(s.cbFiber[w]) !in s.dropped ==>
        s.cbFiber[w] in t.fibers && t.fibers[s.cbFiber[w]] == INIT
          && !Waits(t, WFiber(s.cbFiber[w])) && s.cbFiber[w] !in t.host && WFiber(s.cbFiber[w]) !in t.dropped)
    && (w in s.cbFiber && s.cbFiber[w] in s.fibers ==> s.cbFiber[w] in t.fibers)
  }

  lemma QueuedWaits(s: Rt, i: nat)
    requires i < |s.queue|
    ensures Waits(s, s.queue[i].work)
  {
    assert At(s, s.queue[i].work, InQueue(i));
  }

  /** What waits in one place does not wait in another. */
  lemma NotAlso(s: Rt, x: Waiter, l: Loc, m: Loc)
    requires Unique(s) && At(s, x, l) && l != m
    ensures !At(s, x, m)
  {
    hide At;
  }

  lemma HeldWaits(s: Rt, w: int)
    requires w in s.workers && s.workers[w].Held?
    ensures Waits(s, s.workers[w].task.work)
  {
    assert At(s, s.workers[w].task.work, HeldBy(w));
  }

  /** Places do not depend on fiber states, flags or ledgers. */
  lemma SamePlacesFibers(s: Rt, t: Rt)
    requires Unique(s) && t.queue == s.queue && t.workers == s.workers && t.io == s.io && t.sems == s.sems
    ensures Unique(t) && forall x :: Waits(t, x) <==> Waits(s, x)
  {
    SamePlaces(s, t);
  }

  // ---- the steps ----

  lemma SubmitFiberKeeps(s: Rt, f: nat, thread: int)
    requires RtInv(s) && f !in s.fibers
    ensures RtInv(SubmitFiber(s, f, thread))
  {
    hide At, Waits, IoEvents.Inv, Kept, Hosted, Busy, Unique, CallbackOk;
    var u, t := s.(fibers := s.fibers[f := INIT]), SubmitFiber(s, f, thread);
    SamePlacesFibers(s, u);
    assert FiberOk(s, f);
    PushPlace(u, WFiber(f), thread);
    SameBusy(s, t);
    KeptSame(s, t);
    HostedSame(s, t);
    ExecutionSame(s, t);
    FibersSame(s, t, f);
    forall w ensures KeepOk(t, w) { assert KeepOk(s, w); }
    UnchangedCallbacks(s, t);
  }

  lemma UnchangedCallbacks(s: Rt, t: Rt)
    requires (forall c :: CallbackOk(s, c)) && forall c :: SameCallback(s, t, c)
    ensures forall c :: CallbackOk(t, c)
  {
    hide Waits, Hosted;
    forall c ensures CallbackOk(t, c) {
      assert CallbackOk(s, c) && SameCallback(s, t, c);
    }
  }

  lemma SubmitCallbackKeeps(s: Rt, c: nat, thread: int)
    requires RtInv(s) && c !in s.issued
    ensures RtInv(SubmitCallback(s, c, thread))
  {
    hide At, Waits, IoEvents.Inv, Kept, Hosted, Busy, Unique;
    var u, t := s.(issued := s.issued + {c}), SubmitCallback(s, c, thread);
    SamePlacesFibers(s, u);
    assert CallbackOk(s, c);
    PushPlace(u, WCallback(c), thread);
    SameBusy(s, t);
    KeptSame(s, t);
    HostedSame(s, t);
    ExecutionSame(s, t);
    UnchangedFibers(s, t);
    UnchangedKeeps(s, t);
    CallbacksSame(s, t, c);
  }

  lemma UnchangedFibers(s: Rt, t: Rt)
    requires (forall f :: FiberOk(s, f)) && forall f :: SameFiber(s, t, f)
    ensures forall f :: FiberOk(t, f)
  {
    hide Waits, Kept;
    forall f ensures FiberOk(t, f) {
      assert FiberOk(s, f) && SameFiber(s, t, f);
    }
  }

  lemma UnchangedKeeps(s: Rt, t: Rt)
    requires (forall w :: KeepOk(s, w)) && forall w :: SameKeep(s, t, w)
    ensures forall w :: KeepOk(t, w)
  {
    hide Waits;
    forall w ensures KeepOk(t, w) {
      assert KeepOk(s, w) && SameKeep(s, t, w);
    }
  }

  lemma PickKeeps(s: Rt, w: int, i: nat)
    requires RtInv(s) && w in s.workers && s.workers[w] == Free && FirstEligible(s, w, i)
    ensures RtInv(Pick(s, w, i))
  {
    hide At, Waits, IoEvents.Inv, Kept, Hosted, Busy, Unique, CallbackOk;
    var t := Pick(s, w, i);
    PickPlace(s, w, i);
    QueuedWaits(s, i);
    BusyCount(s, t, w);
    KeptSame(s, t);
    HostedSame(s, t);
    ExecutionSame(s, t);
    var x := s.queue[i].work;
    if x.WFiber? { assert FiberOk(s, x.f); }
    UnchangedFibers(s, t);
    forall v ensures KeepOk(t, v) { assert KeepOk(s, v); }
    UnchangedCallbacks(s, t);
  }

  lemma SwapInKeeps(s: Rt, w: int)
    requires RtInv(s) && w in s.workers && s.workers[w].Held? && s.workers[w].task.work.WFiber?
    ensures RtInv(SwapIn(s, w))
  {
    hide At, Waits, IoEvents.Inv, Kept, Hosted, Busy, Unique, CallbackOk;
    var t, f := SwapIn(s, w), s.workers[w].task.work.f;
    LetGoPlace(s, t, w);
    HeldWaits(s, w);
    BusyCount(s, t, w);
    KeptSame(s, t);
    HostedSame(s, t);
    assert FiberOk(s, f);
    ExecutionStart(s, t, w, f);
    FibersSame(s, t, f);
    forall v ensures KeepOk(t, v) { assert KeepOk(s, v); }
    UnchangedCallbacks(s, t);
    HeldElsewhere(s, w);
  }

  /** A held entry is held by one worker only. */
  lemma HeldElsewhere(s: Rt, w: int)
    requires Unique(s) && w in s.workers && s.workers[w].Held?
    ensures forall v :: v in s.workers && v != w && s.workers[v].Held? ==> s.workers[v].task.work != s.workers[w].task.work
  {
    forall v | v in s.workers && v != w && s.workers[v].Held? ensures s.workers[v].task.work != s.workers[w].task.work {
      assert At(s, s.workers[w].task.work, HeldBy(w)) && At(s, s.workers[v].task.work, HeldBy(v));
    }
  }

  /** The fiber a callback will run in is idle: it does not execute, waits nowhere and hosts nothing. */
  lemma CallbackFiberIdle(s: Rt, w: int, g: nat)
    requires RtInv(s) && w in s.workers && s.workers[w].Held? && s.workers[w].task.work.WCallback?
    requires w !in s.cbFiber ==> g !in s.fibers
    ensures var f := StartCallback(s, w, g).workers[w].f;
            && !(f in s.fibers && s.fibers[f] != INIT) && !Waits(s, WFiber(f)) && f !in s.host && f !in s.registered
            && WFiber(f) !in s.dropped && (forall v :: v != w && v in s.cbFiber ==> s.cbFiber[v] != f)
  {
    hide At, Waits, IoEvents.Inv, Kept, Hosted, Busy, Unique, Execution, CallbackOk;
    assert KeepOk(s, w);
    assert FiberOk(s, StartCallback(s, w, g).workers[w].f);
    forall v | v in s.cbFiber ensures s.cbFiber[v] in s.fibers { assert KeepOk(s, v); }
  }

  lemma StartCallbackKeeps(s: Rt, w: int, g: nat)
    requires RtInv(s) && w in s.workers && s.workers[w].Held? && s.workers[w].task.work.WCallback?
    requires w !in s.cbFiber ==> g !in s.fibers
    ensures RtInv(StartCallback(s, w, g))
  {
    hide At, Waits, IoEvents.Inv, Kept, Hosted, Busy, Unique, Execution;
    var t, c := StartCallback(s, w, g), s.workers[w].task.work.c;
    var f := t.workers[w].f;
    LetGoPlace(s, t, w);
    HeldWaits(s, w);
    BusyCount(s, t, w);
    CallbackFiberIdle(s, w, g);
    ExecutionStart(s, t, w, f);
    KeptGrows(s, t, w);
    FibersSame(s, t, f);
    HostStarts(s, t, c, f);
    assert CallbackOk(s, c);
    CallbacksSame(s, t, c);
    forall v ensures KeepOk(t, v) { assert KeepOk(s, v); }
    AllHeldWait(s);
    NotHosted(s, c);
  }

  lemma NotHosted(s: Rt, c: nat)
    requires !Hosted(s, c)
    ensures forall f :: f in s.host ==> s.host[f] != c
  {
    forall f | f in s.host ensures s.host[f] != c {
      assert HostedBy(s, s.host[f], f);
    }
  }

  lemma AllHeldWait(s: Rt)
    ensures forall v :: v in s.workers && s.workers[v].Held? ==> Waits(s, s.workers[v].task.work)
  {
    forall v | v in s.workers && s.workers[v].Held? ensures Waits(s, s.workers[v].task.work) {
      HeldWaits(s, v);
    }
  }

  lemma KeptGrows(s: Rt, t: Rt, w: int)
    requires w in t.cbFiber && t.cbFiber == s.cbFiber[w := t.cbFiber[w]] && (w in s.cbFiber ==> s.cbFiber[w] == t.cbFiber[w])
    ensures forall f :: Kept(s, f) ==> Kept(t, f)
  {
    forall f | Kept(s, f) ensures Kept(t, f) {
      var v :| KeptBy(s, f, v);
      assert KeptBy(t, f, v);
    }
  }

  lemma HostStarts(s: Rt, t: Rt, c: nat, f: nat)
    requires f !in s.host && t.host == s.host[f := c]
    ensures forall d :: Hosted(t, d) <==> Hosted(s, d) || d == c
  {
    assert HostedBy(t, c, f);
    forall d ensures Hosted(t, d) <==> Hosted(s, d) || d == c {
      if Hosted(s, d) { var g :| HostedBy(s, d, g); assert HostedBy(t, d, g); }
      if Hosted(t, d) && d != c { var g :| HostedBy(t, d, g); assert HostedBy(s, d, g); }
    }
  }

  /** The worker w gives up the fiber it ran: counters and execution, for all three ways of stopping. */
  lemma Stopped(s: Rt, t: Rt, w: int)
    requires Unique(s) && Execution(s) && w in s.workers && s.workers[w].Running?
    requires t.workers == s.workers[w := Free] && t.active == s.active - 1 && s.active == |Busy(s)|
    requires var f := s.workers[w].f;
             f in t.fibers && t.fibers[f] != EXEC && t.fibers == s.fibers[f := t.fibers[f]]
    ensures Execution(t) && t.active == |Busy(t)|
    ensures s.workers[w].f in s.fibers && s.fibers[s.workers[w].f] == EXEC
    ensures forall v :: v != w && v in s.workers && s.workers[v].Running? ==> s.workers[v].f != s.workers[w].f
  {
    var f := s.workers[w].f;
    assert Runs(s, f, w);
    BusyCount(s, t, w);
    forall g, v ensures Runs(t, g, v) <==> Runs(s, g, v) && v != w {}
    ExecutionStop(s, t, w, f);
    forall v | v != w && v in s.workers && s.workers[v].Running? ensures s.workers[v].f != f {
      assert Runs(s, s.workers[v].f, v);
    }
  }

  lemma YieldHoldKeeps(s: Rt, w: int)
    requires RtInv(s) && w in s.workers && s.workers[w].Running? && s.workers[w].f in s.registered
    ensures RtInv(YieldHold(s, w))
  {
    hide At, Waits, IoEvents.Inv, Kept, Hosted, Busy, Unique, CallbackOk, Execution;
    var t, f := YieldHold(s, w), s.workers[w].f;
    QuietPlace(s, t, w);
    Stopped(s, t, w);
    HostedSame(s, t);
    UnchangedCallbacks(s, t);
    assert FiberOk(s, f) && KeepOk(s, w);
    KeptShrinks(s, t, w, f);
    FibersSame(s, t, f);
    forall v ensures KeepOk(t, v) { assert KeepOk(s, v); }
    AllHeldWait(s);
  }

  /** Only fiber f stops being kept, if any. */
  lemma KeptShrinks(s: Rt, t: Rt, w: int, f: nat)
    requires t.cbFiber == s.cbFiber || t.cbFiber == s.cbFiber - {w}
    requires t.cbFiber != s.cbFiber && w in s.cbFiber ==> s.cbFiber[w] == f
    ensures forall g :: g != f && Kept(s, g) ==> Kept(t, g)
  {
    forall g | g != f && Kept(s, g) ensures Kept(t, g) {
      var v :| KeptBy(s, g, v);
      assert KeptBy(t, g, v);
    }
  }

  lemma YieldReadyKeeps(s: Rt, w: int)
    requires RtInv(s) && w in s.workers && s.workers[w].Running? && s.workers[w].f !in s.registered
    requires !s.workers[w].viaCb
    ensures RtInv(YieldReady(s, w))
  {
    hide At, Waits, IoEvents.Inv, Kept, Hosted, Busy, Unique, CallbackOk, Execution;
    var f := s.workers[w].f;
    var u := s.(fibers := s.fibers[f := READY], workers := s.workers[w := Free], active := s.active - 1);
    var t := YieldReady(s, w);
    QuietPlace(s, u, w);
    Stopped(s, u, w);
    assert FiberOk(s, f) && KeepOk(s, w);
    PushPlace(u, WFiber(f), -1);
    SameRunning(u, t);
    HostedSame(s, t);
    UnchangedCallbacks(s, t);
    KeptSame(s, t);
    FibersSame(s, t, f);
    forall v ensures KeepOk(t, v) { assert KeepOk(s, v); }
    AllHeldWait(s);
  }

  lemma SameRunning(u: Rt, t: Rt)
    requires Execution(u) && u.active == |Busy(u)| && t.workers == u.workers && t.fibers == u.fibers && t.active == u.active
    ensures Execution(t) && t.active == |Busy(t)|
  {
    SameBusy(u, t);
    forall f, w ensures Runs(t, f, w) <==> Runs(u, f, w) {}
    ExecutionSame(u, t);
  }

  lemma FinishKeeps(s: Rt, w: int, ok: bool)
    requires RtInv(s) && w in s.workers && s.workers[w].Running? && s.workers[w].f !in s.registered
    ensures RtInv(Finish(s, w, ok))
  {
    hide At, Waits, IoEvents.Inv, Kept, Hosted, Busy, Unique, Execution;
    var t, f := Finish(s, w, ok), s.workers[w].f;
    QuietPlace(s, t, w);
    Stopped(s, t, w);
    assert FiberOk(s, f) && KeepOk(s, w);
    KeptSame(s, t);
    KeptHere(s, w);
    FibersSame(s, t, f);
    forall v ensures KeepOk(t, v) { assert KeepOk(s, v); }
    AllHeldWait(s);
    HostEnds(s, t, f);
    if f in s.host {
      assert CallbackOk(s, s.host[f]);
      CallbacksSame(s, t, s.host[f]);
    } else {
      UnchangedCallbacks(s, t);
    }
  }

  lemma KeptHere(s: Rt, w: int)
    ensures w in s.cbFiber ==> Kept(s, s.cbFiber[w])
  {
    if w in s.cbFiber {
      assert KeptBy(s, s.cbFiber[w], w);
    }
  }

  lemma HostEnds(s: Rt, t: Rt, f: nat)
    requires OwnHosts(s) && t.host == s.host - {f}
    ensures forall d :: Hosted(t, d) <==> Hosted(s, d) && !(f in s.host && d == s.host[f])
    ensures f in s.host ==> Hosted(s, s.host[f])
  {
    if f in s.host { assert HostedBy(s, s.host[f], f); }
    forall d ensures Hosted(t, d) <==> Hosted(s, d) && !(f in s.host && d == s.host[f]) {
      if Hosted(s, d) { var g :| HostedBy(s, d, g); assert g != f ==> HostedBy(t, d, g); }
      if Hosted(t, d) { var g :| HostedBy(t, d, g); assert HostedBy(s, d, g); }
    }
  }

  /** Steps that change only places, the slots, semaphores and ledgers, not workers or fiber states. */
  ghost predicate SameMachine(s: Rt, t: Rt)
  {
    && t.fibers == s.fibers && t.workers == s.workers && t.cbFiber == s.cbFiber && t.active == s.active
    && t.host == s.host
  }

  lemma MachineKeeps(s: Rt, t: Rt)
    requires RtInv(s) && SameMachine(s, t)
    ensures Execution(t) && HeldAsleep(t) && OwnKeeps(t) && OwnHosts(t) && Pinned(t) && t.active == |Busy(t)|
    ensures forall c :: Hosted(t, c) <==> Hosted(s, c)
    ensures forall f :: Kept(t, f) <==> Kept(s, f)
  {
    hide At, Waits;
    SameRunning(s, t);
    HostedSame(s, t);
    KeptSame(s, t);
  }

  lemma RegisterFiberKeeps(s: Rt, w: int, fd: nat, ev: Event, kernel: bool)
    requires RtInv(s) && w in s.workers && s.workers[w].Running? && s.workers[w].f !in s.registered
    requires WaiterAt(s.io, fd, ev) == None
    ensures fd < |Covered(s.io, fd).ctxs| && ev !in Covered(s.io, fd).ctxs[fd].events
    ensures RtInv(RegisterFiber(s, w, fd, ev, kernel))
  {
    hide At, Waits, IoEvents.Inv, Kept, Hosted, Busy, Unique, CallbackOk, Execution, WaiterAt, AddEvent, Covered;
    var f := s.workers[w].f;
    AddEventKeeps(s.io, fd, ev, WFiber(f), kernel);
    var t := RegisterFiber(s, w, fd, ev, kernel);
    RunningExec(s, w);
    assert FiberOk(s, f) && KeepOk(s, w);
    SlotFilled(s, t, WFiber(f), fd, ev, kernel);
    MachineKeeps(s, t);
    FibersSame(s, t, f);
    forall v ensures KeepOk(t, v) { assert KeepOk(s, v); }
    UnchangedCallbacks(s, t);
  }

  lemma RunningExec(s: Rt, w: int)
    requires Execution(s) && w in s.workers && s.workers[w].Running?
    ensures s.workers[w].f in s.fibers && s.fibers[s.workers[w].f] == EXEC
  {
    assert Runs(s, s.workers[w].f, w);
  }

  lemma RegisterCallbackKeeps(s: Rt, c: nat, fd: nat, ev: Event, kernel: bool)
    requires RtInv(s) && c !in s.issued && WaiterAt(s.io, fd, ev) == None
    ensures fd < |Covered(s.io, fd).ctxs| && ev !in Covered(s.io, fd).ctxs[fd].events
    ensures RtInv(RegisterCallback(s, c, fd, ev, kernel))
  {
    hide At, Waits, IoEvents.Inv, Kept, Hosted, Busy, Unique, Execution, WaiterAt, AddEvent, Covered;
    AddEventKeeps(s.io, fd, ev, WCallback(c), kernel);
    var t := RegisterCallback(s, c, fd, ev, kernel);
    assert CallbackOk(s, c);
    SlotFilled(s, t, WCallback(c), fd, ev, kernel);
    MachineKeeps(s, t);
    UnchangedFibers(s, t);
    UnchangedKeeps(s, t);
    CallbacksSame(s, t, c);
  }

  lemma DropEventKeeps(s: Rt, fd: nat, ev: Event, kernel: bool)
    requires RtInv(s) && fd < |s.io.ctxs|
    ensures RtInv(DropEvent(s, fd, ev, kernel))
  {
    hide At, Waits, IoEvents.Inv, Kept, Hosted, Busy, Unique, Execution, WaiterAt, DelEvent;
    DelEventKeeps(s.io, fd, ev, kernel);
    var t := DropEvent(s, fd, ev, kernel);
    var ok := DelEvent(s.io, fd, ev, kernel).1;
    SlotDropped(s, t, fd, ev, ok);
    MachineKeeps(s, t);
    if ok { SlotWaits(s, fd, ev); }
    forall v ensures KeepOk(t, v) { assert KeepOk(s, v); }
    if ok {
      var x := WaiterAt(s.io, fd, ev).value;
      if x.WFiber? {
        assert FiberOk(s, x.f);
        FibersSame(s, t, x.f);
        UnchangedCallbacks(s, t);
      } else {
        assert CallbackOk(s, x.c);
        UnchangedFibers(s, t);
        CallbacksSame(s, t, x.c);
      }
    } else {
      UnchangedFibers(s, t);
      UnchangedCallbacks(s, t);
    }
  }

  lemma SlotWaits(s: Rt, fd: nat, ev: Event)
    requires WaiterAt(s.io, fd, ev).Some?
    ensures Waits(s, WaiterAt(s.io, fd, ev).value)
  {
    assert At(s, WaiterAt(s.io, fd, ev).value, InSlot(fd, ev));
  }

  /** Work that only changes its place: the common end of cancel, dispatch and notify. */
  lemma MovedKeeps(s: Rt, t: Rt)
    requires RtInv(s) && SameMachine(s, t) && Unique(t) && Shifted(s, t, {}, {}) && IoEvents.Inv(t.io)
    requires t.registered == s.registered && t.issued == s.issued && t.finished == s.finished && t.dropped == s.dropped
    ensures RtInv(t)
  {
    hide At, Waits, IoEvents.Inv, Kept, Hosted, Busy, Unique, Execution, CallbackOk;
    MachineKeeps(s, t);
    UnchangedFibers(s, t);
    UnchangedKeeps(s, t);
    UnchangedCallbacks(s, t);
  }

  lemma CancelEventStep(s: Rt, fd: nat, ev: Event, kernel: bool)
    requires RtInv(s) && fd < |s.io.ctxs|
    ensures var (io, _, ws) := CancelEvent(s.io, fd, ev, kernel); RtInv(Release(s, io, ws))
  {
    hide RtInv, IoEvents.Inv, WaiterAt, CancelEvent, At, Waits;
    RtParts(s);
    CancelEventKeeps(s.io, fd, ev, kernel);
    var (io, ok, ws) := CancelEvent(s.io, fd, ev, kernel);
    ReleasePlace(s, io, fd, if ok then {ev} else {});
    SingleWaiting(s.io, fd, ev, ok);
    MovedKeeps(s, Release(s, io, ws));
  }

  lemma SingleWaiting(io: Io, fd: nat, ev: Event, ok: bool)
    requires ok ==> WaiterAt(io, fd, ev).Some?
    ensures IoEvents.Waiting(io, fd, if ok then {ev} else {}) == if ok then [WaiterAt(io, fd, ev).value] else []
  {
  }

  lemma RtParts(s: Rt)
    requires RtInv(s)
    ensures Unique(s) && IoEvents.Inv(s.io)
  {
  }

  lemma CancelAllStep(s: Rt, fd: nat, kernel: bool)
    requires RtInv(s) && fd < |s.io.ctxs|
    ensures var (io, _, ws) := CancelAll(s.io, fd, kernel); RtInv(Release(s, io, ws))
  {
    hide RtInv, IoEvents.Inv, WaiterAt, CancelAll, At, Waits, IoEvents.Waiting;
    RtParts(s);
    CancelAllKeeps(s.io, fd, kernel);
    var (io, ok, ws) := CancelAll(s.io, fd, kernel);
    NoneWaiting(s.io, fd);
    var gone := if ok then {READ, WRITE} else {};
    forall g: nat, e ensures WaiterAt(io, g, e) == if g == fd && e in gone then None else WaiterAt(s.io, g, e) {
      assert e == READ || e == WRITE;
    }
    ReleasePlace(s, io, fd, gone);
    MovedKeeps(s, Release(s, io, ws));
  }

  lemma NoneWaiting(io: Io, fd: nat)
    ensures IoEvents.Waiting(io, fd, {}) == []
  {
  }

  lemma DispatchStep(s: Rt, fd: nat, reported: set<Event>, failed: bool, kernel: bool)
    requires RtInv(s) && fd < |s.io.ctxs| && DispatchSafe(s.io, fd, reported, failed, kernel)
    ensures var (io, ws) := Dispatch(s.io, fd, reported, failed, kernel); RtInv(Release(s, io, ws))
  {
    hide RtInv, IoEvents.Inv, WaiterAt, Dispatch, At, Waits, IoEvents.Waiting;
    RtParts(s);
    DispatchKeeps(s.io, fd, reported, failed, kernel);
    var (io, ws) := Dispatch(s.io, fd, reported, failed, kernel);
    ReleasePlace(s, io, fd, if kernel then RealEvents(reported, failed, s.io.ctxs[fd]) * s.io.ctxs[fd].events else {});
    MovedKeeps(s, Release(s, io, ws));
  }

  lemma SemWaitKeeps(s: Rt, w: int, id: nat)
    requires RtInv(s) && w in s.workers && s.workers[w].Running? && s.workers[w].f !in s.registered && id in s.sems
    ensures RtInv(SemWait(s, w, id))
  {
    hide At, Waits, IoEvents.Inv, Kept, Hosted, Busy, Unique, CallbackOk, Execution;
    var t, f := SemWait(s, w, id), s.workers[w].f;
    if s.sems[id].count > 0 {
      SemCountPlace(s, t, id);
      MovedKeeps(s, t);
    } else {
      RunningExec(s, w);
      assert FiberOk(s, f) && KeepOk(s, w);
      SemQueuedPlace(s, t, id, f);
      MachineKeeps(s, t);
      FibersSame(s, t, f);
      forall v ensures KeepOk(t, v) { assert KeepOk(s, v); }
      UnchangedCallbacks(s, t);
    }
  }

  lemma SemTryWaitKeeps(s: Rt, id: nat)
    requires RtInv(s) && id in s.sems
    ensures RtInv(SemTryWait(s, id))
  {
    hide At, Waits, IoEvents.Inv, Kept, Hosted, Busy, Unique, CallbackOk, Execution, FiberOk, KeepOk;
    var t := SemTryWait(s, id);
    SemCountPlace(s, t, id);
    MovedKeeps(s, t);
  }

  lemma SemNotifyKeeps(s: Rt, id: nat)
    requires RtInv(s) && id in s.sems
    ensures RtInv(SemNotify(s, id))
  {
    hide At, Waits, IoEvents.Inv, Kept, Hosted, Busy, Unique, CallbackOk, Execution, FiberOk, KeepOk;
    SemNotifyPlace(s, id);
    MovedKeeps(s, SemNotify(s, id));
  }
}
