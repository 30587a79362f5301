/** What a call was asked for is what it does: a call keeps the descriptor, event and timeout flag it was begun with, and a
    call without a timeout never has a timer, is never marked and ends only by itself. */
module DoIoUntimed {
  import opened IoEvents
  import opened Runtime
  import opened RuntimeProofs
  import RR = RuntimeRuns
  import opened DoIo
  import opened DoIoProofs
  import opened DoIoRuns

  /** The call of fiber f has no timeout: no timer is or ever was its own, and it is not marked. */
  ghost predicate NeverTimed(s: Sys, f: nat)
    requires f in s.calls
  {
    s.calls[f].timer == None && !s.calls[f].cancelled && forall c :: c in s.owner ==> s.owner[c] != s.calls[f].id
  }

  ghost predicate UntimedOk(s: Sys) { forall f :: f in s.calls && !s.calls[f].timed ==> NeverTimed(s, f) }

  lemma StepUntimed(s: Sys, step: Step)
    requires SysInv(s) && UntimedOk(s) && Enabled(s, step)
    ensures UntimedOk(Next(s, step))
  {
    hide RtInv, RR.Enabled, RR.Next, StartCallback, Finish, CancelIn, Waits, WaiterAt;
    var t := Next(s, step);
    assert Ids(s);
    forall f | f in t.calls && !t.calls[f].timed ensures NeverTimed(t, f) {
      if f in s.calls {
        assert CallOk(s, f) && (!s.calls[f].timed ==> NeverTimed(s, f));
      } else {
        forall c | c in s.owner ensures s.owner[c] != t.calls[f].id { assert TimerOk(s, c); }
      }
    }
  }

  lemma {:induction false} RunUntimed(s: Sys, steps: seq<Step>)
    requires SysInv(s) && UntimedOk(s) && Run(s, steps)
    ensures UntimedOk(Exec(s, steps))
    decreases |steps|
  {
    hide SysInv, UntimedOk, Enabled, Next;
    if steps != [] {
      StepKeeps(s, steps[0]);
      StepUntimed(s, steps[0]);
      RunUntimed(Next(s, steps[0]), steps[1..]);
    }
  }

  /** In every run a call without a timeout has no timer and no timeout callback of its own, is not marked, and no step is
      the run of a timer of its own. */
  lemma UntimedHasNoTimer(s0: Sys, steps: seq<Step>, f: nat, step: Step)
    requires Init(s0) && Run(s0, steps) && f in Exec(s0, steps).calls && !Exec(s0, steps).calls[f].timed
    ensures var s := Exec(s0, steps);
            && s.calls[f].timer == None && !s.calls[f].cancelled
            && (forall c :: c in s.owner ==> s.owner[c] != s.calls[f].id)
            && !RunsTimerOf(s, step, s.calls[f].id)
  {
    hide Run, Exec, SysInv;
    RunNone(s0);
    Reachable(s0, []);
    RunUntimed(s0, steps);
    assert NeverTimed(Exec(s0, steps), f);
  }

  // ---- how calls end ----

  /** A call ends by returning, by a refused registration, or by resuming when it is marked. */
  lemma EndsBy(s: Sys, step: Step, f: nat)
    requires SysInv(s) && Enabled(s, step) && f in s.calls && !LiveCall(Next(s, step), s.calls[f].id, f)
    ensures (step.SReturn? || (step.SRegister? && !step.kernel) || (step.SResume? && s.calls[f].cancelled)) && RunningFiber(s, step.w) == f
  {
    hide RtInv, RR.Enabled, RR.Next, StartCallback, Finish, CancelIn, CallOk, TimerOk, WaiterAt;
  }

  /** ... so that one without a timeout ends only by returning or a refused registration. */
  lemma UntimedEndsBy(s0: Sys, steps: seq<Step>, f: nat, step: Step)
    requires Init(s0) && Run(s0, steps) && f in Exec(s0, steps).calls && !Exec(s0, steps).calls[f].timed
    requires Enabled(Exec(s0, steps), step) && !LiveCall(Next(Exec(s0, steps), step), Exec(s0, steps).calls[f].id, f)
    ensures (step.SReturn? || (step.SRegister? && !step.kernel)) && RunningFiber(Exec(s0, steps), step.w) == f
  {
    hide Run, Exec, SysInv, Next, LiveCall, RunsTimerOf;
    UntimedHasNoTimer(s0, steps, f, step);
    Reachable(s0, steps);
    EndsBy(Exec(s0, steps), step, f);
  }

  // ---- what was asked for ----

  /** Fiber f began the call in this run, with these arguments. */
  ghost predicate Began(s: Sys, steps: seq<Step>, f: nat, id: nat, fd: nat, ev: Event, timed: bool)
    requires Run(s, steps)
    decreases |steps|
  {
    steps != [] && (BeginsNow(s, steps[0], f, id, fd, ev, timed) || Began(Next(s, steps[0]), steps[1..], f, id, fd, ev, timed))
  }

  ghost predicate BeginsNow(s: Sys, step: Step, f: nat, id: nat, fd: nat, ev: Event, timed: bool)
  {
    step.SBegin? && step == SBegin(step.w, id, fd, ev, timed) && RR.IsRunning(s.rt, step.w) && RunningFiber(s, step.w) == f
  }

  ghost predicate Asked(s: Sys, f: nat, id: nat, fd: nat, ev: Event, timed: bool)
  {
    LiveCall(s, id, f) && s.calls[f].fd == fd && s.calls[f].ev == ev && s.calls[f].timed == timed
  }

  lemma AskedBefore(s: Sys, step: Step, f: nat, id: nat, fd: nat, ev: Event, timed: bool)
    requires SysInv(s) && Enabled(s, step) && Asked(Next(s, step), f, id, fd, ev, timed)
    ensures Asked(s, f, id, fd, ev, timed) || BeginsNow(s, step, f, id, fd, ev, timed)
  {
    hide RtInv, RR.Enabled, RR.Next, StartCallback, Finish, CancelIn, CallOk, TimerOk, WaiterAt;
  }

  lemma {:induction false} AskedOnce(s: Sys, steps: seq<Step>, f: nat, id: nat, fd: nat, ev: Event, timed: bool)
    requires SysInv(s) && Run(s, steps) && Asked(Exec(s, steps), f, id, fd, ev, timed)
    ensures Asked(s, f, id, fd, ev, timed) || Began(s, steps, f, id, fd, ev, timed)
    decreases |steps|
  {
    hide SysInv, Asked, BeginsNow, Enabled, Next;
    if steps != [] {
      StepKeeps(s, steps[0]);
      AskedOnce(Next(s, steps[0]), steps[1..], f, id, fd, ev, timed);
      if Asked(Next(s, steps[0]), f, id, fd, ev, timed) { AskedBefore(s, steps[0], f, id, fd, ev, timed); }
    }
  }

  /** In every run a call in progress is for the descriptor, event and timeout flag with which its fiber began it. */
  lemma CallIsAsBegun(s0: Sys, steps: seq<Step>, f: nat)
    requires Init(s0) && Run(s0, steps) && f in Exec(s0, steps).calls
    ensures var x := Exec(s0, steps).calls[f]; Began(s0, steps, f, x.id, x.fd, x.ev, x.timed)
  {
    hide Run, Exec, SysInv, Began;
    RunNone(s0);
    Reachable(s0, []);
    var x := Exec(s0, steps).calls[f];
    AskedOnce(s0, steps, f, x.id, x.fd, x.ev, x.timed);
  }
}
