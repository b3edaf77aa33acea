/** Blocking in the kernel: sleep, wakeup, yield and the scheduler (kernel/proc.c), with the
    binary semaphores on top. The semaphores share one spinlock and one channel; value -1 is a
    semaphore that is not allocated. A sleep lock (kernel/sleeplock.c) is the same with one
    semaphore: value 0 is locked. Every thread has the lock of its process to itself. */
module Sleeping {

  datatype RunState = Running | Runnable | Asleep

  /** Where a thread is. Statements of bsem_down(i) or acquiresleep, of bsem_up(i) or
      releasesleep, and of yield; back is where yield returns to. */
  datatype Pc =
    | Out
    | Acquire(i: nat)            // acquire the semaphores' spinlock
    | Test(i: nat)               // while the value is 0 ...; take it
    | Release                    // release the spinlock
    | LockSelf(i: nat)           // sleep: acquire p->lock
    | Unlock(i: nat)             // sleep: release the spinlock
    | Mark(i: nat)               // sleep: set chan and SLEEPING, switch to the scheduler
    | Tidy(i: nat)               // sleep: clear chan, release p->lock
    | Relock(i: nat)             // sleep: acquire the spinlock again
    | UpAcquire(i: nat)          // acquire the spinlock
    | Raise(i: nat)              // the value becomes 1
    | Wake(k: nat, has: bool)    // wakeup: thread k is next; has: its p->lock is held
    | UpRelease                  // release the spinlock
    | YieldLock(back: Pc)        // acquire p->lock
    | YieldMark(back: Pc)        // set RUNNABLE, switch to the scheduler
    | YieldDone(back: Pc)        // release p->lock
    | Off(back: Pc)              // switched out; goes on at back

  /** Who holds a p->lock. Sched: a scheduler, after a switch to it. */
  datatype Holder = Nobody | By(t: nat) | Sched

  datatype Thread = Thread(pc: Pc, run: RunState, chan: bool)

  /** The values, the spinlock's holder (-1 is nobody), the threads, their p->locks, and for
      each value how often it was taken and raised since it was allocated or freed. */
  datatype State = State(val: seq<int>, lock: int, threads: seq<Thread>,
                         plock: seq<Holder>, taken: seq<nat>, raised: seq<nat>)

  datatype Step =
    | CallDown(t: nat, i: nat)
    | CallUp(t: nat, i: nat)
    | Run(t: nat)
    | Preempt(t: nat)
    | SwitchDone(t: nat)
    | Resume(t: nat)
    | Alloc(t: nat, r: int)      // bsem_alloc, with its result; it sleeps nowhere
    | Free(t: nat, i: nat)       // bsem_free

  function At(s: State, t: nat, pc: Pc): State
    requires t < |s.threads|
  {
    s.(threads := s.threads[t := s.threads[t].(pc := pc)])
  }

  function Own(s: State, t: nat, h: Holder): State
    requires t < |s.plock|
  {
    s.(plock := s.plock[t := h])
  }

  /** One statement of thread t. */
  predicate Executes(s: State, t: nat, s': State)
    requires t < |s.threads| == |s.plock| && |s.val| == |s.taken| == |s.raised|
  {
    match s.threads[t].pc
    case Out => false
    case Acquire(i) => s.lock == -1 && s' == At(s, t, Test(i)).(lock := t)
    case Test(i) =>
      i < |s.val| && (
        if s.val[i] == 0 then s' == At(s, t, LockSelf(i))
        else s' == At(s, t, Release).(val := s.val[i := 0], taken := s.taken[i := s.taken[i] + 1]))
    case Release => s' == At(s, t, Out).(lock := -1)
    case LockSelf(i) => s.plock[t] == Nobody && s' == Own(At(s, t, Unlock(i)), t, By(t))
    case Unlock(i) => s' == At(s, t, Mark(i)).(lock := -1)
    case Mark(i) => s' == Own(s, t, Sched).(threads := s.threads[t := Thread(Off(Tidy(i)), Asleep, true)])
    case Tidy(i) => s' == Own(s, t, Nobody).(threads := s.threads[t := Thread(Relock(i), Running, false)])
    case Relock(i) => s.lock == -1 && s' == At(s, t, Test(i)).(lock := t)
    case UpAcquire(i) => s.lock == -1 && s' == At(s, t, Raise(i)).(lock := t)
    case Raise(i) =>
      i < |s.val| && s' == At(s, t, Wake(0, false)).(val := s.val[i := 1], raised := s.raised[i := s.raised[i] + 1])
    case Wake(k, has) =>
      if k >= |s.threads| then s' == At(s, t, UpRelease)
      else if !has then s.plock[k] == Nobody && s' == Own(At(s, t, Wake(k, true)), k, By(t))
      else s' == At(Own(if k != t && s.threads[k].run == Asleep && s.threads[k].chan
                        then s.(threads := s.threads[k := s.threads[k].(run := Runnable)]) else s,
                        k, Nobody), t, Wake(k + 1, false))
    case UpRelease => s' == At(s, t, Out).(lock := -1)
    case YieldLock(back) => s.plock[t] == Nobody && s' == Own(At(s, t, YieldMark(back)), t, By(t))
    case YieldMark(back) =>
      s' == Own(s, t, Sched).(threads := s.threads[t := s.threads[t].(pc := Off(YieldDone(back)), run := Runnable)])
    case YieldDone(back) => s' == Own(At(s, t, back), t, Nobody)
    case Off(back) => false
  }

  /** A thread that holds no spinlock can be interrupted. */
  predicate Interruptible(pc: Pc) {
    pc.Out? || pc.Acquire? || pc.Relock? || pc.UpAcquire?
  }

  /** Value i set, and counted from now on. */
  function Reset(s: State, i: nat, v: int): State
    requires i < |s.val| == |s.taken| == |s.raised|
  {
    s.(val := s.val[i := v], taken := s.taken[i := 0], raised := s.raised[i := 0])
  }

  /** Thread t sleeps on value i, or is past the point of no return. */
  predicate WaitsOn(x: Thread, i: nat) {
    x.pc == Mark(i) || (x.pc == Off(Tidy(i)) && x.run == Asleep)
  }

  predicate Next(s: State, step: Step, s': State) {
    && step.t < |s.threads| == |s.plock| && |s.val| == |s.taken| == |s.raised|
    && match step
       case CallDown(t, i) => s.threads[t].pc == Out && i < |s.val| && s' == At(s, t, Acquire(i))
       case CallUp(t, i) => s.threads[t].pc == Out && i < |s.val| && s' == At(s, t, UpAcquire(i))
       case Run(t) => Executes(s, t, s')
       case Preempt(t) => Interruptible(s.threads[t].pc) && s' == At(s, t, YieldLock(s.threads[t].pc))
       case SwitchDone(t) => s.plock[t] == Sched && s' == Own(s, t, Nobody)
       case Resume(t) =>
         && s.plock[t] == Nobody && s.threads[t].pc.Off? && s.threads[t].run == Runnable
         && s' == Own(s, t, By(t)).(
              threads := s.threads[t := s.threads[t].(pc := s.threads[t].pc.back, run := Running)])
       case Alloc(t, r) =>
         && s.threads[t].pc == Out && s.lock == -1
         && if r == -1 then s' == s && -1 !in s.val
            else 0 <= r < |s.val| && s.val[r] == -1 && -1 !in s.val[..r] && s' == Reset(s, r, 1)
       case Free(t, i) =>
         && s.threads[t].pc == Out && s.lock == -1 && i < |s.val| && s' == Reset(s, i, -1)
         && forall u :: 0 <= u < |s.threads| ==> !WaitsOn(s.threads[u], i)
  }

  function Start(n: nat, sems: nat): State {
    State(seq(sems, _ => -1), -1, seq(n, _ => Thread(Out, Running, false)),
          seq(n, _ => Nobody), seq(sems, _ => 0), seq(sems, _ => 0))
  }

  ghost predicate IsRun(run: seq<State>, steps: seq<Step>) {
    && |run| == |steps| + 1 && run[0] == Start(|run[0].threads|, |run[0].val|)
    && forall k :: 0 <= k < |steps| ==> Next(run[k], steps[k], run[k + 1])
  }

  // ---- the invariant, thread by thread

  predicate HoldsLock(pc: Pc) {
    pc.Test? || pc.Release? || pc.LockSelf? || pc.Unlock? || pc.Raise? || pc.Wake? || pc.UpRelease?
  }

  predicate HoldsSelf(pc: Pc) {
    pc.Unlock? || pc.Mark? || pc.Tidy? || pc.YieldMark? || pc.YieldDone?
  }

  ghost predicate Shape(s: State) {
    && |s.threads| == |s.plock| && |s.val| == |s.taken| == |s.raised| && -1 <= s.lock < |s.threads|
    && forall i :: 0 <= i < |s.val| ==> s.val[i] in {-1, 0, 1}
  }

  ghost predicate LockOk(s: State, t: nat)
    requires t < |s.threads|
  {
    HoldsLock(s.threads[t].pc) <==> s.lock == t
  }

  /** p->lock of t is held by whoever its holder's place says. */
  ghost predicate SelfOk(s: State, t: nat)
    requires t < |s.threads| == |s.plock|
  {
    && (HoldsSelf(s.threads[t].pc) ==> s.plock[t] == By(t))
    && (s.plock[t] == Sched ==> s.threads[t].pc.Off?)
    && (s.plock[t].By? ==> var u := s.plock[t].t;
          u < |s.threads| && (if u == t then HoldsSelf(s.threads[t].pc) || s.threads[t].pc == Wake(t, true)
                              else s.threads[u].pc == Wake(t, true)))
    && (s.threads[t].pc.Wake? && s.threads[t].pc.has ==>
          s.threads[t].pc.k < |s.threads| && s.plock[s.threads[t].pc.k] == By(t))
  }

  ghost predicate RunOk(s: State, t: nat)
    requires t < |s.threads|
  {
    var x := s.threads[t];
    && (x.run == Running <==> !x.pc.Off?)
    && (x.pc.Off? ==> (x.pc.back.Tidy? && x.chan) || (x.pc.back.YieldDone? && Interruptible(x.pc.back.back)))
    && (x.pc.YieldLock? || x.pc.YieldMark? || x.pc.YieldDone? ==> Interruptible(x.pc.back))
    && (x.run == Asleep ==> x.pc.Off? && x.pc.back.Tidy?)
  }

  /** A wakeup is under way that has not come to thread t yet. */
  ghost predicate WakeComing(s: State, t: nat) {
    && 0 <= s.lock < |s.threads| && s.threads[s.lock].pc.Wake? && s.threads[s.lock].pc.k <= t
  }

  /** A thread goes to sleep only on value 0, and sleeps on another value only until the
      wakeup that is under way comes to it. */
  ghost predicate SleepOk(s: State, t: nat)
    requires t < |s.threads|
  {
    match s.threads[t].pc
    case LockSelf(i) => i < |s.val| && s.val[i] == 0
    case Unlock(i) => i < |s.val| && s.val[i] == 0
    case Mark(i) => i < |s.val| && (s.val[i] == 0 || WakeComing(s, t))
    case Off(Tidy(i)) => s.threads[t].run == Asleep ==> i < |s.val| && (s.val[i] == 0 || WakeComing(s, t))
    case _ => true
  }

  ghost predicate TakenOk(s: State) {
    && |s.val| == |s.taken| == |s.raised|
    && forall i :: 0 <= i < |s.val| ==> s.taken[i] + (if s.val[i] == 0 then 0 else 1) <= s.raised[i] + 1
  }

  ghost predicate ThreadOk(s: State, t: nat)
    requires t < |s.threads| == |s.plock|
  {
    LockOk(s, t) && SelfOk(s, t) && RunOk(s, t) && SleepOk(s, t)
  }

  ghost predicate Inv(s: State) {
    Shape(s) && TakenOk(s) && forall t :: 0 <= t < |s.threads| ==> ThreadOk(s, t)
  }

  // ---- every step keeps it

  /** Steps of a thread on itself: only its place changes, and it holds the same locks. */
  lemma MoveInv(s: State, t: nat, pc: Pc, s': State)
    requires Inv(s) && t < |s.threads| && s' == At(s, t, pc) && !s.threads[t].pc.Off? && !pc.Off?
    requires HoldsLock(pc) == HoldsLock(s.threads[t].pc) && HoldsSelf(pc) == HoldsSelf(s.threads[t].pc)
    requires !s.threads[t].pc.Wake? && !pc.Wake? && !pc.Mark?
    requires pc.YieldLock? || pc.YieldMark? || pc.YieldDone? ==> Interruptible(pc.back)
    requires pc.LockSelf? || pc.Unlock? ==> pc.i < |s.val| && s.val[pc.i] == 0
    ensures Inv(s')
  {
    forall u | 0 <= u < |s'.threads|
      ensures ThreadOk(s', u)
    {
      assert ThreadOk(s, u) && ThreadOk(s, t);
    }
  }

  lemma AcquireInv(s: State, t: nat, pc: Pc, s': State)
    requires Inv(s) && t < |s.threads| && s.lock == -1 && s' == At(s, t, pc).(lock := t) && (pc.Test? || pc.Raise?)
    requires var was := s.threads[t].pc; was.Acquire? || was.Relock? || was.UpAcquire?
    ensures Inv(s')
  {
    forall u | 0 <= u < |s'.threads|
      ensures ThreadOk(s', u)
    {
      assert ThreadOk(s, u) && ThreadOk(s, t);
    }
  }

  lemma ReleaseInv(s: State, t: nat, pc: Pc, s': State)
    requires Inv(s) && t < |s.threads| && s' == At(s, t, pc).(lock := -1)
    requires var was := s.threads[t].pc;
      ((was.Release? || was.UpRelease?) && pc.Out?) || (was.Unlock? && pc == Mark(was.i))
    ensures Inv(s')
  {
    assert ThreadOk(s, t);
    forall u | 0 <= u < |s'.threads|
      ensures ThreadOk(s', u)
    {
      assert ThreadOk(s, u);
    }
  }

  lemma TakeInv(s: State, t: nat, i: nat, s': State)
    requires Inv(s) && t < |s.threads| && s.threads[t].pc == Test(i) && i < |s.val| && s.val[i] != 0
    requires s' == At(s, t, Release).(val := s.val[i := 0], taken := s.taken[i := s.taken[i] + 1])
    ensures Inv(s')
  {
    assert ThreadOk(s, t);
    forall u | 0 <= u < |s'.threads|
      ensures ThreadOk(s', u)
    {
      assert ThreadOk(s, u);
    }
  }

  lemma RaiseInv(s: State, t: nat, i: nat, s': State)
    requires Inv(s) && t < |s.threads| && s.threads[t].pc == Raise(i) && i < |s.val|
    requires s' == At(s, t, Wake(0, false)).(val := s.val[i := 1], raised := s.raised[i := s.raised[i] + 1])
    ensures Inv(s')
  {
    assert ThreadOk(s, t);
    forall u | 0 <= u < |s'.threads|
      ensures ThreadOk(s', u)
    {
      assert ThreadOk(s, u);
    }
  }

  /** A thread takes its own p->lock, or the scheduler takes it and resumes the thread. */
  lemma LockSelfInv(s: State, t: nat, x: Thread, s': State)
    requires Inv(s) && t < |s.threads| && s.plock[t] == Nobody
    requires s' == Own(s, t, By(t)).(threads := s.threads[t := x]) && x.run == Running && HoldsSelf(x.pc)
    requires var was := s.threads[t];
      || (was.pc.LockSelf? && x == was.(pc := Unlock(was.pc.i)))
      || (was.pc.YieldLock? && x == was.(pc := YieldMark(was.pc.back)))
      || (was.pc.Off? && was.run == Runnable && x == was.(pc := was.pc.back, run := Running))
    ensures Inv(s')
  {
    assert ThreadOk(s, t);
    forall u | 0 <= u < |s'.threads|
      ensures ThreadOk(s', u)
    {
      assert ThreadOk(s, u);
    }
  }

  /** A thread switches to the scheduler. */
  lemma SwitchInv(s: State, t: nat, x: Thread, s': State)
    requires Inv(s) && t < |s.threads| && s' == Own(s, t, Sched).(threads := s.threads[t := x])
    requires var was := s.threads[t];
      || (was.pc.Mark? && x == Thread(Off(Tidy(was.pc.i)), Asleep, true))
      || (was.pc.YieldMark? && x == was.(pc := Off(YieldDone(was.pc.back)), run := Runnable))
    ensures Inv(s')
  {
    assert ThreadOk(s, t);
    forall u | 0 <= u < |s'.threads|
      ensures ThreadOk(s', u)
    {
      assert ThreadOk(s, u);
    }
  }

  /** A thread that is back from the scheduler gives its p->lock up. */
  lemma BackInv(s: State, t: nat, x: Thread, s': State)
    requires Inv(s) && t < |s.threads| && s' == Own(s, t, Nobody).(threads := s.threads[t := x])
    requires var was := s.threads[t];
      || (was.pc.Tidy? && x == Thread(Relock(was.pc.i), Running, false))
      || (was.pc.YieldDone? && x == was.(pc := was.pc.back))
    ensures Inv(s')
  {
    assert ThreadOk(s, t);
    forall u | 0 <= u < |s'.threads|
      ensures ThreadOk(s', u)
    {
      assert ThreadOk(s, u);
    }
  }

  lemma SwitchDoneInv(s: State, t: nat, s': State)
    requires Inv(s) && t < |s.threads| && s.plock[t] == Sched && s' == Own(s, t, Nobody)
    ensures Inv(s')
  {
    assert ThreadOk(s, t);
    forall u | 0 <= u < |s'.threads|
      ensures ThreadOk(s', u)
    {
      assert ThreadOk(s, u);
    }
  }

  /** wakeup takes the next p->lock, or has come to the end. */
  lemma WakeLockInv(s: State, t: nat, k: nat, s': State)
    requires Inv(s) && t < |s.threads| && s.threads[t].pc.Wake? && s.threads[t].pc.k == k
    requires if k >= |s.threads| then s' == At(s, t, UpRelease)
             else !s.threads[t].pc.has && s.plock[k] == Nobody && s' == Own(At(s, t, Wake(k, true)), k, By(t))
    ensures Inv(s')
  {
    assert ThreadOk(s, t);
    forall u | 0 <= u < |s'.threads|
      ensures ThreadOk(s', u)
    {
      assert ThreadOk(s, u);
      if k < |s.threads| {
        assert ThreadOk(s, k);
      }
    }
  }

  /** wakeup deals with thread k and goes on to the next. */
  lemma WakeOneInv(s: State, t: nat, k: nat, s1: State, s': State)
    requires Inv(s) && t < |s.threads| && s.threads[t].pc == Wake(k, true) && k < |s.threads|
    requires s1 == if k != t && s.threads[k].run == Asleep && s.threads[k].chan
                   then s.(threads := s.threads[k := s.threads[k].(run := Runnable)]) else s
    requires s' == At(Own(s1, k, Nobody), t, Wake(k + 1, false))
    ensures Inv(s')
  {
    assert ThreadOk(s, t) && ThreadOk(s, k);
    forall u | 0 <= u < |s'.threads|
      ensures ThreadOk(s', u)
    {
      assert ThreadOk(s, u);
    }
  }

  /** bsem_alloc or bsem_free: nobody waits for the value that changes. */
  lemma ResetInv(s: State, i: nat, v: int, s': State)
    requires Inv(s) && s.lock == -1 && i < |s.val| && v in {-1, 1} && s' == Reset(s, i, v)
    requires forall u :: 0 <= u < |s.threads| ==> !WaitsOn(s.threads[u], i)
    ensures Inv(s')
  {
    forall u | 0 <= u < |s'.threads|
      ensures ThreadOk(s', u)
    {
      assert ThreadOk(s, u) && !WaitsOn(s.threads[u], i);
    }
  }

  lemma NobodyWaits(s: State, i: nat)
    requires Inv(s) && s.lock == -1 && i < |s.val| && s.val[i] != 0
    ensures forall u :: 0 <= u < |s.threads| ==> !WaitsOn(s.threads[u], i)
  {
    forall u | 0 <= u < |s.threads|
      ensures !WaitsOn(s.threads[u], i)
    {
      assert ThreadOk(s, u);
    }
  }

  lemma NextInv(s: State, step: Step, s': State)
    requires Inv(s) && Next(s, step, s')
    ensures Inv(s')
  {
    var t := step.t;
    assert ThreadOk(s, t);
    match step
    case CallDown(_, i) => MoveInv(s, t, Acquire(i), s');
    case CallUp(_, i) => MoveInv(s, t, UpAcquire(i), s');
    case Preempt(_) => MoveInv(s, t, YieldLock(s.threads[t].pc), s');
    case SwitchDone(_) => SwitchDoneInv(s, t, s');
    case Resume(_) => LockSelfInv(s, t, s'.threads[t], s');
    case Run(_) => RunInv(s, t, s');
    case Alloc(_, r) =>
      if r != -1 {
        NobodyWaits(s, r);
        ResetInv(s, r, 1, s');
      }
    case Free(_, i) => ResetInv(s, i, -1, s');
  }

  lemma RunInv(s: State, t: nat, s': State)
    requires Inv(s) && t < |s.threads| && Executes(s, t, s')
    ensures Inv(s')
  {
    assert ThreadOk(s, t);
    match s.threads[t].pc
    case Acquire(i) => AcquireInv(s, t, Test(i), s');
    case Test(i) =>
      if s.val[i] == 0 {
        MoveInv(s, t, LockSelf(i), s');
      } else {
        TakeInv(s, t, i, s');
      }
    case Release => ReleaseInv(s, t, Out, s');
    case LockSelf(i) => LockSelfInv(s, t, s'.threads[t], s');
    case Unlock(i) => ReleaseInv(s, t, Mark(i), s');
    case Mark(i) => SwitchInv(s, t, s'.threads[t], s');
    case Tidy(i) => BackInv(s, t, s'.threads[t], s');
    case Relock(i) => AcquireInv(s, t, Test(i), s');
    case UpAcquire(i) => AcquireInv(s, t, Raise(i), s');
    case Raise(i) => RaiseInv(s, t, i, s');
    case Wake(k, has) =>
      if k < |s.threads| && has {
        var s1 := if k != t && s.threads[k].run == Asleep && s.threads[k].chan
                  then s.(threads := s.threads[k := s.threads[k].(run := Runnable)]) else s;
        WakeOneInv(s, t, k, s1, s');
      } else {
        WakeLockInv(s, t, k, s');
      }
    case UpRelease => ReleaseInv(s, t, Out, s');
    case YieldLock(back) => LockSelfInv(s, t, s'.threads[t], s');
    case YieldMark(back) => SwitchInv(s, t, s'.threads[t], s');
    case YieldDone(back) => BackInv(s, t, s'.threads[t], s');
  }

  lemma StartInv(s: State)
    requires s == Start(|s.threads|, |s.val|)
    ensures Inv(s)
  {
  }

  lemma {:induction false} RunsInv(run: seq<State>, steps: seq<Step>, k: nat)
    requires IsRun(run, steps) && k < |run|
    ensures Inv(run[k])
  {
    if k == 0 {
      StartInv(run[0]);
    } else {
      RunsInv(run, steps, k - 1);
      NextInv(run[k - 1], steps[k - 1], run[k]);
    }
  }

  /** No lost wakeup: when the spinlock is free, every thread that is asleep, or past the
      point of no return, waits for a value that is 0. */
  lemma NoLostWakeup(run: seq<State>, steps: seq<Step>, k: nat, t: nat)
    requires IsRun(run, steps) && k < |run| && t < |run[k].threads| && run[k].lock == -1
    requires run[k].threads[t].run == Asleep || run[k].threads[t].pc.Mark?
    ensures var s, pc := run[k], run[k].threads[t].pc;
      exists i :: 0 <= i < |s.val| && s.val[i] == 0 && (pc == Mark(i) || pc == Off(Tidy(i)))
  {
    RunsInv(run, steps, k);
    assert ThreadOk(run[k], t);
    var pc := run[k].threads[t].pc;
    var i := if pc.Mark? then pc.i else pc.back.i;
    assert run[k].val[i] == 0 && (pc == Mark(i) || pc == Off(Tidy(i)));
  }

  /** Since a semaphore was allocated, or freed, at most one thread has passed for each release,
      and one more at first. */
  lemma OnePassPerRelease(run: seq<State>, steps: seq<Step>, k: nat, i: nat)
    requires IsRun(run, steps) && k < |run| && i < |run[k].val|
    ensures |run[k].taken| == |run[k].raised| == |run[k].val| && run[k].taken[i] <= run[k].raised[i] + 1
  {
    RunsInv(run, steps, k);
  }

  /** A thread that switches to the scheduler holds its own p->lock and not the spinlock, so
      sched's checks pass; and no scheduler runs a thread that is still on its way out. */
  lemma SwitchesClean(run: seq<State>, steps: seq<Step>, k: nat, t: nat)
    requires IsRun(run, steps) && k < |run| && t < |run[k].threads|
    ensures |run[k].plock| == |run[k].threads|
    ensures run[k].threads[t].pc.Mark? || run[k].threads[t].pc.YieldMark? ==>
      run[k].plock[t] == By(t) && run[k].lock != t
    ensures run[k].threads[t].run == Runnable ==> run[k].threads[t].pc.Off?
  {
    RunsInv(run, steps, k);
    assert ThreadOk(run[k], t);
  }

  /** Beside allocation, a step takes effect on the values as at most one whole down, of a value
      that was not 0, or one whole up: that is what a counting semaphore built on them may rely
      on. */
  lemma StepsAreAtomic(s: State, step: Step, s': State)
    requires Next(s, step, s') && s'.val != s.val && !step.Alloc? && !step.Free?
    ensures step.Run? && var pc, pc' := s.threads[step.t].pc, s'.threads[step.t].pc;
      || (pc.Test? && pc.i < |s.val| && s.val[pc.i] != 0 && s'.val == s.val[pc.i := 0] && pc' == Release)
      || (pc.Raise? && pc.i < |s.val| && s'.val == s.val[pc.i := 1] && pc' == Wake(0, false))
  {
  }

  /** Only bsem_free makes a semaphore not allocated. */
  lemma NextAllocated(s: State, step: Step, s': State, i: nat)
    requires Next(s, step, s') && i < |s.val| && !(step.Free? && step.i == i)
    requires s.val[i] in {0, 1} || (step.Alloc? && step.r == i)
    ensures i < |s'.val| && s'.val[i] in {0, 1}
  {
    if s'.val != s.val && !step.Alloc? && !step.Free? {
      StepsAreAtomic(s, step, s');
    }
  }

  lemma {:induction false} StaysAllocated(run: seq<State>, steps: seq<Step>, j: nat, k: nat, i: nat)
    requires IsRun(run, steps) && j < k < |run| && i < |run[j].val| && steps[j].Alloc? && steps[j].r == i
    requires forall m :: j < m < k && steps[m].Free? ==> steps[m].i != i
    ensures i < |run[k].val| && run[k].val[i] in {0, 1}
  {
    var s, step, s' := run[k - 1], steps[k - 1], run[k];
    if k > j + 1 {
      StaysAllocated(run, steps, j, k - 1, i);
    }
    NextAllocated(s, step, s', i);
  }

  /** bsem_alloc hands a semaphore out again only after it was freed. */
  lemma AllocatedOnce(run: seq<State>, steps: seq<Step>, j: nat, k: nat)
    requires IsRun(run, steps) && j < k < |steps| && steps[j].Alloc? && steps[k].Alloc?
    requires steps[j].r == steps[k].r >= 0
    ensures exists m :: j < m < k && steps[m].Free? && steps[m].i == steps[j].r
  {
    assert Next(run[j], steps[j], run[j + 1]) && Next(run[k], steps[k], run[k + 1]);
    if forall m :: j < m < k && steps[m].Free? ==> steps[m].i != steps[j].r {
      StaysAllocated(run, steps, j, k, steps[j].r);
      assert false;
    }
  }

  // ---- something can always happen

  /** Nothing of the thread's own is left to do: it is outside, or asleep on a value that is 0. */
  predicate AtRest(s: State, x: Thread) {
    x.pc == Out || (x.run == Asleep && x.pc.Off? && x.pc.back.Tidy? && x.pc.back.i < |s.val| && s.val[x.pc.back.i] == 0)
  }

  /** Thread t can run its next statement: it waits for no lock. */
  predicate CanRun(s: State, t: nat)
    requires t < |s.threads| == |s.plock|
  {
    var pc := s.threads[t].pc;
    && (pc.Acquire? || pc.Relock? || pc.UpAcquire? ==> s.lock == -1)
    && (pc.LockSelf? || pc.YieldLock? ==> s.plock[t] == Nobody)
    && (pc.Wake? && !pc.has && pc.k < |s.threads| ==> s.plock[pc.k] == Nobody)
    && (pc.Test? || pc.Raise? ==> pc.i < |s.val|)
    && !pc.Out? && !pc.Off?
  }

  lemma FreeRuns(s: State, t: nat) returns (s': State)
    requires Shape(s) && t < |s.threads| && CanRun(s, t)
    ensures Next(s, Run(t), s')
  {
    match s.threads[t].pc
    case Acquire(i) => s' := At(s, t, Test(i)).(lock := t);
    case Test(i) =>
      s' := if s.val[i] == 0 then At(s, t, LockSelf(i))
            else At(s, t, Release).(val := s.val[i := 0], taken := s.taken[i := s.taken[i] + 1]);
    case Release => s' := At(s, t, Out).(lock := -1);
    case LockSelf(i) => s' := Own(At(s, t, Unlock(i)), t, By(t));
    case Unlock(i) => s' := At(s, t, Mark(i)).(lock := -1);
    case Mark(i) => s' := Own(s, t, Sched).(threads := s.threads[t := Thread(Off(Tidy(i)), Asleep, true)]);
    case Tidy(i) => s' := Own(s, t, Nobody).(threads := s.threads[t := Thread(Relock(i), Running, false)]);
    case Relock(i) => s' := At(s, t, Test(i)).(lock := t);
    case UpAcquire(i) => s' := At(s, t, Raise(i)).(lock := t);
    case Raise(i) =>
      s' := At(s, t, Wake(0, false)).(val := s.val[i := 1], raised := s.raised[i := s.raised[i] + 1]);
    case Wake(k, has) =>
      s' := if k >= |s.threads| then At(s, t, UpRelease)
            else if !has then Own(At(s, t, Wake(k, true)), k, By(t))
            else At(Own(if k != t && s.threads[k].run == Asleep && s.threads[k].chan
                        then s.(threads := s.threads[k := s.threads[k].(run := Runnable)]) else s,
                        k, Nobody), t, Wake(k + 1, false));
    case UpRelease => s' := At(s, t, Out).(lock := -1);
    case YieldLock(back) => s' := Own(At(s, t, YieldMark(back)), t, By(t));
    case YieldMark(back) =>
      s' := Own(s, t, Sched).(threads := s.threads[t := s.threads[t].(pc := Off(YieldDone(back)), run := Runnable)]);
    case YieldDone(back) => s' := Own(At(s, t, back), t, Nobody);
  }

  /** Unless a scheduler is switching to it or from it, a thread's p->lock is free, its own, or
      held by the wakeup that has come to it. */
  lemma OwnOrNobody(s: State, t: nat)
    requires Inv(s) && t < |s.threads| && s.plock[t] != Sched
    ensures s.plock[t] == Nobody || (s.plock[t] == By(t) && HoldsSelf(s.threads[t].pc))
            || (s.plock[t].By? && s.plock[t].t == s.lock && s.threads[s.lock].pc == Wake(t, true))
  {
    assert ThreadOk(s, t);
    if s.plock[t].By? && s.plock[t].t < |s.threads| {
      assert ThreadOk(s, s.plock[t].t);
    }
  }

  /** The thread with the spinlock can go on, or the one whose p->lock it waits for can. */
  lemma HolderGoesOn(s: State) returns (t: nat)
    requires Inv(s) && s.lock >= 0 && forall u :: 0 <= u < |s.plock| ==> s.plock[u] != Sched
    requires InRange(s)
    ensures t < |s.threads| && CanRun(s, t)
  {
    var h := s.lock;
    assert ThreadOk(s, h);
    var pc := s.threads[h].pc;
    t := h;
    var k := if pc.LockSelf? then h else if pc.Wake? && !pc.has then pc.k else |s.threads|;
    if k < |s.threads| && s.plock[k] != Nobody {
      OwnOrNobody(s, k);
      assert ThreadOk(s, k);
      t := k;
    }
  }

  /** The value that a thread deals with exists. */
  predicate Placed(n: nat, pc: Pc) {
    match pc
    case Acquire(i) => i < n
    case Test(i) => i < n
    case LockSelf(i) => i < n
    case Unlock(i) => i < n
    case Mark(i) => i < n
    case Tidy(i) => i < n
    case Relock(i) => i < n
    case UpAcquire(i) => i < n
    case Raise(i) => i < n
    case YieldLock(back) => Placed(n, back)
    case YieldMark(back) => Placed(n, back)
    case YieldDone(back) => Placed(n, back)
    case Off(back) => Placed(n, back)
    case _ => true
  }

  ghost predicate InRange(s: State) {
    forall u :: 0 <= u < |s.threads| ==> Placed(|s.val|, s.threads[u].pc)
  }

  lemma NextInRange(s: State, step: Step, s': State)
    requires InRange(s) && Next(s, step, s')
    ensures InRange(s') && |s'.val| == |s.val|
  {
    var t := step.t;
    assert Placed(|s.val|, s.threads[t].pc);
    forall u | 0 <= u < |s'.threads|
      ensures Placed(|s.val|, s'.threads[u].pc)
    {
      assert Placed(|s.val|, s.threads[u].pc);
    }
  }

  lemma {:induction false} RunInRange(run: seq<State>, steps: seq<Step>, k: nat)
    requires IsRun(run, steps) && k < |run|
    ensures InRange(run[k])
  {
    if k > 0 {
      RunInRange(run, steps, k - 1);
      NextInRange(run[k - 1], steps[k - 1], run[k]);
    }
  }

  /** No deadlock: in every run, as long as not all threads are at rest, a thread can go on, a
      scheduler can finish a switch, or one can resume a thread. */
  lemma NoDeadlock(run: seq<State>, steps: seq<Step>, k: nat, t: nat) returns (step: Step, s': State)
    requires IsRun(run, steps) && k < |run| && t < |run[k].threads| && !AtRest(run[k], run[k].threads[t])
    ensures Next(run[k], step, s') && (step.Run? || step.SwitchDone? || step.Resume?)
  {
    var s := run[k];
    RunsInv(run, steps, k);
    RunInRange(run, steps, k);
    if u :| 0 <= u < |s.plock| && s.plock[u] == Sched {
      step, s' := SwitchDone(u), Own(s, u, Nobody);
    } else if s.lock >= 0 {
      var u := HolderGoesOn(s);
      s' := FreeRuns(s, u);
      step := Run(u);
    } else {
      step, s' := GoesOn(s, t);
    }
  }

  lemma GoesOn(s: State, t: nat) returns (step: Step, s': State)
    requires Inv(s) && InRange(s) && s.lock == -1 && t < |s.threads| && !AtRest(s, s.threads[t])
    requires s.plock[t] != Sched
    ensures Next(s, step, s') && (step.Run? || step.Resume?)
  {
    OwnOrNobody(s, t);
    assert ThreadOk(s, t) && Placed(|s.val|, s.threads[t].pc);
    var x := s.threads[t];
    if x.pc.Off? {
      step, s' := Resume(t), Own(s, t, By(t)).(threads := s.threads[t := x.(pc := x.pc.back, run := Running)]);
    } else {
      s' := FreeRuns(s, t);
      step := Run(t);
    }
  }

  /** A woken thread whose value is not 0 can be resumed, and takes it, when nobody disturbs it. */
  lemma WokenTakes(s: State, t: nat, i: nat) returns (run: seq<State>)
    requires Inv(s) && s.lock == -1 && t < |s.threads| && s.plock[t] != Sched && i < |s.val| && s.val[i] != 0
    requires s.threads[t].pc == Off(Tidy(i)) && s.threads[t].run == Runnable
    ensures |run| == 6 && run[0] == s && Next(run[0], Resume(t), run[1])
    ensures forall k :: 1 <= k < 5 ==> Next(run[k], Run(t), run[k + 1])
    ensures run[5] == s.(threads := s.threads[t := Thread(Out, Running, false)], val := s.val[i := 0],
                         taken := s.taken[i := s.taken[i] + 1])
  {
    OwnOrNobody(s, t);
    var s1 := Own(s, t, By(t)).(threads := s.threads[t := s.threads[t].(pc := Tidy(i), run := Running)]);
    var s2 := s.(threads := s.threads[t := Thread(Relock(i), Running, false)]);
    var s3 := s.(threads := s.threads[t := Thread(Test(i), Running, false)], lock := t);
    var s4 := s.(threads := s.threads[t := Thread(Release, Running, false)], lock := t, val := s.val[i := 0],
                 taken := s.taken[i := s.taken[i] + 1]);
    var s5 := s4.(threads := s.threads[t := Thread(Out, Running, false)], lock := -1);
    run := [s, s1, s2, s3, s4, s5];
    assert s.plock[t := By(t)][t := Nobody] == s.plock;
    assert Next(run[1], Run(t), run[2]) && Next(run[2], Run(t), run[3]);
    assert Next(run[3], Run(t), run[4]) && Next(run[4], Run(t), run[5]);
  }

  // ---- mutual exclusion, as sleep locks are used

  /** Where a thread is in its own code, whatever it does with the scheduler. */
  function Inner(pc: Pc): Pc {
    match pc
    case YieldLock(back) => Inner(back)
    case YieldMark(back) => Inner(back)
    case YieldDone(back) => Inner(back)
    case Off(back) => Inner(back)
    case _ => pc
  }

  predicate Releasing(pc: Pc, i: nat) {
    Inner(pc) == UpAcquire(i) || Inner(pc) == Raise(i)
  }

  /** Which locks each thread has, after a step: it gets one when it takes its value, and has it
      until it calls the release. */
  function After(has: seq<set<nat>>, s: State, step: Step): seq<set<nat>>
    requires step.t < |has| == |s.threads|
  {
    match step
    case CallUp(t, i) => has[t := has[t] - {i}]
    case Run(t) =>
      var pc := s.threads[t].pc;
      if pc.Test? && pc.i < |s.val| && s.val[pc.i] != 0 then has[t := has[t] + {pc.i}] else has
    case _ => has
  }

  ghost function Having(run: seq<State>, steps: seq<Step>, k: nat): (has: seq<set<nat>>)
    requires IsRun(run, steps) && k < |run|
    ensures |has| == |run[k].threads|
  {
    if k == 0 then seq(|run[0].threads|, _ => {})
    else assert Next(run[k - 1], steps[k - 1], run[k]); After(Having(run, steps, k - 1), run[k - 1], steps[k - 1])
  }

  ghost predicate InPossession(s: State, has: seq<set<nat>>, t: nat, i: nat)
    requires t < |has| == |s.threads|
  {
    i in has[t] || Releasing(s.threads[t].pc, i)
  }

  /** Only a thread that has a lock releases it, and a lock is freed only while no thread has
      it. */
  ghost predicate Allowed(s: State, has: seq<set<nat>>, step: Step)
    requires |has| == |s.threads|
  {
    && (step.CallUp? ==> step.t < |has| && step.i in has[step.t])
    && (step.Free? ==> forall t :: 0 <= t < |has| ==> !InPossession(s, has, t, step.i))
  }

  ghost predicate Disciplined(run: seq<State>, steps: seq<Step>)
    requires IsRun(run, steps)
  {
    forall k :: 0 <= k < |steps| ==> Allowed(run[k], Having(run, steps, k), steps[k])
  }

  /** One thread at most has or is releasing a lock, and then its value is 0. */
  ghost predicate Exclusive(s: State, has: seq<set<nat>>) {
    && |has| == |s.threads|
    && (forall t, u, i ::
          (0 <= t < |has| && 0 <= u < |has| && 0 <= i < |s.val| && InPossession(s, has, t, i)
           && InPossession(s, has, u, i)) ==>
          t == u)
    && (forall t, i :: 0 <= t < |has| && 0 <= i < |s.val| && InPossession(s, has, t, i) ==> s.val[i] == 0)
    && (forall t, i :: 0 <= t < |has| && 0 <= i && i in has[t] ==> !Releasing(s.threads[t].pc, i))
  }

  /** A step by which no thread comes into possession, and no value changes. */
  lemma KeepsExclusive(s: State, has: seq<set<nat>>, s': State)
    requires Exclusive(s, has) && |s'.threads| == |s.threads| && s'.val == s.val
    requires forall t, i :: 0 <= t < |has| && 0 <= i && Releasing(s'.threads[t].pc, i) ==> Releasing(s.threads[t].pc, i)
    ensures Exclusive(s', has)
  {
    forall t, i | 0 <= t < |has| && 0 <= i < |s.val| && InPossession(s', has, t, i)
      ensures InPossession(s, has, t, i)
    {
    }
  }

  lemma TakeExclusive(s: State, has: seq<set<nat>>, t: nat, i: nat, s': State)
    requires Exclusive(s, has) && t < |has| && i < |s.val| && s.val[i] != 0 && s.threads[t].pc == Test(i)
    requires s'.val == s.val[i := 0] && s'.threads == s.threads[t := s.threads[t].(pc := Release)]
    ensures Exclusive(s', has[t := has[t] + {i}])
  {
    var has' := has[t := has[t] + {i}];
    forall u, j | 0 <= u < |has| && 0 <= j < |s.val| && InPossession(s', has', u, j)
      ensures InPossession(s, has, u, j) || (u == t && j == i)
    {
    }
  }

  lemma CallExclusive(s: State, has: seq<set<nat>>, t: nat, i: nat, s': State)
    requires Exclusive(s, has) && t < |has| && i < |s.val| && i in has[t] && s.threads[t].pc == Out
    requires s'.val == s.val && s'.threads == s.threads[t := s.threads[t].(pc := UpAcquire(i))]
    ensures Exclusive(s', has[t := has[t] - {i}])
  {
    var has' := has[t := has[t] - {i}];
    forall u, j | 0 <= u < |has| && 0 <= j < |s.val| && InPossession(s', has', u, j)
      ensures InPossession(s, has, u, j)
    {
    }
  }

  lemma RaiseExclusive(s: State, has: seq<set<nat>>, t: nat, i: nat, s': State)
    requires Exclusive(s, has) && t < |has| && i < |s.val| && s.threads[t].pc == Raise(i)
    requires s'.val == s.val[i := 1] && s'.threads == s.threads[t := s.threads[t].(pc := Wake(0, false))]
    ensures Exclusive(s', has)
  {
    assert InPossession(s, has, t, i);
    forall u, j | 0 <= u < |has| && 0 <= j < |s.val| && InPossession(s', has, u, j)
      ensures InPossession(s, has, u, j) && (u != t || j != i)
    {
    }
  }

  lemma ResetExclusive(s: State, has: seq<set<nat>>, i: nat, v: int, s': State)
    requires Exclusive(s, has) && i < |s.val| == |s.taken| == |s.raised| && s' == Reset(s, i, v)
    requires forall t :: 0 <= t < |has| ==> !InPossession(s, has, t, i)
    ensures Exclusive(s', has)
  {
    forall u, j | 0 <= u < |has| && 0 <= j < |s.val| && InPossession(s', has, u, j)
      ensures InPossession(s, has, u, j) && j != i
    {
      assert InPossession(s, has, u, j) && !InPossession(s, has, u, i);
    }
  }

  lemma NextExclusive(s: State, has: seq<set<nat>>, step: Step, s': State)
    requires Exclusive(s, has) && Next(s, step, s') && Allowed(s, has, step)
    ensures Exclusive(s', After(has, s, step))
  {
    match step
    case CallUp(t, i) => CallExclusive(s, has, t, i, s');
    case Run(t) =>
      var pc := s.threads[t].pc;
      if pc.Test? && s.val[pc.i] != 0 {
        TakeExclusive(s, has, t, pc.i, s');
      } else if pc.Raise? {
        RaiseExclusive(s, has, t, pc.i, s');
      } else {
        NotReleasing(s, t, s');
        KeepsExclusive(s, has, s');
      }
    case Alloc(_, r) =>
      if r != -1 {
        ResetExclusive(s, has, r, 1, s');
      }
    case Free(_, i) => ResetExclusive(s, has, i, -1, s');
    case _ => KeepsExclusive(s, has, s');
  }

  /** Only a call makes a thread release a lock. */
  lemma NotReleasing(s: State, t: nat, s': State)
    requires t < |s.threads| == |s.plock| && |s.val| == |s.taken| == |s.raised| && Executes(s, t, s')
    requires
      && !s.threads[t].pc.Raise?
      && (s.threads[t].pc.Test? ==> s.threads[t].pc.i < |s.val| && s.val[s.threads[t].pc.i] == 0)
    ensures |s'.threads| == |s.threads| && s'.val == s.val
    ensures forall u, i :: 0 <= u < |s.threads| && 0 <= i && Releasing(s'.threads[u].pc, i) ==>
      Releasing(s.threads[u].pc, i)
  {
    var pc, pc' := s.threads[t].pc, s'.threads[t].pc;
    match pc
    case YieldMark(back) => assert pc' == Off(YieldDone(back)) && Inner(pc') == Inner(YieldDone(back)) == Inner(back);
    case YieldLock(back) => assert pc' == YieldMark(back);
    case YieldDone(back) => assert pc' == back;
    case Mark(i) => assert pc' == Off(Tidy(i)) && Inner(pc') == Inner(Tidy(i));
    case _ =>
  }

  lemma {:induction false} RunExclusive(run: seq<State>, steps: seq<Step>, k: nat)
    requires IsRun(run, steps) && Disciplined(run, steps) && k < |run|
    ensures Exclusive(run[k], Having(run, steps, k))
  {
    if k > 0 {
      RunExclusive(run, steps, k - 1);
      assert Allowed(run[k - 1], Having(run, steps, k - 1), steps[k - 1]);
      NextExclusive(run[k - 1], Having(run, steps, k - 1), steps[k - 1], run[k]);
    }
  }

  /** Mutual exclusion: when only holders release, no two threads have the same lock, in any
      run; and while one has it, its value is 0, so that the others wait. */
  lemma MutualExclusion(run: seq<State>, steps: seq<Step>, k: nat, t: nat, u: nat, i: nat)
    requires IsRun(run, steps) && Disciplined(run, steps) && k < |run| && i < |run[k].val|
    requires t < |run[k].threads| && u < |run[k].threads|
    requires i in Having(run, steps, k)[t] && i in Having(run, steps, k)[u]
    ensures t == u && run[k].val[i] == 0
  {
    RunExclusive(run, steps, k);
    assert InPossession(run[k], Having(run, steps, k), t, i) && InPossession(run[k], Having(run, steps, k), u, i);
  }
}
