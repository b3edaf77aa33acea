/** user/Csemaphore.c: a counting semaphore from two binary ones, for any number of threads
    that share it. A binary semaphore's down waits for 1 and makes it 0; up makes it 1. */
module CountingSemaphores {

  /** Where a thread is: outside, before a statement of csem_down (D) or of csem_up (U). */
  datatype Pc =
    | Idle
    | DownTurn        // bsem_down(bsem2)
    | DownLock        // bsem_down(bsem1)
    | DownCount       // count -= 1
    | DownPass        // if count > 0, bsem_up(bsem2)
    | DownUnlock      // bsem_up(bsem1)
    | UpLock          // bsem_down(bsem1)
    | UpCount         // count += 1
    | UpPass          // if count == 1, bsem_up(bsem2)
    | UpUnlock        // bsem_up(bsem1)

  /** bsem1 and bsem2 as values, the count, the threads, and how often count went up and
      down. */
  datatype State = State(bsem1: int, bsem2: int, count: int, pcs: seq<Pc>, ups: nat, downs: nat)

  datatype Step = CallDown(i: nat) | CallUp(i: nat) | Run(i: nat)

  /** csem_alloc: both semaphores are 1 at first; bsem2 is taken if count is 0. */
  function Alloc(count: int, threads: nat): State {
    State(1, if count == 0 then 0 else 1, count, seq(threads, _ => Idle), 0, 0)
  }

  /** Whether thread i can take its next step; it waits in a binary semaphore's down. */
  predicate Ready(s: State, pc: Pc) {
    match pc
    case Idle => false
    case DownTurn => s.bsem2 == 1
    case DownLock => s.bsem1 == 1
    case UpLock => s.bsem1 == 1
    case _ => true
  }

  /** One statement of a thread at pc, and where it goes. */
  function Execute(s: State, pc: Pc): (State, Pc)
    requires Ready(s, pc)
  {
    match pc
    case DownTurn => (s.(bsem2 := 0), DownLock)
    case DownLock => (s.(bsem1 := 0), DownCount)
    case DownCount => (s.(count := s.count - 1, downs := s.downs + 1), DownPass)
    case DownPass => (if s.count > 0 then s.(bsem2 := 1) else s, DownUnlock)
    case DownUnlock => (s.(bsem1 := 1), Idle)
    case UpLock => (s.(bsem1 := 0), UpCount)
    case UpCount => (s.(count := s.count + 1, ups := s.ups + 1), UpPass)
    case UpPass => (if s.count == 1 then s.(bsem2 := 1) else s, UpUnlock)
    case UpUnlock => (s.(bsem1 := 1), Idle)
  }

  predicate Next(s: State, step: Step, s': State) {
    step.i < |s.pcs| &&
    match step
    case CallDown(i) => s.pcs[i] == Idle && s' == s.(pcs := s.pcs[i := DownTurn])
    case CallUp(i) => s.pcs[i] == Idle && s' == s.(pcs := s.pcs[i := UpLock])
    case Run(i) => Ready(s, s.pcs[i]) && var (r, pc) := Execute(s, s.pcs[i]); s' == r.(pcs := s.pcs[i := pc])
  }

  ghost predicate IsRun(run: seq<State>, steps: seq<Step>, count: int) {
    && |run| == |steps| + 1 && run[0] == Alloc(count, |run[0].pcs|)
    && forall k :: 0 <= k < |steps| ==> Next(run[k], steps[k], run[k + 1])
  }

  /** 1 if the thread is between its down and its up of bsem1. */
  function Locked(pc: Pc): nat {
    match pc
    case DownCount => 1
    case DownPass => 1
    case DownUnlock => 1
    case UpCount => 1
    case UpPass => 1
    case UpUnlock => 1
    case _ => 0
  }

  /** 1 if the thread has the turn: it took bsem2 and did not count down yet, or it is about
      to raise bsem2. */
  function Turn(pc: Pc, count: int): nat {
    match pc
    case DownLock => 1
    case DownCount => 1
    case DownPass => if count > 0 then 1 else 0
    case UpPass => if count == 1 then 1 else 0
    case _ => 0
  }

  function LockedSum(pcs: seq<Pc>): nat {
    if pcs == [] then 0 else LockedSum(pcs[1..]) + Locked(pcs[0])
  }

  function TurnSum(pcs: seq<Pc>, count: int): nat {
    if pcs == [] then 0 else TurnSum(pcs[1..], count) + Turn(pcs[0], count)
  }

  /** bsem1 is free exactly if no thread is inside; the turn, in bsem2 or with a thread,
      exists exactly once if the count is positive, and else not at all. */
  ghost predicate Inv(s: State, initial: int) {
    && s.bsem1 in {0, 1} && s.bsem2 in {0, 1} && s.count >= 0
    && s.bsem1 + LockedSum(s.pcs) == 1
    && s.bsem2 + TurnSum(s.pcs, s.count) == (if s.count > 0 then 1 else 0)
    && s.count == initial + s.ups - s.downs
  }

  lemma {:induction false} LockedUpdate(pcs: seq<Pc>, i: nat, pc: Pc)
    requires i < |pcs|
    ensures LockedSum(pcs[i := pc]) == LockedSum(pcs) - Locked(pcs[i]) + Locked(pc)
    ensures LockedSum(pcs) >= Locked(pcs[i])
  {
    if i == 0 {
      assert pcs[i := pc][1..] == pcs[1..];
    } else {
      assert pcs[i := pc][1..] == pcs[1..][i - 1 := pc];
      LockedUpdate(pcs[1..], i - 1, pc);
    }
  }

  lemma {:induction false} TurnUpdate(pcs: seq<Pc>, count: int, i: nat, pc: Pc)
    requires i < |pcs|
    ensures TurnSum(pcs[i := pc], count) == TurnSum(pcs, count) - Turn(pcs[i], count) + Turn(pc, count)
    ensures TurnSum(pcs, count) >= Turn(pcs[i], count)
  {
    if i == 0 {
      assert pcs[i := pc][1..] == pcs[1..];
    } else {
      assert pcs[i := pc][1..] == pcs[1..][i - 1 := pc];
      TurnUpdate(pcs[1..], count, i - 1, pc);
    }
  }

  /** Two threads inside would make LockedSum 2. */
  lemma {:induction false} Alone(pcs: seq<Pc>, i: nat, j: nat)
    requires i < |pcs| && j < |pcs| && i != j && Locked(pcs[i]) == 1 && LockedSum(pcs) <= 1
    ensures Locked(pcs[j]) == 0
  {
    LockedUpdate(pcs, i, Idle);
    LockedUpdate(pcs[i := Idle], j, Idle);
  }

  /** The count matters to the turn only of a thread inside. */
  lemma {:induction false} TurnOfOthers(pcs: seq<Pc>, count: int, count': int)
    requires LockedSum(pcs) == 0
    ensures TurnSum(pcs, count') == TurnSum(pcs, count)
  {
    if pcs != [] {
      TurnOfOthers(pcs[1..], count, count');
    }
  }

  lemma {:induction false} NoneIdle(n: nat, count: int)
    ensures LockedSum(seq(n, _ => Idle)) == 0 && TurnSum(seq(n, _ => Idle), count) == 0
  {
    if n > 0 {
      assert seq(n, _ => Idle)[1..] == seq(n - 1, _ => Idle);
      NoneIdle(n - 1, count);
    }
  }

  /** Counting by a thread inside changes no other thread's turn. */
  lemma Counted(s: State, i: nat, count': int, pc: Pc)
    requires i < |s.pcs| && Locked(s.pcs[i]) == 1 && LockedSum(s.pcs) == 1
    ensures TurnSum(s.pcs[i := pc], count') == TurnSum(s.pcs, s.count) - Turn(s.pcs[i], s.count) + Turn(pc, count')
  {
    var rest := s.pcs[i := Idle];
    LockedUpdate(s.pcs, i, Idle);
    TurnUpdate(s.pcs, s.count, i, Idle);
    TurnOfOthers(rest, s.count, count');
    TurnUpdate(rest, count', i, pc);
    assert rest[i := pc] == s.pcs[i := pc];
  }

  lemma NextInv(s: State, step: Step, s': State, initial: int)
    requires Inv(s, initial) && Next(s, step, s')
    ensures Inv(s', initial)
  {
    var i := step.i;
    LockedUpdate(s.pcs, i, s'.pcs[i]);
    if step.Run? && (s.pcs[i] == DownCount || s.pcs[i] == UpCount) {
      TurnUpdate(s.pcs, s.count, i, Idle);
      Counted(s, i, s'.count, s'.pcs[i]);
    } else {
      TurnUpdate(s.pcs, s.count, i, s'.pcs[i]);
    }
  }

  lemma {:induction false} RunInv(run: seq<State>, steps: seq<Step>, initial: int, k: nat)
    requires IsRun(run, steps, initial) && initial >= 0 && k < |run|
    ensures Inv(run[k], initial)
  {
    if k == 0 {
      NoneIdle(|run[0].pcs|, initial);
    } else {
      RunInv(run, steps, initial, k - 1);
      NextInv(run[k - 1], steps[k - 1], run[k], initial);
    }
  }

  /** In every run count is the initial count plus ups minus downs, and never negative. */
  lemma CountIsRight(run: seq<State>, steps: seq<Step>, initial: int, k: nat)
    requires IsRun(run, steps, initial) && initial >= 0 && k < |run|
    ensures run[k].count == initial + run[k].ups - run[k].downs >= 0
  {
    RunInv(run, steps, initial, k);
  }

  /** bsem2 is never raised while it is 1, and neither is bsem1. */
  lemma NeverRaisedTwice(run: seq<State>, steps: seq<Step>, initial: int, k: nat, i: nat)
    requires IsRun(run, steps, initial) && initial >= 0 && k < |steps| && steps[k] == Run(i) && i < |run[k].pcs|
    ensures var pc, s := run[k].pcs[i], run[k];
      && ((pc == DownPass && s.count > 0) || (pc == UpPass && s.count == 1) ==> s.bsem2 == 0)
      && (pc == DownUnlock || pc == UpUnlock ==> s.bsem1 == 0)
  {
    RunInv(run, steps, initial, k);
    var s := run[k];
    LockedUpdate(s.pcs, i, Idle);
    TurnUpdate(s.pcs, s.count, i, Idle);
  }

  /** At most one thread is between its down and its up of bsem1. */
  lemma Exclusive(run: seq<State>, steps: seq<Step>, initial: int, k: nat, i: nat, j: nat)
    requires IsRun(run, steps, initial) && initial >= 0 && k < |run| && i < |run[k].pcs| && j < |run[k].pcs|
    requires Locked(run[k].pcs[i]) == 1 && Locked(run[k].pcs[j]) == 1
    ensures i == j
  {
    RunInv(run, steps, initial, k);
    if i != j {
      Alone(run[k].pcs, i, j);
    }
  }

  /** No thread is past the first statement of csem_down, or past that of csem_up. */
  ghost predicate Quiet(s: State) {
    forall i :: 0 <= i < |s.pcs| ==> s.pcs[i] in {Idle, DownTurn, UpLock}
  }

  lemma {:induction false} QuietSums(pcs: seq<Pc>, count: int)
    requires forall i :: 0 <= i < |pcs| ==> pcs[i] in {Idle, DownTurn, UpLock}
    ensures LockedSum(pcs) == 0 && TurnSum(pcs, count) == 0
  {
    if pcs != [] {
      QuietSums(pcs[1..], count);
    }
  }

  /** When no thread is inside, bsem2 is min(1, count): a csem_down waits exactly if the
      count is 0, and no csem_up waits. */
  lemma WaitsForCount(run: seq<State>, steps: seq<Step>, initial: int, k: nat)
    requires IsRun(run, steps, initial) && initial >= 0 && k < |run| && Quiet(run[k])
    ensures run[k].bsem2 == (if run[k].count > 0 then 1 else 0) && run[k].bsem1 == 1
  {
    RunInv(run, steps, initial, k);
    QuietSums(run[k].pcs, run[k].count);
  }

  lemma {:induction false} SomeLocked(pcs: seq<Pc>) returns (i: nat)
    requires LockedSum(pcs) > 0
    ensures i < |pcs| && Locked(pcs[i]) == 1
  {
    if Locked(pcs[0]) == 1 {
      i := 0;
    } else {
      i := SomeLocked(pcs[1..]);
      i := i + 1;
    }
  }

  /** No deadlock: in every run some thread can take a step, unless all that have called wait in
      csem_down for a count that is 0. */
  lemma NoDeadlock(run: seq<State>, steps: seq<Step>, initial: int, k: nat, i: nat) returns (j: nat, s': State)
    requires IsRun(run, steps, initial) && initial >= 0 && k < |run| && i < |run[k].pcs|
    requires run[k].pcs[i] != Idle && !(run[k].pcs[i] == DownTurn && run[k].count == 0)
    ensures Next(run[k], Run(j), s')
  {
    RunInv(run, steps, initial, k);
    var s := run[k];
    if LockedSum(s.pcs) > 0 {
      j := SomeLocked(s.pcs);
    } else if x :| 0 <= x < |s.pcs| && s.pcs[x] in {DownLock, UpLock} {
      j := x;
    } else {
      forall x | 0 <= x < |s.pcs|
        ensures s.pcs[x] in {Idle, DownTurn, UpLock}
      {
        LockedUpdate(s.pcs, x, Idle);
      }
      QuietSums(s.pcs, s.count);
      j := i;
    }
    var (r, pc) := Execute(s, s.pcs[j]);
    s' := r.(pcs := s.pcs[j := pc]);
  }

  /** The states of a thread's own steps, one after the other. */
  ghost predicate OwnSteps(run: seq<State>, steps: seq<Step>, i: nat) {
    && |run| == |steps| + 1 && forall k :: 0 <= k < |steps| ==> steps[k].i == i && Next(run[k], steps[k], run[k + 1])
  }

  /** A csem_down that nobody disturbs goes through if the count is positive, and takes one. */
  lemma DownGoesThrough(s: State, initial: int, i: nat) returns (run: seq<State>, steps: seq<Step>)
    requires Inv(s, initial) && Quiet(s) && s.count > 0 && i < |s.pcs| && s.pcs[i] == Idle
    ensures OwnSteps(run, steps, i) && run[0] == s && steps != [] && steps[0] == CallDown(i)
    ensures run[|steps|] ==
      s.(count := s.count - 1, downs := s.downs + 1, bsem2 := if s.count > 1 then 1 else 0)
  {
    QuietSums(s.pcs, s.count);
    var s1 := s.(pcs := s.pcs[i := DownTurn]);
    var s2 := s.(pcs := s.pcs[i := DownLock], bsem2 := 0);
    var s3 := s2.(pcs := s.pcs[i := DownCount], bsem1 := 0);
    var s4 := s3.(pcs := s.pcs[i := DownPass], count := s.count - 1, downs := s.downs + 1);
    var s5 := s4.(pcs := s.pcs[i := DownUnlock], bsem2 := if s.count > 1 then 1 else 0);
    var s6 := s5.(pcs := s.pcs[i := Idle], bsem1 := 1);
    run := [s, s1, s2, s3, s4, s5, s6];
    steps := [CallDown(i), Run(i), Run(i), Run(i), Run(i), Run(i)];
    assert s.pcs[i := Idle] == s.pcs;
  }

  /** A csem_up that nobody disturbs goes through, whatever the count, and adds one. */
  lemma UpGoesThrough(s: State, initial: int, i: nat) returns (run: seq<State>, steps: seq<Step>)
    requires Inv(s, initial) && Quiet(s) && i < |s.pcs| && s.pcs[i] == Idle
    ensures OwnSteps(run, steps, i) && run[0] == s && steps != [] && steps[0] == CallUp(i)
    ensures run[|steps|] == s.(count := s.count + 1, ups := s.ups + 1, bsem2 := 1)
  {
    QuietSums(s.pcs, s.count);
    var s1 := s.(pcs := s.pcs[i := UpLock]);
    var s2 := s.(pcs := s.pcs[i := UpCount], bsem1 := 0);
    var s3 := s2.(pcs := s.pcs[i := UpPass], count := s.count + 1, ups := s.ups + 1);
    var s4 := s3.(pcs := s.pcs[i := UpUnlock], bsem2 := 1);
    var s5 := s4.(pcs := s.pcs[i := Idle], bsem1 := 1);
    run := [s, s1, s2, s3, s4, s5];
    steps := [CallUp(i), Run(i), Run(i), Run(i), Run(i)];
    assert s.pcs[i := Idle] == s.pcs;
  }

  /** The whole invariant holds from the start exactly for initial counts that are not
      negative: csem_alloc leaves bsem2 at 1 for the others. */
  lemma NeedsCount(initial: int, threads: nat)
    ensures Inv(Alloc(initial, threads), initial) <==> initial >= 0
  {
    NoneIdle(threads, initial);
  }

  /** From a negative count a csem_down goes through nevertheless. */
  lemma NegativePasses(initial: int) returns (run: seq<State>, steps: seq<Step>)
    requires initial < 0
    ensures
      && IsRun(run, steps, initial) && |steps| == 6 && run[6].pcs == [Idle] && run[6].downs == 1
      && run[6].count == initial - 1
  {
    var s0 := Alloc(initial, 1);
    assert s0.pcs == [Idle];
    var s1 := s0.(pcs := [DownTurn]);
    var s2 := s1.(pcs := [DownLock], bsem2 := 0);
    var s3 := s2.(pcs := [DownCount], bsem1 := 0);
    var s4 := s3.(pcs := [DownPass], count := initial - 1, downs := 1);
    var s5 := s4.(pcs := [DownUnlock]);
    var s6 := s5.(pcs := [Idle], bsem1 := 1);
    run := [s0, s1, s2, s3, s4, s5, s6];
    steps := [CallDown(0), Run(0), Run(0), Run(0), Run(0), Run(0)];
  }
}
