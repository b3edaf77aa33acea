/** Every interleaving of threads that share the block cache. A handle is one
    bread ... brelse lifetime; each step is one section under a lock. */
module CacheRuns {
  import opened Blocks
  import opened Common
  import opened BufferCache

  datatype Phase =
    | Waiting  // counted by bget, about to take the buffer's sleep lock
    | Holding  // owns the sleep lock
    | Leaving  // gave the sleep lock up, still counted

  datatype Handle = Handle(i: nat, bn: nat, phase: Phase)

  datatype State = State(
    buf: seq<Buf>,
    disk: Disk,
    mem: Disk,                  // the most recently stored contents of each block
    handles: map<nat, Handle>,
    pins: seq<nat>)             // bpin minus bunpin, per buffer

  datatype Step =
    | Get(h: nat, bn: nat, i: nat)
    | Acquire(h: nat)
    | Fill(h: nat)
    | Store(h: nat, data: Block)
    | WriteOut(h: nat)
    | Pin(h: nat)
    | Unpin(h: nat)
    | ReleaseSleep(h: nat)
    | Drop(h: nat)

  ghost predicate Holds(s: State, h: nat) {
    h in s.handles && s.handles[h].phase == Holding && s.handles[h].i < |s.buf| == |s.pins|
    && s.handles[h].bn < |s.disk| == |s.mem|
  }

  /** Changes are written out or pinned before the sleep lock is given up. */
  ghost predicate Settled(s: State, h: nat)
    requires Holds(s, h)
  {
    s.mem[s.handles[h].bn] == s.disk[s.handles[h].bn] || s.pins[s.handles[h].i] > 0
  }

  ghost predicate Next(s: State, s': State, step: Step) {
    match step
    case Get(h, bn, i) =>
      && h !in s.handles && bn < |s.disk|
      && GetStep(s.buf, s'.buf, bn, i)
      && s' == s.(buf := s'.buf, handles := s.handles[h := Handle(i, bn, Waiting)])
    case Acquire(h) =>
      && h in s.handles && s.handles[h].phase == Waiting
      && var i := s.handles[h].i;
      && i < |s.buf| && !s.buf[i].locked
      && s' == s.(buf := s.buf[i := s.buf[i].(locked := true)],
                  handles := s.handles[h := s.handles[h].(phase := Holding)])
    case Fill(h) =>
      && Holds(s, h)
      && var i := s.handles[h].i;
      && !s.buf[i].valid
      && s' == s.(buf := s.buf[i := s.buf[i].(valid := true, data := s.disk[s.handles[h].bn])])
    case Store(h, data) =>
      && Holds(s, h)
      && var i := s.handles[h].i;
      && s.buf[i].valid
      && s' == s.(buf := s.buf[i := s.buf[i].(data := data)], mem := s.mem[s.handles[h].bn := data])
    case WriteOut(h) =>
      && Holds(s, h)
      && var i := s.handles[h].i;
      && s.buf[i].valid
      && s' == s.(disk := s.disk[s.handles[h].bn := s.buf[i].data])
    case Pin(h) =>
      && Holds(s, h)
      && var i := s.handles[h].i;
      && s' == s.(buf := s.buf[i := s.buf[i].(refcnt := s.buf[i].refcnt + 1)], pins := s.pins[i := s.pins[i] + 1])
    case Unpin(h) =>
      && Holds(s, h)
      && var i := s.handles[h].i;
      && s.pins[i] > 0 && s.buf[i].refcnt > 0
      && s' == s.(buf := s.buf[i := s.buf[i].(refcnt := s.buf[i].refcnt - 1)], pins := s.pins[i := s.pins[i] - 1])
    case ReleaseSleep(h) =>
      && Holds(s, h) && Settled(s, h)
      && var i := s.handles[h].i;
      && s' == s.(buf := s.buf[i := s.buf[i].(locked := false)],
                  handles := s.handles[h := s.handles[h].(phase := Leaving)])
    case Drop(h) =>
      && h in s.handles && s.handles[h].phase == Leaving
      && var i := s.handles[h].i;
      && i < |s.buf| && s.buf[i].refcnt > 0
      && s' == s.(buf := s.buf[i := s.buf[i].(refcnt := s.buf[i].refcnt - 1)], handles := s.handles - {h})
  }

  ghost predicate Init(s: State) {
    && |s.buf| == NBUF && s.mem == s.disk && s.handles == map[] && s.pins == seq(NBUF, _ => 0)
    && forall i :: 0 <= i < NBUF ==> s.buf[i].dev == 0 && s.buf[i].refcnt == 0 && !s.buf[i].locked
  }

  ghost function On(handles: map<nat, Handle>, i: nat): set<nat> {
    set h | h in handles && handles[h].i == i
  }

  ghost predicate HeldBy(s: State, i: nat, h: nat) {
    h in s.handles && s.handles[h].i == i && s.handles[h].phase == Holding
  }

  ghost predicate Counted(s: State) {
    && |s.pins| == |s.buf|
    && forall i :: 0 <= i < |s.buf| ==> s.buf[i].refcnt == s.pins[i] + |On(s.handles, i)|
  }

  ghost predicate Exclusive(s: State) {
    && (forall i :: 0 <= i < |s.buf| && s.buf[i].locked ==> exists h :: HeldBy(s, i, h))
    && (forall i, h :: 0 <= i < |s.buf| && HeldBy(s, i, h) ==> s.buf[i].locked)
    && (forall i, h, g :: HeldBy(s, i, h) && HeldBy(s, i, g) ==> h == g)
  }

  ghost predicate Attached(s: State) {
    forall h :: h in s.handles ==>
      s.handles[h].i < |s.buf| && s.handles[h].bn < |s.disk| && s.buf[s.handles[h].i].Holds(s.handles[h].bn)
  }

  /** A block newer in memory than on disk is pinned or being worked on. */
  ghost predicate Kept(s: State) {
    && |s.pins| == |s.buf| && |s.mem| == |s.disk|
    && forall bn :: 0 <= bn < |s.disk| && s.mem[bn] != s.disk[bn] ==>
         exists i :: 0 <= i < |s.buf| && s.buf[i].Holds(bn) && s.buf[i].valid
                     && (s.pins[i] > 0 || exists h :: HeldBy(s, i, h))
  }

  ghost predicate Inv(s: State) {
    && |s.buf| == NBUF
    && Coherent(s.buf, s.disk, s.mem)
    && Attached(s) && Counted(s) && Exclusive(s) && Kept(s)
  }

  lemma InitInv(s: State)
    requires Init(s)
    ensures Inv(s)
  {
    assert forall i :: On(s.handles, i) == {};
  }

  lemma OnAfterAdd(handles: map<nat, Handle>, h: nat, x: Handle)
    requires h !in handles
    ensures forall i :: On(handles[h := x], i) == if i == x.i then On(handles, i) + {h} else On(handles, i)
  {
    forall i
      ensures On(handles[h := x], i) == if i == x.i then On(handles, i) + {h} else On(handles, i)
    {
    }
  }

  lemma OnAfterPhase(handles: map<nat, Handle>, h: nat, p: Phase)
    requires h in handles
    ensures forall i :: On(handles[h := handles[h].(phase := p)], i) == On(handles, i)
  {
    forall i
      ensures On(handles[h := handles[h].(phase := p)], i) == On(handles, i)
    {
    }
  }

  lemma OnAfterRemove(handles: map<nat, Handle>, h: nat)
    requires h in handles
    ensures forall i :: On(handles - {h}, i) == On(handles, i) - {h}
  {
    forall i
      ensures On(handles - {h}, i) == On(handles, i) - {h}
    {
    }
  }

  /** A handle or a pin on a buffer shows in its reference count. */
  lemma Referenced(s: State, i: nat, h: nat)
    requires Counted(s) && i < |s.buf|
    requires s.pins[i] > 0 || (h in s.handles && s.handles[h].i == i)
    ensures s.buf[i].refcnt > 0
  {
    if s.pins[i] == 0 {
      assert h in On(s.handles, i);
    }
  }

  /** No step takes a referenced buffer away from its block. */
  lemma ReferencedStays(s: State, s': State, step: Step, i: nat)
    requires Next(s, s', step) && i < |s.buf| && s.buf[i].refcnt > 0
    ensures |s'.buf| == |s.buf| && s'.buf[i].dev == s.buf[i].dev && s'.buf[i].blockno == s.buf[i].blockno
    ensures s.buf[i].valid ==> s'.buf[i].valid
  {
  }

  /** A handle stays on its buffer and block for life. */
  lemma HandleStays(s: State, s': State, step: Step, g: nat)
    requires Next(s, s', step) && g in s'.handles
    ensures if g in s.handles then s'.handles[g].i == s.handles[g].i && s'.handles[g].bn == s.handles[g].bn
            else step.Get? && s'.handles[g] == Handle(step.i, step.bn, Waiting)
  {
  }

  /** Whoever is counted on a buffer keeps it attached to its block. */
  lemma NextAttached(s: State, s': State, step: Step)
    requires Inv(s) && Next(s, s', step)
    ensures Attached(s')
  {
    assert |s'.disk| == |s.disk|;
    forall g | g in s'.handles
      ensures var x := s'.handles[g];
        x.i < |s'.buf| && x.bn < |s'.disk| && s'.buf[x.i].Holds(x.bn)
    {
      HandleStays(s, s', step, g);
      if g in s.handles {
        Referenced(s, s.handles[g].i, g);
        ReferencedStays(s, s', step, s.handles[g].i);
      }
    }
  }

  lemma NextCounted(s: State, s': State, step: Step)
    requires Inv(s) && Next(s, s', step)
    ensures Counted(s')
  {
    match step
    case Get(h, bn, i) => GetCounted(s, s', h, bn, i);
    case Acquire(h) => OnAfterPhase(s.handles, h, Holding);
    case ReleaseSleep(h) => OnAfterPhase(s.handles, h, Leaving);
    case Drop(h) =>
      OnAfterRemove(s.handles, h);
      assert h in On(s.handles, s.handles[h].i);
    case _ =>
  }

  lemma GetCounted(s: State, s': State, h: nat, bn: nat, i: nat)
    requires Inv(s) && Next(s, s', Get(h, bn, i))
    ensures Counted(s')
  {
    OnAfterAdd(s.handles, h, Handle(i, bn, Waiting));
    assert h !in On(s.handles, i);
    if !Cached(s.buf, bn) {
      assert On(s.handles, i) == {};
    }
    forall j | 0 <= j < |s'.buf|
      ensures s'.buf[j].refcnt == s'.pins[j] + |On(s'.handles, j)|
    {
      assert s.buf[j].refcnt == s.pins[j] + |On(s.handles, j)|;
    }
  }

  /** Who holds buffer i after a step. */
  lemma HeldAfter(s: State, s': State, step: Step, i: nat, h: nat)
    requires Next(s, s', step)
    ensures HeldBy(s', i, h) <==>
      (HeldBy(s, i, h) && step != ReleaseSleep(h)) || (step == Acquire(h) && s.handles[h].i == i)
  {
  }

  lemma LockedAfter(s: State, s': State, step: Step, i: nat)
    requires Next(s, s', step) && i < |s.buf|
    ensures |s'.buf| == |s.buf|
    ensures s'.buf[i].locked == if step.Acquire? && s.handles[step.h].i == i then true
                                else if step.ReleaseSleep? && s.handles[step.h].i == i then false
                                else s.buf[i].locked
  {
  }

  lemma NextExclusive(s: State, s': State, step: Step)
    requires Inv(s) && Next(s, s', step)
    ensures Exclusive(s')
  {
    LockedAfter(s, s', step, 0);
    forall i | 0 <= i < NBUF && s'.buf[i].locked
      ensures exists h :: HeldBy(s', i, h)
    {
      LockedAfter(s, s', step, i);
      if step.Acquire? && i == s.handles[step.h].i {
        HeldAfter(s, s', step, i, step.h);
      } else {
        var h :| HeldBy(s, i, h);
        HeldAfter(s, s', step, i, h);
      }
    }
    forall i, h | 0 <= i < NBUF && HeldBy(s', i, h)
      ensures s'.buf[i].locked
    {
      LockedAfter(s, s', step, i);
      HeldAfter(s, s', step, i, h);
      if step.ReleaseSleep? && i == s.handles[step.h].i {
        assert HeldBy(s, i, step.h);
      }
    }
    forall i, h, g | HeldBy(s', i, h) && HeldBy(s', i, g)
      ensures h == g
    {
      HeldAfter(s, s', step, i, h);
      HeldAfter(s, s', step, i, g);
    }
  }

  lemma NextKept(s: State, s': State, step: Step)
    requires Inv(s) && Next(s, s', step)
    ensures Kept(s')
  {
    forall bn | 0 <= bn < |s'.disk| && s'.mem[bn] != s'.disk[bn]
      ensures exists i :: 0 <= i < |s'.buf| && s'.buf[i].Holds(bn) && s'.buf[i].valid
                          && (s'.pins[i] > 0 || exists h :: HeldBy(s', i, h))
    {
      if step.Store? && s.handles[step.h].bn == bn {
        assert HeldBy(s', s.handles[step.h].i, step.h);
      } else {
        var i :| 0 <= i < |s.buf| && s.buf[i].Holds(bn) && s.buf[i].valid
                 && (s.pins[i] > 0 || exists h :: HeldBy(s, i, h));
        KeptBuffer(s, s', step, bn, i);
      }
    }
  }

  lemma KeptBuffer(s: State, s': State, step: Step, bn: nat, i: nat)
    requires Attached(s) && Counted(s) && Next(s, s', step) && i < |s.buf|
    requires bn < |s'.disk| == |s'.mem| && s'.mem[bn] != s'.disk[bn]
    requires s.buf[i].Holds(bn) && s.buf[i].valid && (s.pins[i] > 0 || exists h :: HeldBy(s, i, h))
    ensures |s'.buf| == |s.buf| == |s'.pins|
    ensures s'.buf[i].Holds(bn) && s'.buf[i].valid && (s'.pins[i] > 0 || exists h :: HeldBy(s', i, h))
  {
    if s.pins[i] > 0 {
      Referenced(s, i, 0);
      ReferencedStays(s, s', step, i);
      if step.Unpin? && s.handles[step.h].i == i {
        HeldAfter(s, s', step, i, step.h);
      }
    } else {
      var h :| HeldBy(s, i, h);
      Referenced(s, i, h);
      ReferencedStays(s, s', step, i);
      HeldAfter(s, s', step, i, h);
      if step == ReleaseSleep(h) {
        assert false;
      }
    }
  }

  lemma NextCoherent(s: State, s': State, step: Step)
    requires |s.buf| == NBUF && Coherent(s.buf, s.disk, s.mem) && Attached(s) && Counted(s)
    requires Next(s, s', step) && Kept(s') && Counted(s')
    ensures |s'.buf| == NBUF && Coherent(s'.buf, s'.disk, s'.mem)
  {
    if step.Get? || step.Acquire? || step.ReleaseSleep? {
      LockCoherent(s, s', step);
    } else if step.Fill? || step.Store? || step.WriteOut? {
      DataCoherent(s, s', step);
    } else {
      RefsCoherent(s, s', step);
    }
  }

  lemma LockCoherent(s: State, s': State, step: Step)
    requires |s.buf| == NBUF && Coherent(s.buf, s.disk, s.mem) && Next(s, s', step)
    requires step.Get? || step.Acquire? || step.ReleaseSleep?
    ensures |s'.buf| == NBUF && Coherent(s'.buf, s'.disk, s'.mem)
  {
    match step
    case Get(h, bn, i) => GetStepCoherent(s.buf, s'.buf, bn, i, s.disk, s.mem);
    case Acquire(h) => LockKeepsCoherent(s.buf, s.handles[h].i, true, s.disk, s.mem);
    case ReleaseSleep(h) => LockKeepsCoherent(s.buf, s.handles[h].i, false, s.disk, s.mem);
  }

  lemma DataCoherent(s: State, s': State, step: Step)
    requires |s.buf| == NBUF && Coherent(s.buf, s.disk, s.mem) && Attached(s) && Counted(s) && Next(s, s', step)
    requires step.Fill? || step.Store? || step.WriteOut?
    ensures |s'.buf| == NBUF && Coherent(s'.buf, s'.disk, s'.mem)
  {
    match step
    case Fill(h) => FillKeepsCoherent(s.buf, s.handles[h].i, s.disk, s.mem);
    case Store(h, data) =>
      Referenced(s, s.handles[h].i, h);
      StoreKeepsCoherent(s.buf, s.handles[h].i, data, s.disk, s.mem);
    case WriteOut(h) => WriteKeepsCoherent(s.buf, s.handles[h].i, s.disk, s.mem);
  }

  lemma RefsCoherent(s: State, s': State, step: Step)
    requires
      && |s.buf| == NBUF && Coherent(s.buf, s.disk, s.mem) && Counted(s) && Next(s, s', step) && Kept(s') && Counted(s')
    requires step.Pin? || step.Unpin? || step.Drop?
    ensures |s'.buf| == NBUF && Coherent(s'.buf, s'.disk, s'.mem)
  {
    match step
    case Pin(h) => RefsKeepCoherent(s.buf, s.handles[h].i, s.buf[s.handles[h].i].refcnt + 1, s.disk, s.mem);
    case Unpin(h) => DroppedCoherent(s, s', s.handles[h].i);
    case Drop(h) => DroppedCoherent(s, s', s.handles[h].i);
  }

  /** A dropped reference is not the last one on a block newer than the disk. */
  lemma DroppedCoherent(s: State, s': State, i: nat)
    requires Coherent(s.buf, s.disk, s.mem) && i < |s.buf| && s.buf[i].refcnt > 0
    requires s' == s.(buf := s.buf[i := s.buf[i].(refcnt := s.buf[i].refcnt - 1)],
                      handles := s'.handles, pins := s'.pins)
    requires Kept(s') && Counted(s')
    ensures Coherent(s'.buf, s'.disk, s'.mem)
  {
    var bn := s.buf[i].blockno;
    if s.buf[i].dev == ROOTDEV && s.mem[bn] != s.disk[bn] {
      var k :| 0 <= k < |s'.buf| && s'.buf[k].Holds(bn) && s'.buf[k].valid
               && (s'.pins[k] > 0 || exists h :: HeldBy(s', k, h));
      var h :| s'.pins[k] > 0 || HeldBy(s', k, h);
      Referenced(s', k, h);
      assert k == i by { assert s.buf[k].Holds(bn); }
    }
    SameContentsCoherent(s.buf, i, s'.buf[i], s.disk, s.mem);
  }

  lemma NextInv(s: State, s': State, step: Step)
    requires Inv(s) && Next(s, s', step)
    ensures Inv(s')
  {
    NextAttached(s, s', step);
    NextCounted(s, s', step);
    NextExclusive(s, s', step);
    NextKept(s, s', step);
    NextCoherent(s, s', step);
  }

  ghost predicate IsRun(run: seq<State>, steps: seq<Step>) {
    && |run| == |steps| + 1 && Init(run[0])
    && forall k :: 0 <= k < |steps| ==> Next(run[k], run[k + 1], steps[k])
  }

  lemma {:induction false} RunInv(run: seq<State>, steps: seq<Step>, k: nat)
    requires IsRun(run, steps) && k < |run|
    ensures Inv(run[k])
  {
    if k == 0 {
      InitInv(run[0]);
    } else {
      RunInv(run, steps, k - 1);
      NextInv(run[k - 1], run[k], steps[k - 1]);
    }
  }

  /** In every run, whoever holds a filled buffer sees the most recently stored
      contents of its block, is its only holder, and no other buffer has it. */
  lemma ReadsLatest(run: seq<State>, steps: seq<Step>, k: nat, h: nat)
    requires IsRun(run, steps) && k < |run| && Holds(run[k], h) && run[k].buf[run[k].handles[h].i].valid
    ensures var s := run[k];
      var x := s.handles[h];
      && s.buf[x.i].data == s.mem[x.bn]
      && (forall g :: HeldBy(s, x.i, g) ==> g == h)
      && (forall j :: 0 <= j < |s.buf| && s.buf[j].Holds(x.bn) ==> j == x.i)
  {
    RunInv(run, steps, k);
    assert HeldBy(run[k], run[k].handles[h].i, h);
  }

  /** In every run, a pinned block, and any block newer in memory than on disk,
      stays in its buffer: no step recycles it. */
  lemma PinnedStays(run: seq<State>, steps: seq<Step>, k: nat, i: nat)
    requires IsRun(run, steps) && k < |steps| && i < |run[k].buf| == |run[k].pins|
    requires run[k].pins[i] > 0
             || (run[k].buf[i].dev == ROOTDEV && run[k].buf[i].blockno < |run[k].disk| == |run[k].mem|
                 && run[k].mem[run[k].buf[i].blockno] != run[k].disk[run[k].buf[i].blockno])
    ensures i < |run[k + 1].buf|
    ensures run[k + 1].buf[i].dev == run[k].buf[i].dev && run[k + 1].buf[i].blockno == run[k].buf[i].blockno
    ensures run[k].buf[i].valid ==> run[k + 1].buf[i].valid
  {
    RunInv(run, steps, k);
    var s := run[k];
    if s.pins[i] > 0 {
      Referenced(s, i, 0);
    } else {
      assert Coherent(s.buf, s.disk, s.mem);
      var bn := s.buf[i].blockno;
      var j :| 0 <= j < |s.buf| && s.buf[j].Holds(bn) && s.buf[j].valid && s.buf[j].refcnt > 0;
      assert j == i;
    }
    ReferencedStays(s, run[k + 1], steps[k], i);
  }
}
