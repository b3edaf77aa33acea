/** Group commit: every interleaving of begin_op, log_write, end_op, the block
    writes of commit, crashes, and the block writes of recovery. */
module Transactions {
  import opened Blocks
  import opened RedoLog

  /** An outstanding file system call; used counts the log slots it has added. */
  datatype Op = Op(id: nat, used: nat)

  /** One log_write in the history of the system. */
  datatype Entry = Entry(op: nat, bn: nat, data: Block)

  datatype Phase =
    | Running
    // commit has sent k of its writes; the disk was d0 when it began, and the
    // writes before index from of the history were committed already
    | Committing(d0: Disk, from: nat, k: nat)
    // recover_from_log has sent k of its writes since the boot with disk d0
    | Recovering(d0: Disk, k: nat)

  datatype State = State(
    disk: Disk,
    mem: Disk,             // contents through the block cache
    lh: seq<nat>,          // lh.block[0..lh.n)
    ops: seq<Op>,          // log.outstanding == |ops|
    committing: bool,
    phase: Phase,
    hist: seq<Entry>,      // every log_write that no crash has undone
    durable: nat,          // how much of hist the last commit point covers
    cut: nat,              // the operations before that point have ids below cut
    nextId: nat)

  datatype Step =
    | Begin
    | LogWrite(i: nat, bn: nat, data: Block)
    | End(i: nat)
    | CommitWrite
    | CommitDone
    | Crash
    | RecoverWrite
    | RecoverDone

  /** The file system contents after the writes es. */
  ghost function Replay(d: Disk, es: seq<Entry>): (r: Disk)
    requires forall i :: 0 <= i < |es| ==> es[i].bn < |d|
    ensures |r| == |d|
  {
    if es == [] then d else
      var k := |es| - 1;
      Replay(d, es[..k])[es[k].bn := es[k].data]
  }

  ghost predicate LogFull(s: State, g: Region) {
    |s.lh| >= LOGSIZE || |s.lh| >= g.size - 1
  }

  /** The log blocks after log_write of bn: absorbed or appended. */
  function Absorb(lh: seq<nat>, bn: nat): seq<nat> {
    if bn in lh then lh else lh + [bn]
  }

  ghost predicate Next(s: State, s': State, step: Step, g: Region) {
    match step
    case Begin =>
      && !s.phase.Recovering?
      && !s.committing && |s.lh| + (|s.ops| + 1) * MAXOPBLOCKS <= LOGSIZE
      && s' == s.(ops := s.ops + [Op(s.nextId, 0)], nextId := s.nextId + 1)
    case LogWrite(i, bn, data) =>
      && i < |s.ops| && !LogFull(s, g) && bn < |s.mem| && !g.Has(bn)
      && var op := s.ops[i];
      && s' == s.(mem := s.mem[bn := data],
                  lh := Absorb(s.lh, bn),
                  ops := s.ops[i := Op(op.id, if bn in s.lh then op.used else op.used + 1)],
                  hist := s.hist + [Entry(op.id, bn, data)])
    case End(i) =>
      && i < |s.ops| && !s.committing
      && var ops := s.ops[..i] + s.ops[i + 1..];
      && s' == if ops != [] then s.(ops := ops)
               else s.(ops := ops, committing := true, phase := Committing(s.disk, s.durable, 0))
    case CommitWrite =>
      && s.phase.Committing? && Committable(s, g)
      && var ws := CommitWrites(s.phase.d0, g, s.lh, s.mem);
      && var k := s.phase.k;
      && k < |ws| && |s.disk| == |s.mem|
      && s' == s.(disk := s.disk[ws[k].bn := ws[k].data],
                  phase := Committing(s.phase.d0, s.phase.from, k + 1),
                  durable := if k == |s.lh| then |s.hist| else s.durable,
                  cut := if k == |s.lh| then s.nextId else s.cut)
    case CommitDone =>
      && s.phase.Committing? && Committable(s, g)
      && s.phase.k == |CommitWrites(s.phase.d0, g, s.lh, s.mem)|
      && s' == s.(lh := [], committing := false, phase := Running)
    case Crash =>
      && s.durable <= |s.hist|
      && s' == State(s.disk, s.disk, [], [], false, Recovering(s.disk, 0), s.hist[..s.durable], s.durable,
                    s.cut, s.nextId)
    case RecoverWrite =>
      && s.phase.Recovering? && Recoverable(s.phase.d0, g)
      && var ws := RecoverWrites(s.phase.d0, g);
      && var k := s.phase.k;
      && k < |ws| && |s.disk| == |s.phase.d0|
      && s' == s.(disk := s.disk[ws[k].bn := ws[k].data], phase := Recovering(s.phase.d0, k + 1))
    case RecoverDone =>
      && s.phase.Recovering? && Recoverable(s.phase.d0, g) && s.phase.k == |RecoverWrites(s.phase.d0, g)|
      && s' == s.(mem := s.disk, phase := Running)
  }

  ghost predicate Committable(s: State, g: Region)
    requires s.phase.Committing?
  {
    Clear(s.phase.d0, g) && Loggable(s.lh, g, |s.phase.d0|) && |s.mem| == |s.phase.d0|
  }

  /** A freshly made file system: nothing logged, nothing running. */
  ghost predicate Init(s: State, g: Region) {
    && Clear(s.disk, g) && 1 < g.size
    && s == State(s.disk, s.disk, [], [], false, Running, [], 0, 0, 0)
  }

  /** Every logged write goes to a home block. */
  ghost predicate Homes(hist: seq<Entry>, g: Region, home: Disk) {
    && 1 < g.size && g.start + g.size <= |home| <= 0x1_0000_0000
    && forall i :: 0 <= i < |hist| ==> hist[i].bn < |home| && !g.Has(hist[i].bn)
  }

  /** d shows the first k writes of the history on every home block. */
  ghost predicate Shows(d: Disk, hist: seq<Entry>, k: nat, g: Region, home: Disk) {
    && Homes(hist, g, home) && k <= |hist| && |d| == |home|
    && forall bn :: 0 <= bn < |home| && !g.Has(bn) ==> d[bn] == Replay(home, hist[..k])[bn]
  }

  /** The writes from index k on are the current transaction: their blocks are in
      the log header, and d lacks only those. */
  ghost predicate Pending(d: Disk, mem: Disk, lh: seq<nat>, hist: seq<Entry>, k: nat, g: Region, home: Disk) {
    && Clear(d, g) && Loggable(lh, g, |home|) && Shows(d, hist, k, g, home) && Shows(mem, hist, |hist|, g, home)
    && (forall i :: k <= i < |hist| ==> hist[i].bn in lh) && (lh == [] ==> k == |hist|)
    && (forall bn :: 0 <= bn < |home| && !g.Has(bn) && bn !in lh ==> d[bn] == mem[bn])
  }

  /** Index k of the history splits no operation: those with writes before it have
      ids below cut, the others do not, and none before it is still running. */
  ghost predicate Whole(hist: seq<Entry>, ops: seq<Op>, k: nat, cut: nat, nextId: nat) {
    && k <= |hist| && cut <= nextId
    && (forall i :: 0 <= i < |hist| ==> if i < k then hist[i].op < cut else cut <= hist[i].op < nextId)
    && (forall j :: 0 <= j < |ops| ==> cut <= ops[j].id < nextId)
  }

  ghost predicate PhaseOk(s: State, g: Region, home: Disk) {
    match s.phase
    case Running =>
      && !s.committing && Pending(s.disk, s.mem, s.lh, s.hist, s.durable, g, home)
      && (s.ops == [] ==> s.durable == |s.hist| && s.lh == [])
    case Committing(d0, from, k) =>
      && s.committing && s.ops == []
      && Pending(d0, s.mem, s.lh, s.hist, from, g, home)
      && k <= |CommitWrites(d0, g, s.lh, s.mem)|
      && s.disk == PartlyCommitted(d0, g, s.lh, s.mem, k)
      && s.durable == (if k > |s.lh| then |s.hist| else from)
    case Recovering(d0, k) =>
      && !s.committing && s.ops == [] && s.lh == [] && s.durable == |s.hist|
      && Recoverable(d0, g) && |d0| == |home| && k <= |RecoverWrites(d0, g)|
      && s.disk == Apply(d0, RecoverWrites(d0, g)[..k])
      && Shows(Recovered(d0, g), s.hist, |s.hist|, g, home)
  }

  ghost predicate Inv(s: State, g: Region, home: Disk) {
    PhaseOk(s, g, home) && Whole(s.hist, s.ops, s.durable, s.cut, s.nextId)
  }

  lemma InitInv(s: State, g: Region)
    requires Init(s, g)
    ensures Inv(s, g, s.disk)
  {
  }

  /** Wherever the system stops, recovery gives the file system of exactly the
      committed history. */
  lemma StopsSafely(s: State, g: Region, home: Disk)
    requires Inv(s, g, home)
    ensures Recoverable(s.disk, g) && Shows(Recovered(s.disk, g), s.hist, s.durable, g, home)
  {
    match s.phase
    case Running => RunningStops(s.disk, s.mem, s.lh, s.hist, s.durable, g, home);
    case Committing(d0, from, k) => CommittingStops(d0, s.mem, s.lh, s.hist, from, k, g, home);
    case Recovering(d0, k) => RecoveryRestarts(d0, g, k);
  }

  lemma RunningStops(d: Disk, mem: Disk, lh: seq<nat>, hist: seq<Entry>, k: nat, g: Region, home: Disk)
    requires Pending(d, mem, lh, hist, k, g, home)
    ensures Recoverable(d, g) && Shows(Recovered(d, g), hist, k, g, home)
  {
    assert Header(d[g.start]) == [];
    forall bn | 0 <= bn < |home| && !g.Has(bn)
      ensures Recovered(d, g)[bn] == d[bn]
    {
      RecoveredAt(d, g, bn);
    }
  }

  lemma CommittingStops(d: Disk, mem: Disk, lh: seq<nat>, hist: seq<Entry>, from: nat, k: nat, g: Region, home: Disk)
    requires Pending(d, mem, lh, hist, from, g, home) && k <= |CommitWrites(d, g, lh, mem)|
    ensures var d' := PartlyCommitted(d, g, lh, mem, k);
      Recoverable(d', g) && Shows(Recovered(d', g), hist, if k > |lh| then |hist| else from, g, home)
  {
    PartlyCommittedHeader(d, g, lh, mem, k);
    forall bn | 0 <= bn < |home| && !g.Has(bn)
      ensures Recovered(PartlyCommitted(d, g, lh, mem, k), g)[bn] == if k > |lh| then mem[bn] else d[bn]
    {
      CommitIsAtomic(d, g, lh, mem, k, bn);
    }
  }

  lemma ShowsMore(mem: Disk, hist: seq<Entry>, e: Entry, g: Region, home: Disk)
    requires Shows(mem, hist, |hist|, g, home) && e.bn < |mem| && !g.Has(e.bn)
    ensures Shows(mem[e.bn := e.data], hist + [e], |hist| + 1, g, home)
  {
    var hist' := hist + [e];
    assert hist'[..|hist|] == hist && hist[..|hist|] == hist && hist'[..|hist| + 1] == hist';
  }

  /** A log_write extends the current transaction. */
  lemma PendingGrows(d: Disk, mem: Disk, lh: seq<nat>, hist: seq<Entry>, k: nat, e: Entry, g: Region, home: Disk)
    requires Pending(d, mem, lh, hist, k, g, home) && e.bn < |mem| && !g.Has(e.bn)
    requires |lh| < LOGSIZE && |lh| < g.size - 1
    ensures Pending(d, mem[e.bn := e.data], Absorb(lh, e.bn), hist + [e], k, g, home)
  {
    ShowsMore(mem, hist, e, g, home);
    assert Shows(d, hist + [e], k, g, home) by { assert (hist + [e])[..k] == hist[..k]; }
    assert Loggable(Absorb(lh, e.bn), g, |home|) by { assert (lh + [e.bn])[..|lh|] == lh; }
  }

  lemma BeginInv(s: State, s': State, g: Region, home: Disk)
    requires Inv(s, g, home) && Next(s, s', Begin, g)
    ensures Inv(s', g, home)
  {
    assert s.phase.Running?;
  }

  lemma LogWriteInv(s: State, s': State, i: nat, bn: nat, data: Block, g: Region, home: Disk)
    requires Inv(s, g, home) && Next(s, s', LogWrite(i, bn, data), g)
    ensures Inv(s', g, home)
  {
    assert s.phase.Running?;
    PendingGrows(s.disk, s.mem, s.lh, s.hist, s.durable, Entry(s.ops[i].id, bn, data), g, home);
  }

  lemma EndInv(s: State, s': State, i: nat, g: Region, home: Disk)
    requires Inv(s, g, home) && Next(s, s', End(i), g)
    ensures Inv(s', g, home)
  {
    assert s.phase.Running?;
    assert s'.ops == [] ==> s.disk == PartlyCommitted(s.disk, g, s.lh, s.mem, 0) by {
      assert CommitWrites(s.disk, g, s.lh, s.mem)[..0] == [];
    }
  }

  lemma WholeAtEnd(hist: seq<Entry>, ops: seq<Op>, k: nat, cut: nat, nextId: nat)
    requires Whole(hist, ops, k, cut, nextId) && ops == []
    ensures Whole(hist, ops, |hist|, nextId, nextId)
  {
  }

  lemma CommitWritePhase(s: State, s': State, g: Region, home: Disk)
    requires PhaseOk(s, g, home) && Next(s, s', CommitWrite, g)
    ensures PhaseOk(s', g, home)
  {
    var d0, k := s.phase.d0, s.phase.k;
    PartlyCommittedMore(d0, g, s.lh, s.mem, k, CommitWrites(d0, g, s.lh, s.mem)[k]);
  }

  lemma CommitWriteInv(s: State, s': State, g: Region, home: Disk)
    requires Inv(s, g, home) && Next(s, s', CommitWrite, g)
    ensures Inv(s', g, home)
  {
    CommitWritePhase(s, s', g, home);
    WholeAtEnd(s.hist, s.ops, s.durable, s.cut, s.nextId);
  }

  lemma CommitDoneInv(s: State, s': State, g: Region, home: Disk)
    requires Inv(s, g, home) && Next(s, s', CommitDone, g)
    ensures Inv(s', g, home)
  {
    var d0 := s.phase.d0;
    var ws := CommitWrites(d0, g, s.lh, s.mem);
    assert ws[..|ws|] == ws;
    CommitCompletes(d0, g, s.lh, s.mem);
    assert s.durable == |s.hist|;
  }

  lemma CrashInv(s: State, s': State, g: Region, home: Disk)
    requires Inv(s, g, home) && Next(s, s', Crash, g)
    ensures Inv(s', g, home)
  {
    StopsSafely(s, g, home);
    assert s'.hist[..|s'.hist|] == s.hist[..s.durable];
    assert RecoverWrites(s.disk, g)[..0] == [];
  }

  lemma RecoverWriteInv(s: State, s': State, g: Region, home: Disk)
    requires Inv(s, g, home) && Next(s, s', RecoverWrite, g)
    ensures Inv(s', g, home)
  {
    ApplyOneMore(s.phase.d0, RecoverWrites(s.phase.d0, g), s.phase.k);
  }

  lemma RecoverDoneInv(s: State, s': State, g: Region, home: Disk)
    requires Inv(s, g, home) && Next(s, s', RecoverDone, g)
    ensures Inv(s', g, home)
  {
    var ws := RecoverWrites(s.phase.d0, g);
    assert ws[..|ws|] == ws;
    RecoveredHeader(s.phase.d0, g, |ws|);
    assert Word(s.disk[g.start], 0) == 0;
  }

  lemma NextInv(s: State, s': State, step: Step, g: Region, home: Disk)
    requires Inv(s, g, home) && Next(s, s', step, g)
    ensures Inv(s', g, home)
  {
    match step
    case Begin => BeginInv(s, s', g, home);
    case LogWrite(i, bn, data) => LogWriteInv(s, s', i, bn, data, g, home);
    case End(i) => EndInv(s, s', i, g, home);
    case CommitWrite => CommitWriteInv(s, s', g, home);
    case CommitDone => CommitDoneInv(s, s', g, home);
    case Crash => CrashInv(s, s', g, home);
    case RecoverWrite => RecoverWriteInv(s, s', g, home);
    case RecoverDone => RecoverDoneInv(s, s', g, home);
  }

  ghost predicate IsRun(run: seq<State>, steps: seq<Step>, g: Region) {
    && |run| == |steps| + 1 && Init(run[0], g)
    && forall k :: 0 <= k < |steps| ==> Next(run[k], run[k + 1], steps[k], g)
  }

  lemma {:induction false} RunInv(run: seq<State>, steps: seq<Step>, g: Region, k: nat)
    requires IsRun(run, steps, g) && k < |run|
    ensures Inv(run[k], g, run[0].disk)
  {
    if k == 0 {
      InitInv(run[0], g);
    } else {
      RunInv(run, steps, g, k - 1);
      NextInv(run[k - 1], run[k], steps[k - 1], g, run[0].disk);
    }
  }

  /** In every run with any number of crashes, wherever the last one strikes and
      however often the recovery after it is cut short (at cuts), the completed
      recovery shows exactly the writes of the operations before the last commit
      point: no operation is split, and none of them is still running. */
  lemma CrashesAreAtomic(run: seq<State>, steps: seq<Step>, g: Region, k: nat, cuts: seq<nat>)
    requires IsRun(run, steps, g) && k < |run|
    ensures var s := run[k];
      && s.durable <= |s.hist| && Recoverable(s.disk, g)
      && Shows(Recovered(CutShort(s.disk, g, cuts), g), s.hist, s.durable, g, run[0].disk)
      && (forall i, j :: 0 <= i < s.durable <= j < |s.hist| ==> s.hist[i].op != s.hist[j].op)
      && (forall i, j :: 0 <= i < s.durable && 0 <= j < |s.ops| ==> s.hist[i].op != s.ops[j].id)
  {
    RunInv(run, steps, g, k);
    StopsSafely(run[k], g, run[0].disk);
    RecoveryConverges(run[k].disk, g, cuts);
  }

  /** In every run a commit is in progress exactly while log.committing is set, and
      then no operation is outstanding; so end_op never meets its panic. Between
      commits with nothing outstanding, every write is durable and home. */
  lemma CommitsRunAlone(run: seq<State>, steps: seq<Step>, g: Region, k: nat)
    requires IsRun(run, steps, g) && k < |run|
    ensures var s := run[k];
      && (s.committing <==> s.phase.Committing?)
      && (s.ops != [] ==> s.phase.Running? && !s.committing)
      && (s.phase.Running? && s.ops == [] ==>
            s.durable == |s.hist| && Shows(s.disk, s.hist, |s.hist|, g, run[0].disk))
  {
    RunInv(run, steps, g, k);
  }

  /** Every operation adds at most MAXOPBLOCKS blocks to the log. */
  ghost predicate Budgeted(s: State, step: Step) {
    step.LogWrite? && step.i < |s.ops| && step.bn !in s.lh ==> s.ops[step.i].used < MAXOPBLOCKS
  }

  /** The log slots that the outstanding operations may still claim. */
  ghost function Unused(ops: seq<Op>): int {
    if ops == [] then 0 else Unused(ops[..|ops| - 1]) + MAXOPBLOCKS - ops[|ops| - 1].used
  }

  ghost predicate Reserved(s: State) {
    && |s.lh| + Unused(s.ops) <= LOGSIZE
    && forall i :: 0 <= i < |s.ops| ==> s.ops[i].used <= MAXOPBLOCKS
  }

  lemma {:induction false} UnusedUpdate(ops: seq<Op>, i: nat, op: Op)
    requires i < |ops|
    ensures Unused(ops[i := op]) == Unused(ops) + ops[i].used - op.used
  {
    var k := |ops| - 1;
    if i < k {
      UnusedUpdate(ops[..k], i, op);
      assert ops[i := op][..k] == ops[..k][i := op];
    } else {
      assert ops[i := op][..k] == ops[..k];
    }
  }

  lemma {:induction false} UnusedRemove(ops: seq<Op>, i: nat)
    requires i < |ops|
    ensures Unused(ops[..i] + ops[i + 1..]) == Unused(ops) - (MAXOPBLOCKS - ops[i].used)
  {
    var k := |ops| - 1;
    var rest := ops[..i] + ops[i + 1..];
    if i < k {
      UnusedRemove(ops[..k], i);
      assert rest[..|rest| - 1] == ops[..k][..i] + ops[..k][i + 1..];
    } else {
      assert rest == ops[..k];
    }
  }

  lemma {:induction false} UnusedAtLeast(ops: seq<Op>, i: nat)
    requires i < |ops| && forall j :: 0 <= j < |ops| ==> ops[j].used <= MAXOPBLOCKS
    ensures Unused(ops) >= MAXOPBLOCKS - ops[i].used && Unused(ops) >= 0
  {
    var k := |ops| - 1;
    if k > 0 {
      UnusedAtLeast(ops[..k], if i < k then i else 0);
    }
  }

  lemma {:induction false} UnusedAtMost(ops: seq<Op>)
    ensures Unused(ops) <= |ops| * MAXOPBLOCKS
  {
    if ops != [] {
      UnusedAtMost(ops[..|ops| - 1]);
    }
  }

  lemma BeginReserved(lh: seq<nat>, ops: seq<Op>, id: nat)
    requires |lh| + (|ops| + 1) * MAXOPBLOCKS <= LOGSIZE
    ensures |lh| + Unused(ops + [Op(id, 0)]) <= LOGSIZE
  {
    UnusedAtMost(ops);
    assert (ops + [Op(id, 0)])[..|ops|] == ops;
  }

  lemma NextReserved(s: State, s': State, step: Step, g: Region)
    requires Reserved(s) && Next(s, s', step, g) && Budgeted(s, step)
    ensures Reserved(s')
  {
    match step
    case Begin => BeginReserved(s.lh, s.ops, s.nextId);
    case LogWrite(i, bn, data) => UnusedUpdate(s.ops, i, s'.ops[i]);
    case End(i) => UnusedRemove(s.ops, i);
    case _ =>
  }

  ghost predicate IsBudgetedRun(run: seq<State>, steps: seq<Step>, g: Region) {
    IsRun(run, steps, g) && forall k :: 0 <= k < |steps| ==> Budgeted(run[k], steps[k])
  }

  lemma {:induction false} RunReserved(run: seq<State>, steps: seq<Step>, g: Region, k: nat)
    requires IsBudgetedRun(run, steps, g) && k < |run|
    ensures Reserved(run[k])
  {
    if k > 0 {
      RunReserved(run, steps, g, k - 1);
      NextReserved(run[k - 1], run[k], steps[k - 1], g);
    }
  }

  /** The reservation in begin_op suffices when the log region is larger than
      LOGSIZE: an operation within its budget never meets a full log. */
  lemma ReservationSuffices(run: seq<State>, steps: seq<Step>, g: Region, k: nat, i: nat)
    requires IsBudgetedRun(run, steps, g) && k < |run| && i < |run[k].ops|
    requires run[k].ops[i].used < MAXOPBLOCKS && g.size > LOGSIZE
    ensures !LogFull(run[k], g)
  {
    RunReserved(run, steps, g, k);
    UnusedAtLeast(run[k].ops, i);
  }

  /** Three operations fill a log in turn, each with up to MAXOPBLOCKS new blocks:
      the state after m writes, to the blocks behind the log region. */
  ghost function Filled(d: Disk, g: Region, m: nat): (s: State)
    requires m <= LOGSIZE && g.start + g.size + LOGSIZE <= |d|
  {
    State(d, Zeroed(d, g.start + g.size, m), BlocksFrom(g.start + g.size, m),
          [Op(0, Share(m, 0)), Op(1, Share(m, 1)), Op(2, Share(m, 2))], false, Running,
          EntriesFrom(g.start + g.size, m), 0, 0, 3)
  }

  /** How many of m writes operation j made. */
  ghost function Share(m: nat, j: nat): nat {
    if m < j * MAXOPBLOCKS then 0 else if m > (j + 1) * MAXOPBLOCKS then MAXOPBLOCKS else m - j * MAXOPBLOCKS
  }

  ghost function Zeroed(d: Disk, base: nat, m: nat): (r: Disk)
    requires base + m <= |d|
    ensures |r| == |d|
  {
    if m == 0 then d else Zeroed(d, base, m - 1)[base + m - 1 := ZeroBlock()]
  }

  ghost function BlocksFrom(base: nat, m: nat): (bs: seq<nat>)
    ensures |bs| == m && forall i :: 0 <= i < m ==> bs[i] == base + i
  {
    if m == 0 then [] else BlocksFrom(base, m - 1) + [base + m - 1]
  }

  ghost function EntriesFrom(base: nat, m: nat): seq<Entry> {
    if m == 0 then [] else EntriesFrom(base, m - 1) + [Entry((m - 1) / MAXOPBLOCKS, base + m - 1, ZeroBlock())]
  }

  lemma FilledStep(d: Disk, g: Region, m: nat, step: Step)
    requires m < LOGSIZE && m < g.size - 1 && g.start + g.size + LOGSIZE <= |d|
    requires step == LogWrite(m / MAXOPBLOCKS, g.start + g.size + m, ZeroBlock())
    ensures Next(Filled(d, g, m), Filled(d, g, m + 1), step, g) && Budgeted(Filled(d, g, m), step)
  {
    var s, s' := Filled(d, g, m), Filled(d, g, m + 1);
    var j := m / MAXOPBLOCKS;
    assert step.bn !in s.lh;
    assert s'.ops == s.ops[j := Op(j, s.ops[j].used + 1)];
  }

  lemma FillBegins(d: Disk, g: Region) returns (run: seq<State>, steps: seq<Step>)
    requires Clear(d, g) && 1 < g.size && g.start + g.size + LOGSIZE <= |d|
    ensures IsBudgetedRun(run, steps, g) && run[|run| - 1] == Filled(d, g, 0)
  {
    var s0 := State(d, d, [], [], false, Running, [], 0, 0, 0);
    var s1 := s0.(ops := [Op(0, 0)], nextId := 1);
    var s2 := s0.(ops := [Op(0, 0), Op(1, 0)], nextId := 2);
    var s3 := s0.(ops := [Op(0, 0), Op(1, 0), Op(2, 0)], nextId := 3);
    run, steps := [s0, s1, s2, s3], [Begin, Begin, Begin];
    assert s3 == Filled(d, g, 0);
  }

  lemma {:induction false} FillRun(d: Disk, g: Region, m: nat) returns (run: seq<State>, steps: seq<Step>)
    requires Clear(d, g) && 1 < g.size && g.start + g.size + LOGSIZE <= |d| && m <= LOGSIZE && m <= g.size - 1
    ensures IsBudgetedRun(run, steps, g) && run[|run| - 1] == Filled(d, g, m)
  {
    if m == 0 {
      run, steps := FillBegins(d, g);
    } else {
      var r, t := FillRun(d, g, m - 1);
      var step := LogWrite((m - 1) / MAXOPBLOCKS, g.start + g.size + m - 1, ZeroBlock());
      FilledStep(d, g, m - 1, step);
      run, steps := r + [Filled(d, g, m)], t + [step];
    }
  }

  /** It does not suffice otherwise: whenever the log region has at most LOGSIZE
      blocks, as mkfs lays it out, three operations within their budgets reach a
      state in which one of them finds the log full with budget left. */
  lemma ShortLogOverflows(d: Disk, g: Region) returns (run: seq<State>, steps: seq<Step>, i: nat)
    requires Clear(d, g) && 1 < g.size <= LOGSIZE && g.start + g.size + LOGSIZE <= |d|
    ensures IsBudgetedRun(run, steps, g)
    ensures var s := run[|run| - 1];
      i < |s.ops| && s.ops[i].used < MAXOPBLOCKS && LogFull(s, g)
  {
    run, steps := FillRun(d, g, g.size - 1);
    i := (g.size - 1) / MAXOPBLOCKS;
  }
}
