/** Which blocks one writei logs, exactly, and how many: the budget of a transaction. */
module Budget {
  import opened Blocks
  import opened Common
  import opened Inodes
  import opened Files
  import opened Writing

  ghost predicate Formed(fs: Fs, i: nat) {
    i < |fs.inodes| && |fs.inodes[i].addrs| == NDIRECT + 1
  }

  /** What the turn for block n of file i logs, from fs0 to fs: the data block, the bitmap
      block if it was allocated, the indirect block if it got an entry, and with the bitmap
      block of its own if it was allocated. */
  ghost function MapLogs(sb: Super, fs0: Fs, fs: Fs, i: nat, n: nat): set<nat>
    requires Formed(fs0, i) && Formed(fs, i) && n < MAXFILE
  {
    var b, ind := Data(fs, i, n), Slot(fs, i, INDIRECT);
    {b}
    + (if Data(fs0, i, n) != 0 then {} else {sb.Bblock(b)})
    + (if n < NDIRECT || Data(fs0, i, n) != 0 then {} else {ind})
    + (if n < NDIRECT || Slot(fs0, i, INDIRECT) != 0 then {} else {ind, sb.Bblock(ind)})
  }

  /** What t turns from block first on log. */
  ghost function TurnLogs(sb: Super, fs0: Fs, fs: Fs, i: nat, first: nat, t: nat): set<nat>
    requires Formed(fs0, i) && Formed(fs, i) && first + t <= MAXFILE
  {
    if t == 0 then {} else TurnLogs(sb, fs0, fs, i, first, t - 1) + MapLogs(sb, fs0, fs, i, first + t - 1)
  }

  /** Since fs0 the t blocks of file i from first on are mapped, and nothing else but perhaps
      its indirect block. */
  ghost predicate Mapped(fs0: Fs, o0: map<nat, SlotId>, fs: Fs, o: map<nat, SlotId>, i: nat, first: nat, t: nat) {
    && Formed(fs0, i) && Formed(fs, i) && first + t <= MAXFILE
    && (forall n :: 0 <= n < MAXFILE && Data(fs0, i, n) != 0 ==> Data(fs, i, n) == Data(fs0, i, n))
    && (forall n :: 0 <= n < MAXFILE && !(first <= n < first + t) ==> Data(fs, i, n) == Data(fs0, i, n))
    && (forall n :: first <= n < first + t ==> Data(fs, i, n) != 0)
    && (Slot(fs0, i, INDIRECT) != 0 ==> Slot(fs, i, INDIRECT) == Slot(fs0, i, INDIRECT))
    && (forall b :: b in o0 ==> b in o && o[b] == o0[b])
    && (forall b :: b in o && b !in o0 ==> o[b].i == i)
  }

  /** The indirect block is new only if one of the t turns needed it. */
  ghost predicate OnDemand(fs0: Fs, fs: Fs, i: nat, first: nat, t: nat)
    requires Formed(fs0, i) && Formed(fs, i)
  {
    Slot(fs, i, INDIRECT) != Slot(fs0, i, INDIRECT) ==> t > 0 && first + t > NDIRECT
  }

  /** The blocks logged since l0 are those of t turns; a turn whose copy failed may have
      logged less. The quantifier keeps this folded. */
  ghost predicate Logs(sb: Super, fs0: Fs, o0: map<nat, SlotId>, fs: Fs, o: map<nat, SlotId>, i: nat, first: nat,
                       t: nat, l0: set<nat>, l: set<nat>, whole: bool) {
    forall u {:trigger Open(u)} :: Open(u) ==>
      && Mapped(fs0, o0, fs, o, i, first, t) && OnDemand(fs0, fs, i, first, t)
      && l <= l0 + TurnLogs(sb, fs0, fs, i, first, t)
      && (whole ==> l == l0 + TurnLogs(sb, fs0, fs, i, first, t))
  }

  lemma NothingLogged(sb: Super, fs: Fs, o: map<nat, SlotId>, i: nat, first: nat, l: set<nat>)
    requires Formed(fs, i) && first <= MAXFILE
    ensures Logs(sb, fs, o, fs, o, i, first, 0, l, l, true)
  {
    assert l + {} == l;
  }

  lemma {:induction false} SameTurnLogs(sb: Super, fs0: Fs, fs: Fs, fs': Fs, i: nat, first: nat, t: nat)
    requires Formed(fs0, i) && Formed(fs, i) && Formed(fs', i) && first + t <= MAXFILE
    requires forall n :: first <= n < first + t ==> Data(fs', i, n) == Data(fs, i, n)
    requires t > 0 && first + t > NDIRECT ==> Slot(fs', i, INDIRECT) == Slot(fs, i, INDIRECT)
    ensures TurnLogs(sb, fs0, fs', i, first, t) == TurnLogs(sb, fs0, fs, i, first, t)
  {
    if t > 0 {
      SameTurnLogs(sb, fs0, fs, fs', i, first, t - 1);
    }
  }

  /** bmap for the next block, in front of its copy. */
  lemma LogsMapped(sb: Super, fs0: Fs, o0: map<nat, SlotId>, fs: Fs, o: map<nat, SlotId>, fs': Fs, o': map<nat, SlotId>,
                   i: nat, first: nat, t: nat, n: nat, l0: set<nat>, l: set<nat>, l': set<nat>, b: nat)
    requires Logs(sb, fs0, o0, fs, o, i, first, t, l0, l, true) && n == first + t < MAXFILE && i < sb.ninodes
    requires Owned(sb, fs, o, {}) && Owned(sb, fs', o', {}) && Grown(fs, fs', o, o', i) && DataBut(fs, fs', i, n)
    requires LogsForMap(sb, fs, fs', i, n, l, l') && b == Data(fs', i, n) != 0
    ensures Logs(sb, fs0, o0, fs', o', i, first, t + 1, l0, l' + {b}, true)
  {
    assert Open(0);
    NextMapped(sb, fs0, o0, fs, o, fs', o', i, first, t, n);
    SameTurnLogs(sb, fs0, fs, fs', i, first, t);
    NextLogs(sb, fs0, fs, fs', i, first, t, n, l0, l, l', b);
  }

  lemma NextMapped(sb: Super, fs0: Fs, o0: map<nat, SlotId>, fs: Fs, o: map<nat, SlotId>, fs': Fs, o': map<nat, SlotId>,
                   i: nat, first: nat, t: nat, n: nat)
    requires Mapped(fs0, o0, fs, o, i, first, t) && OnDemand(fs0, fs, i, first, t) && n == first + t < MAXFILE
    requires Owned(sb, fs, o, {}) && Owned(sb, fs', o', {}) && Grown(fs, fs', o, o', i) && DataBut(fs, fs', i, n)
    requires i < sb.ninodes && Data(fs', i, n) != 0
    ensures Mapped(fs0, o0, fs', o', i, first, t + 1) && OnDemand(fs0, fs', i, first, t + 1)
    ensures t > 0 && n > NDIRECT ==> Slot(fs', i, INDIRECT) == Slot(fs, i, INDIRECT) != 0
    ensures Slot(fs, i, INDIRECT) != 0 ==> Slot(fs', i, INDIRECT) == Slot(fs, i, INDIRECT)
  {
    GrownSlot(sb, fs, fs', o, o', i, i, INDIRECT);
    GrownSlot(sb, fs, fs', o, o', i, i, DataSlot(n));
    if t > 0 && n > NDIRECT {
      assert Data(fs, i, n - 1) != 0;
    }
  }

  lemma IndirectLogged(sb: Super, fs0: Fs, fs: Fs, i: nat, first: nat, t: nat)
    requires
      && Formed(fs0, i) && Formed(fs, i) && first + t <= MAXFILE && t > 0 && first + t > NDIRECT
      && Slot(fs0, i, INDIRECT) == 0
    ensures var ind := Slot(fs, i, INDIRECT); {ind, sb.Bblock(ind)} <= TurnLogs(sb, fs0, fs, i, first, t)
  {
    assert MapLogs(sb, fs0, fs, i, first + t - 1) <= TurnLogs(sb, fs0, fs, i, first, t);
  }

  lemma NextLogs(sb: Super, fs0: Fs, fs: Fs, fs': Fs, i: nat, first: nat, t: nat, n: nat,
                 l0: set<nat>, l: set<nat>, l': set<nat>, b: nat)
    requires Formed(fs0, i) && n == first + t < MAXFILE && Shaped(sb, fs) && Shaped(sb, fs') && i < sb.ninodes
    requires Data(fs, i, n) == Data(fs0, i, n) && OnDemand(fs0, fs, i, first, t)
    requires Slot(fs0, i, INDIRECT) != 0 ==> Slot(fs, i, INDIRECT) == Slot(fs0, i, INDIRECT)
    requires Slot(fs, i, INDIRECT) != 0 ==> Slot(fs', i, INDIRECT) == Slot(fs, i, INDIRECT)
    requires l == l0 + TurnLogs(sb, fs0, fs', i, first, t)
    requires LogsForMap(sb, fs, fs', i, n, l, l') && b == Data(fs', i, n)
    ensures l' + {b} == l0 + TurnLogs(sb, fs0, fs', i, first, t + 1)
  {
    if n >= NDIRECT && Slot(fs0, i, INDIRECT) == 0 != Slot(fs, i, INDIRECT) {
      IndirectLogged(sb, fs0, fs', i, first, t);
    }
    MapStep(sb, fs0, fs, fs', i, n, l, l', b);
    Regroup(l0, TurnLogs(sb, fs0, fs', i, first, t), MapLogs(sb, fs0, fs', i, n));
  }

  lemma Regroup(a: set<nat>, b: set<nat>, c: set<nat>)
    ensures a + b + c == a + (b + c)
  {
  }

  lemma MapStep(sb: Super, fs0: Fs, fs: Fs, fs': Fs, i: nat, n: nat, l: set<nat>, l': set<nat>, b: nat)
    requires Formed(fs0, i) && n < MAXFILE && Shaped(sb, fs) && Shaped(sb, fs') && i < sb.ninodes
    requires Data(fs, i, n) == Data(fs0, i, n) && (Slot(fs0, i, INDIRECT) != 0 ==> Slot(fs, i, INDIRECT) != 0)
    requires var ind := Slot(fs', i, INDIRECT);
      n >= NDIRECT && Slot(fs0, i, INDIRECT) == 0 != Slot(fs, i, INDIRECT) ==> {ind, sb.Bblock(ind)} <= l
    requires LogsForMap(sb, fs, fs', i, n, l, l') && b == Data(fs', i, n)
    ensures l' + {b} == l + MapLogs(sb, fs0, fs', i, n)
  {
  }

  /** Storing into the data block changes no slot; then log_write of it. */
  lemma LogsPatched(sb: Super, fs0: Fs, o0: map<nat, SlotId>, fs: Fs, o: map<nat, SlotId>, fs': Fs, i: nat, first: nat,
                    t: nat, l0: set<nat>, l: set<nat>, n: nat, b: nat, data: Block)
    requires Logs(sb, fs0, o0, fs, o, i, first, t, l0, l, true) && Owned(sb, fs, o, {}) && i < sb.ninodes
    requires n < MAXFILE && b == Data(fs, i, n) != 0 && b < sb.size && fs' == fs.(blocks := fs.blocks[b := data])
    ensures Logs(sb, fs0, o0, fs', o, i, first, t, l0, l, true)
  {
    PatchedSlots(sb, fs, o, fs', i, n, b, data);
    SlotsSame(sb, fs0, o0, fs, o, fs', i, first, t, l0, l, true);
  }

  lemma PatchedSlots(sb: Super, fs: Fs, o: map<nat, SlotId>, fs': Fs, i: nat, n: nat, b: nat, data: Block)
    requires Owned(sb, fs, o, {}) && i < sb.ninodes
    requires n < MAXFILE && b == Data(fs, i, n) != 0 && b < sb.size && fs' == fs.(blocks := fs.blocks[b := data])
    ensures SameSlot(fs, fs', i)
  {
    assert b in o && o[b] == SlotId(i, DataSlot(n));
    assert fs.inodes[i].addrs[INDIRECT] == Slot(fs, i, INDIRECT);
    SameSlots(sb, fs, fs', i);
  }

  ghost predicate SameSlot(fs: Fs, fs': Fs, i: nat) {
    Formed(fs, i) && Formed(fs', i) && forall k :: 0 <= k < NSLOTS ==> Slot(fs', i, k) == Slot(fs, i, k)
  }

  lemma SlotsSame(sb: Super, fs0: Fs, o0: map<nat, SlotId>, fs: Fs, o: map<nat, SlotId>, fs': Fs, i: nat, first: nat,
                  t: nat, l0: set<nat>, l: set<nat>, whole: bool)
    requires Logs(sb, fs0, o0, fs, o, i, first, t, l0, l, whole) && SameSlot(fs, fs', i)
    ensures Logs(sb, fs0, o0, fs', o, i, first, t, l0, l, whole)
  {
    assert Open(0);
    SameTurnLogs(sb, fs0, fs, fs', i, first, t);
  }

  /** A turn whose copy failed did not log its data block. */
  lemma LogsLess(sb: Super, fs0: Fs, o0: map<nat, SlotId>, fs: Fs, o: map<nat, SlotId>, i: nat, first: nat, t: nat,
                 l0: set<nat>, l: set<nat>, b: nat)
    requires Logs(sb, fs0, o0, fs, o, i, first, t, l0, l + {b}, true)
    ensures Logs(sb, fs0, o0, fs, o, i, first, t, l0, l, false)
  {
  }

  /** A write that ran out of blocks after t turns. */
  ghost predicate Stuck(sb: Super, fs0: Fs, o0: map<nat, SlotId>, fs: Fs, o: map<nat, SlotId>, i: nat, first: nat,
                        t: nat) {
    forall u {:trigger Open(u)} :: Open(u) ==>
      Owned(sb, fs, o, {}) && Mapped(fs0, o0, fs, o, i, first, t) && AllUsed(sb, fs.blocks, sb.size)
  }

  lemma StuckFull(sb: Super, fs0: Fs, o0: map<nat, SlotId>, fs: Fs, o: map<nat, SlotId>, i: nat, first: nat, t: nat)
    requires Stuck(sb, fs0, o0, fs, o, i, first, t)
    ensures DiskFull(sb, fs.blocks)
  {
  }

  lemma LogsStuck(sb: Super, fs0: Fs, o0: map<nat, SlotId>, fs: Fs, o: map<nat, SlotId>, fs': Fs, o': map<nat, SlotId>,
                  i: nat, first: nat, t: nat, l0: set<nat>, l: set<nat>)
    requires Logs(sb, fs0, o0, fs, o, i, first, t, l0, l, true) && Owned(sb, fs, o, {}) && i < sb.ninodes
    requires Owned(sb, fs', o', {}) && Grown(fs, fs', o, o', i) && SameData(fs, fs', i) && DiskFull(sb, fs'.blocks)
    ensures Stuck(sb, fs0, o0, fs', o', i, first, t)
  {
    assert Open(0);
    GrownSlot(sb, fs, fs', o, o', i, i, INDIRECT);
  }

  /** A write that was carried out in full logged exactly the blocks of its t turns, and the
      inode's. */
  ghost predicate Logged(sb: Super, fs0: Fs, o0: map<nat, SlotId>, fs: Fs, o: map<nat, SlotId>, i: nat, first: nat,
                         t: nat, l0: set<nat>, l: set<nat>) {
    forall u {:trigger Open(u)} :: Open(u) ==>
      && Mapped(fs0, o0, fs, o, i, first, t)
      && l == l0 + TurnLogs(sb, fs0, fs, i, first, t) + {sb.Iblock(i)}
  }

  lemma LoggedAll(sb: Super, fs0: Fs, o0: map<nat, SlotId>, fs: Fs, o: map<nat, SlotId>, fs': Fs, i: nat, first: nat,
                  t: nat, l0: set<nat>, l: set<nat>, size: nat)
    requires Logs(sb, fs0, o0, fs, o, i, first, t, l0, l, true) && i < |fs.inodes| && fs' == Resized(fs, i, size)
    ensures Logged(sb, fs0, o0, fs', o, i, first, t, l0, l + {sb.Iblock(i)})
  {
    assert Open(0);
    assert SameSlot(fs, fs', i);
    SlotsSame(sb, fs0, o0, fs, o, fs', i, first, t, l0, l, true);
  }

  // ---- writei's loop

  /** All that writei's loop keeps; the quantifier keeps it folded. */
  ghost predicate Looping(sb: Super, fs0: Fs, o0: map<nat, SlotId>, fs: Fs, o: map<nat, SlotId>, i: nat, off0: nat,
                          first: nat, src: seq<byte>, tot: nat, l0: set<nat>, l: set<nat>, t: nat, whole: bool) {
    forall u {:trigger Open(u)} :: Open(u) ==>
      && tot <= |src| && Written(sb, fs0, o0, fs, o, i, off0, src[..tot])
      && Logs(sb, fs0, o0, fs, o, i, first, t, l0, l, whole)
  }

  lemma LoopFacts(sb: Super, fs0: Fs, o0: map<nat, SlotId>, fs: Fs, o: map<nat, SlotId>, i: nat, off0: nat, first: nat,
                  src: seq<byte>, tot: nat, l0: set<nat>, l: set<nat>, t: nat, whole: bool)
    requires Looping(sb, fs0, o0, fs, o, i, off0, first, src, tot, l0, l, t, whole)
    ensures tot <= |src| && Written(sb, fs0, o0, fs, o, i, off0, src[..tot])
    ensures Logs(sb, fs0, o0, fs, o, i, first, t, l0, l, whole)
  {
    assert Open(0);
  }

  lemma LoopsOn(sb: Super, fs0: Fs, o0: map<nat, SlotId>, fs: Fs, o: map<nat, SlotId>, i: nat, off0: nat, first: nat,
                src: seq<byte>, tot: nat, l0: set<nat>, l: set<nat>, t: nat, whole: bool)
    requires tot <= |src| && Written(sb, fs0, o0, fs, o, i, off0, src[..tot])
    requires Logs(sb, fs0, o0, fs, o, i, first, t, l0, l, whole)
    ensures Looping(sb, fs0, o0, fs, o, i, off0, first, src, tot, l0, l, t, whole)
  {
  }

  lemma LoopStarts(sb: Super, fs: Fs, o: map<nat, SlotId>, i: nat, off: nat, first: nat, src: seq<byte>, l: set<nat>)
    requires Owned(sb, fs, o, {}) && i < sb.ninodes && off <= MAXFILE * BSIZE && first == off / BSIZE
    ensures Looping(sb, fs, o, fs, o, i, off, first, src, 0, l, l, 0, true)
  {
    NothingWritten(sb, fs, o, i, off);
    NothingLogged(sb, fs, o, i, first, l);
    assert src[..0] == [];
  }

  // ---- the budget

  /** What t turns log is in x, or is the indirect block or its bitmap block. */
  ghost predicate Covered(sb: Super, fs0: Fs, fs: Fs, i: nat, first: nat, t: nat, x: set<nat>) {
    forall u {:trigger Open(u)} :: Open(u) ==>
      && Formed(fs0, i) && Formed(fs, i) && first + t <= MAXFILE
      && TurnLogs(sb, fs0, fs, i, first, t) <= x + IndirectLogs(sb, fs, i)
  }

  /** Beside the indirect block and its bitmap block, each turn logs at most two blocks, and
      one if the data block was mapped. */
  lemma {:induction false} TurnCover(sb: Super, fs0: Fs, fs: Fs, i: nat, first: nat, t: nat) returns (x: set<nat>)
    requires Formed(fs0, i) && Formed(fs, i) && first + t <= MAXFILE
    requires forall n :: first <= n < first + t ==> Data(fs, i, n) != 0
    ensures Covered(sb, fs0, fs, i, first, t, x)
    ensures |x| <= 2 * t - if t > 0 && Data(fs0, i, first) != 0 then 1 else 0
  {
    x := {};
    if t > 0 {
      x := TurnCover(sb, fs0, fs, i, first, t - 1);
      var b := Data(fs, i, first + t - 1);
      var y := if Data(fs0, i, first + t - 1) != 0 then {b} else {b, sb.Bblock(b)};
      OneTurn(sb, fs0, fs, i, first, t, x, y);
      x := x + y;
    }
  }

  lemma OneTurn(sb: Super, fs0: Fs, fs: Fs, i: nat, first: nat, t: nat, x: set<nat>, y: set<nat>)
    requires Formed(fs0, i) && Formed(fs, i) && 0 < t && first + t <= MAXFILE && Data(fs, i, first + t - 1) != 0
    requires Covered(sb, fs0, fs, i, first, t - 1, x)
    requires y ==
      var b := Data(fs, i, first + t - 1);
      if Data(fs0, i, first + t - 1) != 0 then {b} else {b, sb.Bblock(b)}
    ensures Covered(sb, fs0, fs, i, first, t, x + y)
  {
    assert Open(0);
    assert first + t - 1 >= NDIRECT ==> Slot(fs, i, INDIRECT) != 0;
    assert MapLogs(sb, fs0, fs, i, first + t - 1) <= y + IndirectLogs(sb, fs, i);
  }

  lemma ChunkTurns(off: nat, n: nat, t: nat)
    requires t <= BlockCount(off, n) && n <= 3 * BSIZE
    ensures t <= 3 || (t == 4 && off % BSIZE != 0)
  {
  }

  lemma FirstMapped(fs: Fs, i: nat, off: nat)
    requires NoHole(fs, i) && off <= fs.inodes[i].size && off % BSIZE != 0
    ensures off / BSIZE < MAXFILE && Data(fs, i, off / BSIZE) != 0
  {
    MappedBelow(fs, i, off - 1);
    assert (off - 1) / BSIZE == off / BSIZE;
  }

  /** A chunk of at most three blocks logs at most MAXOPBLOCKS blocks, with the inode's: its
      turns log six beside the indirect block's two if it is aligned, and seven otherwise, when
      its first block is mapped because there are no holes. */
  lemma BudgetHolds(sb: Super, fs0: Fs, o0: map<nat, SlotId>, fs: Fs, o: map<nat, SlotId>, i: nat, off: nat, n: nat,
                    t: nat, l0: set<nat>, l: set<nat>, whole: bool, first: nat)
    requires first == off / BSIZE && Logs(sb, fs0, o0, fs, o, i, first, t, l0, l, whole)
    requires NoHole(fs0, i) && off <= fs0.inodes[i].size && t <= BlockCount(off, n) && n <= 3 * BSIZE
    ensures |l + {sb.Iblock(i)} - l0| <= MAXOPBLOCKS
  {
    assert Open(0);
    var x := TurnCover(sb, fs0, fs, i, first, t);
    ChunkTurns(off, n, t);
    if t == 4 {
      FirstMapped(fs0, i, off);
    }
    WithIndirect(sb, fs, i, l0, l, TurnLogs(sb, fs0, fs, i, first, t), x);
  }

  lemma WithIndirect(sb: Super, fs: Fs, i: nat, l0: set<nat>, l: set<nat>, turns: set<nat>, x: set<nat>)
    requires Formed(fs, i) && l <= l0 + turns && turns <= x + IndirectLogs(sb, fs, i)
    ensures |l + {sb.Iblock(i)} - l0| <= |x| + 3
  {
    Subsets(l + {sb.Iblock(i)} - l0, x + IndirectLogs(sb, fs, i) + {sb.Iblock(i)});
  }

  // ---- the budget is tight, and needs files without holes

  predicate IsFree(sb: Super, blocks: Disk, b: nat) {
    b < |blocks| && sb.Bblock(b) < |blocks| && !Used(sb, blocks, b)
  }

  /** File i has no indirect block, any two free blocks lie under different bitmap blocks, the
      five in free are some of them, and no bitmap block holds the inode. */
  ghost predicate Crowded(sb: Super, fs: Fs, o: map<nat, SlotId>, i: nat, free: seq<nat>) {
    && Owned(sb, fs, o, {}) && i < sb.ninodes && Slot(fs, i, INDIRECT) == 0
    && (forall b, c :: IsFree(sb, fs.blocks, b) && IsFree(sb, fs.blocks, c) && b != c ==> sb.Bblock(b) != sb.Bblock(c))
    && |free| == 5 && (forall j :: 0 <= j < 5 ==> IsFree(sb, fs.blocks, free[j]))
    && (forall j, k :: 0 <= j < k < 5 ==> free[j] != free[k])
    && (forall b :: 0 <= b < sb.size ==> sb.Bblock(b) != sb.Iblock(i))
  }

  /** A block that was put into an empty slot had been free. */
  lemma NewWasFree(sb: Super, fs0: Fs, o0: map<nat, SlotId>, fs: Fs, o: map<nat, SlotId>, i: nat, k: nat, b: nat)
    requires Owned(sb, fs0, o0, {}) && Owned(sb, fs, o, {}) && forall x :: x in o0 ==> x in o && o[x] == o0[x]
    requires i < sb.ninodes && k < NSLOTS && Slot(fs0, i, k) == 0 && b == Slot(fs, i, k) != 0
    ensures sb.nmeta <= b < sb.size && IsFree(sb, fs0.blocks, b) && b in o && o[b] == SlotId(i, k)
  {
    assert b in o && o[b] == SlotId(i, k);
    InMap(sb, b);
  }

  /** The blocks that four turns from block 11 on log, one by one. */
  lemma FourTurns(sb: Super, fs0: Fs, fs: Fs, i: nat, hole: bool, d0: nat, d1: nat, d2: nat, d3: nat, ind: nat)
    requires Formed(fs0, i) && Formed(fs, i) && Slot(fs0, i, INDIRECT) == 0 && hole == (Data(fs0, i, 11) == 0)
    requires d0 == Data(fs, i, 11) && d1 == Data(fs, i, 12) && d2 == Data(fs, i, 13) && d3 == Data(fs, i, 14)
    requires ind == Slot(fs, i, INDIRECT)
    ensures TurnLogs(sb, fs0, fs, i, 11, 4) ==
            {d0, d1, d2, d3, ind} + {sb.Bblock(d1), sb.Bblock(d2), sb.Bblock(d3), sb.Bblock(ind)}
            + if hole then {sb.Bblock(d0)} else {}
  {
    var m0, m1 := MapLogs(sb, fs0, fs, i, 11), MapLogs(sb, fs0, fs, i, 12);
    var m2, m3 := MapLogs(sb, fs0, fs, i, 13), MapLogs(sb, fs0, fs, i, 14);
    assert m0 == if hole then {d0, sb.Bblock(d0)} else {d0};
    assert m1 == {d1, sb.Bblock(d1), ind, sb.Bblock(ind)};
    assert m2 == {d2, sb.Bblock(d2), ind, sb.Bblock(ind)};
    assert m3 == {d3, sb.Bblock(d3), ind, sb.Bblock(ind)};
    Unrolled(sb, fs0, fs, i, 11);
  }

  lemma Unrolled(sb: Super, fs0: Fs, fs: Fs, i: nat, n: nat)
    requires Formed(fs0, i) && Formed(fs, i) && n + 4 <= MAXFILE
    ensures TurnLogs(sb, fs0, fs, i, n, 4) ==
            MapLogs(sb, fs0, fs, i, n) + MapLogs(sb, fs0, fs, i, n + 1)
              + MapLogs(sb, fs0, fs, i, n + 2) + MapLogs(sb, fs0, fs, i, n + 3)
  {
    assert TurnLogs(sb, fs0, fs, i, n, 1) == MapLogs(sb, fs0, fs, i, n);
    assert TurnLogs(sb, fs0, fs, i, n, 2) == MapLogs(sb, fs0, fs, i, n) + MapLogs(sb, fs0, fs, i, n + 1);
    assert TurnLogs(sb, fs0, fs, i, n, 3) == TurnLogs(sb, fs0, fs, i, n, 2) + MapLogs(sb, fs0, fs, i, n + 2);
  }

  lemma CountBlocks(data: set<nat>, maps: set<nat>, inode: nat, nmeta: nat, n: nat)
    requires
      && |data| == 5 && |maps| == n && (forall b :: b in data ==> b >= nmeta) && (forall b :: b in maps ==> b < nmeta)
    requires inode < nmeta && inode !in maps
    ensures |data + maps + {inode}| == n + 6
  {
    assert data !! maps && inode !in data + maps;
  }

  /** Five data blocks, the bitmap blocks of the last four, and of the first if it was a hole,
      and the inode's block: no two are the same. */
  ghost predicate Apart(sb: Super, d0: nat, d1: nat, d2: nat, d3: nat, ind: nat, inode: nat, hole: bool) {
    && d0 != d1 && d0 != d2 && d0 != d3 && d0 != ind
    && d1 != d2 && d1 != d3 && d1 != ind && d2 != d3 && d2 != ind && d3 != ind
    && sb.Bblock(d1) != sb.Bblock(d2) && sb.Bblock(d1) != sb.Bblock(d3) && sb.Bblock(d1) != sb.Bblock(ind)
    && sb.Bblock(d2) != sb.Bblock(d3) && sb.Bblock(d2) != sb.Bblock(ind) && sb.Bblock(d3) != sb.Bblock(ind)
    && (hole ==> && sb.Bblock(d0) != sb.Bblock(d1) && sb.Bblock(d0) != sb.Bblock(d2)
                 && sb.Bblock(d0) != sb.Bblock(d3) && sb.Bblock(d0) != sb.Bblock(ind))
    && sb.nmeta <= d0 && sb.nmeta <= d1 && sb.nmeta <= d2 && sb.nmeta <= d3 && sb.nmeta <= ind && inode < sb.nmeta
    && sb.Bblock(d0) < sb.nmeta && sb.Bblock(d1) < sb.nmeta && sb.Bblock(d2) < sb.nmeta && sb.Bblock(d3) < sb.nmeta
    && sb.Bblock(ind) < sb.nmeta
    && inode != sb.Bblock(d0) && inode != sb.Bblock(d1) && inode != sb.Bblock(d2) && inode != sb.Bblock(d3)
    && inode != sb.Bblock(ind)
  }

  lemma BlocksApart(sb: Super, fs0: Fs, o0: map<nat, SlotId>, fs: Fs, o: map<nat, SlotId>, i: nat, free: seq<nat>,
                    hole: bool)
    requires Crowded(sb, fs0, o0, i, free) && Owned(sb, fs, o, {}) && Mapped(fs0, o0, fs, o, i, 11, 4)
    requires hole == (Data(fs0, i, 11) == 0)
    ensures Apart(sb, Data(fs, i, 11), Data(fs, i, 12), Data(fs, i, 13), Data(fs, i, 14),
                  Slot(fs, i, INDIRECT), sb.Iblock(i), hole)
  {
    var d0, d1, d2, d3 := Data(fs, i, 11), Data(fs, i, 12), Data(fs, i, 13), Data(fs, i, 14);
    var ind := Slot(fs, i, INDIRECT);
    NewWasFree(sb, fs0, o0, fs, o, i, DataSlot(12), d1);
    NewWasFree(sb, fs0, o0, fs, o, i, DataSlot(13), d2);
    NewWasFree(sb, fs0, o0, fs, o, i, DataSlot(14), d3);
    NewWasFree(sb, fs0, o0, fs, o, i, INDIRECT, ind);
    if hole {
      NewWasFree(sb, fs0, o0, fs, o, i, DataSlot(11), d0);
    }
    SlotInRange(sb, fs, o, i, DataSlot(11));
    assert d0 in o && o[d0] == SlotId(i, 11);
    InMap(sb, d0);
    InMap(sb, d1);
    InMap(sb, d2);
    InMap(sb, d3);
    InMap(sb, ind);
  }

  lemma CountApart(sb: Super, d0: nat, d1: nat, d2: nat, d3: nat, ind: nat, inode: nat, hole: bool)
    requires Apart(sb, d0, d1, d2, d3, ind, inode, hole)
    ensures |{d0, d1, d2, d3, ind} + {sb.Bblock(d1), sb.Bblock(d2), sb.Bblock(d3), sb.Bblock(ind)}
             + (if hole then {sb.Bblock(d0)} else {}) + {inode}| == if hole then MAXOPBLOCKS + 1 else MAXOPBLOCKS
  {
    Ten(d0, d1, d2, d3, ind, sb.Bblock(d1), sb.Bblock(d2), sb.Bblock(d3), sb.Bblock(ind), inode, sb.nmeta);
    var x := {d0, d1, d2, d3, ind} + {sb.Bblock(d1), sb.Bblock(d2), sb.Bblock(d3), sb.Bblock(ind)};
    if hole {
      OneMore(x, sb.Bblock(d0), inode);
    } else {
      assert x + {} == x;
    }
  }

  /** A chunk whose first block is direct block 11, in a crowded file system: it logs exactly
      MAXOPBLOCKS blocks, and one more if that block was a hole. */
  lemma ExactCount(sb: Super, fs0: Fs, o0: map<nat, SlotId>, fs: Fs, o: map<nat, SlotId>, i: nat, free: seq<nat>,
                   hole: bool)
    requires Crowded(sb, fs0, o0, i, free) && Owned(sb, fs, o, {}) && Mapped(fs0, o0, fs, o, i, 11, 4)
    requires hole == (Data(fs0, i, 11) == 0)
    ensures |TurnLogs(sb, fs0, fs, i, 11, 4) + {sb.Iblock(i)}| == if hole then MAXOPBLOCKS + 1 else MAXOPBLOCKS
  {
    var d0, d1, d2, d3 := Data(fs, i, 11), Data(fs, i, 12), Data(fs, i, 13), Data(fs, i, 14);
    var ind := Slot(fs, i, INDIRECT);
    BlocksApart(sb, fs0, o0, fs, o, i, free, hole);
    FourTurns(sb, fs0, fs, i, hole, d0, d1, d2, d3, ind);
    CountApart(sb, d0, d1, d2, d3, ind, sb.Iblock(i), hole);
  }

  /** The data blocks, the bitmap blocks and the inode's block. */
  lemma Ten(d0: nat, d1: nat, d2: nat, d3: nat, ind: nat, m1: nat, m2: nat, m3: nat, mi: nat, inode: nat, nmeta: nat)
    requires
      && d0 != d1 && d0 != d2 && d0 != d3 && d0 != ind && d1 != d2 && d1 != d3 && d1 != ind && d2 != d3 && d2 != ind
      && d3 != ind
    requires m1 != m2 && m1 != m3 && m1 != mi && m2 != m3 && m2 != mi && m3 != mi
    requires nmeta <= d0 && nmeta <= d1 && nmeta <= d2 && nmeta <= d3 && nmeta <= ind
    requires m1 < nmeta && m2 < nmeta && m3 < nmeta && mi < nmeta && inode < nmeta && inode !in {m1, m2, m3, mi}
    ensures |{d0, d1, d2, d3, ind} + {m1, m2, m3, mi} + {inode}| == 10
  {
    DistinctFive(d0, d1, d2, d3, ind);
    DistinctFour(m1, m2, m3, mi);
    CountBlocks({d0, d1, d2, d3, ind}, {m1, m2, m3, mi}, inode, nmeta, 4);
  }

  lemma OneMore(x: set<nat>, m: nat, inode: nat)
    requires m !in x && m != inode
    ensures |x + {m} + {inode}| == |x + {inode}| + 1
  {
    assert x + {m} + {inode} == x + {inode} + {m};
  }

  lemma DistinctFive(a: nat, b: nat, c: nat, d: nat, e: nat)
    requires a != b && a != c && a != d && a != e && b != c && b != d && b != e && c != d && c != e && d != e
    ensures |{a, b, c, d, e}| == 5
  {
  }

  lemma DistinctFour(a: nat, b: nat, c: nat, d: nat)
    requires a != b && a != c && a != d && b != c && b != d && c != d
    ensures |{a, b, c, d}| == 4
  {
  }

  /** Three turns cannot use up five free blocks. */
  lemma NeverStuck(sb: Super, fs0: Fs, o0: map<nat, SlotId>, fs: Fs, o: map<nat, SlotId>, i: nat, t: nat,
                   free: seq<nat>)
    requires Crowded(sb, fs0, o0, i, free) && t < 4
    ensures !Stuck(sb, fs0, o0, fs, o, i, 11, t)
  {
    if Stuck(sb, fs0, o0, fs, o, i, 11, t) {
      assert Open(0);
      forall j | 0 <= j < 5
        ensures free[j] in Last(fs, i)
      {
        UsedUp(sb, fs0, o0, fs, o, i, t, free[j]);
      }
      AtLeastFive(free, Last(fs, i));
      assert false;
    }
  }

  lemma AtLeastFive(free: seq<nat>, s: set<nat>)
    requires
      && |free| == 5 && (forall j :: 0 <= j < 5 ==> free[j] in s)
      && forall j, k :: 0 <= j < k < 5 ==> free[j] != free[k]
    ensures |s| >= 5
  {
    DistinctFive(free[0], free[1], free[2], free[3], free[4]);
    Subsets({free[0], free[1], free[2], free[3], free[4]}, s);
  }

  /** The blocks in slots 11 to 14. */
  ghost function Last(fs: Fs, i: nat): (s: set<nat>)
    requires Formed(fs, i)
    ensures |s| <= 4
  {
    {Slot(fs, i, 11), Slot(fs, i, 12), Slot(fs, i, 13), Slot(fs, i, 14)}
  }

  lemma UsedUp(sb: Super, fs0: Fs, o0: map<nat, SlotId>, fs: Fs, o: map<nat, SlotId>, i: nat, t: nat, b: nat)
    requires
      && Owned(sb, fs0, o0, {}) && Owned(sb, fs, o, {}) && Mapped(fs0, o0, fs, o, i, 11, t) && t < 4 && i < sb.ninodes
    requires Slot(fs0, i, INDIRECT) == 0 && IsFree(sb, fs0.blocks, b) && AllUsed(sb, fs.blocks, sb.size)
    ensures b in Last(fs, i)
  {
    NowOwned(sb, fs0, o0, fs, o, b);
    var k := o[b].k;
    if k != INDIRECT {
      var n := if k < NDIRECT then k else k - 1;
      assert DataSlot(n) == k && Data(fs, i, n) == b;
      assert Data(fs0, i, n) == b ==> b in o0;
    }
  }

  lemma NowOwned(sb: Super, fs0: Fs, o0: map<nat, SlotId>, fs: Fs, o: map<nat, SlotId>, b: nat)
    requires Owned(sb, fs0, o0, {}) && Owned(sb, fs, o, {})
    requires IsFree(sb, fs0.blocks, b) && AllUsed(sb, fs.blocks, sb.size)
    ensures b !in o0 && b in o && o[b].i < sb.ninodes && o[b].k < NSLOTS && Slot(fs, o[b].i, o[b].k) == b != 0
  {
    InMap(sb, b);
    assert Used(sb, fs.blocks, b);
  }
}
