/** What mapping and writing the blocks of one file does: to ownership, to the file's
    bytes, to the other files, and to the number of blocks logged. */
module Writing {
  import opened Blocks
  import opened Common
  import opened Inodes
  import opened Files

  const UINT := 0x1_0000_0000
  // the most bytes that filewrite writes in one transaction
  const CHUNK := (MAXOPBLOCKS - 1 - 1 - 2) / 2 * BSIZE

  /** writei's loop state: since fs0, data was written at off0 of file i, and all
      else about files is as it was. The quantifier keeps the parts out of sight of
      proofs that only pass the fact on. */
  ghost predicate Written(sb: Super, fs0: Fs, o0: map<nat, SlotId>, fs: Fs, o: map<nat, SlotId>, i: nat, off0: nat,
                          data: seq<byte>) {
    match fs
    case Fs(_, inodes) =>
      && i < sb.ninodes == |fs0.inodes| == |inodes| && |fs0.inodes[i].addrs| == |inodes[i].addrs| == NDIRECT + 1
      && forall u {:trigger Open(u)} :: Open(u) ==>
           && Owned(sb, fs, o, {}) && Shaped(sb, fs0)
           && OthersKept(fs0, fs, o0, o, i) && Overlaid(fs0, fs, i, off0, data)
           && inodes[i] == fs0.inodes[i].(addrs := inodes[i].addrs)
  }

  lemma WrittenOwned(sb: Super, fs0: Fs, o0: map<nat, SlotId>, fs: Fs, o: map<nat, SlotId>, i: nat, off0: nat,
                     data: seq<byte>)
    requires Written(sb, fs0, o0, fs, o, i, off0, data)
    ensures Owned(sb, fs, o, {})
  {
    assert Open(0);
  }

  lemma WrittenInode(sb: Super, fs0: Fs, o0: map<nat, SlotId>, fs: Fs, o: map<nat, SlotId>, i: nat, off0: nat,
                     data: seq<byte>)
    requires Written(sb, fs0, o0, fs, o, i, off0, data)
    ensures fs.inodes[i] == fs0.inodes[i].(addrs := fs.inodes[i].addrs)
  {
    assert Open(0);
  }

  /** bmap in writei's loop writes nothing. */
  lemma WrittenMapped(sb: Super, fs0: Fs, o0: map<nat, SlotId>, fs: Fs, o: map<nat, SlotId>, fs': Fs,
                      o': map<nat, SlotId>, i: nat, off0: nat, data: seq<byte>)
    requires Written(sb, fs0, o0, fs, o, i, off0, data) && Owned(sb, fs', o', {}) && Grown(fs, fs', o, o', i)
    requires off0 + |data| <= MAXFILE * BSIZE
    ensures Written(sb, fs0, o0, fs', o', i, off0, data)
  {
    assert Open(0);
    GrownOverlays(sb, fs, fs', o, o', i, off0 + |data|);
    OverlaidTwice(fs0, fs, fs', i, off0, data, []);
    assert data + [] == data;
    OthersKeptTwice(fs0, fs, fs', o0, o, o', i);
  }

  /** The bytes that one turn of writei's loop moves. */
  function Turn(off: nat, left: nat): (m: nat) {
    if left < BSIZE - off % BSIZE then left else BSIZE - off % BSIZE
  }

  /** What a copy of m bytes from src + tot moves: all of them or, if src is too
      short, none. */
  function Copied(src: seq<byte>, tot: nat, m: nat): (piece: seq<byte>)
    requires tot <= |src| && 0 < m
    ensures |piece| == if tot + m > |src| then 0 else m
    ensures src[..tot] + piece == src[..tot + |piece|]
  {
    if tot + m > |src| then [] else src[tot..tot + m]
  }

  /** The number of blocks that n bytes at off touch. */
  function BlockCount(off: nat, n: nat): nat {
    (off % BSIZE + n + BSIZE - 1) / BSIZE
  }

  lemma NothingWritten(sb: Super, fs: Fs, o: map<nat, SlotId>, i: nat, off: nat)
    requires Owned(sb, fs, o, {}) && i < sb.ninodes
    ensures Written(sb, fs, o, fs, o, i, off, [])
  {
    assert Open(0);
    GrownOverlays(sb, fs, fs, o, o, i, off);
  }

  /** f with data written over it at off, which is at most its end. */
  function Overlay(f: seq<byte>, off: nat, data: seq<byte>): (g: seq<byte>)
    requires off <= |f|
  {
    f[..off] + data + if off + |data| < |f| then f[off + |data|..] else []
  }

  /** fs with the size of file i raised to size if that is larger. */
  function Resized(fs: Fs, i: nat, size: nat): (r: Fs)
    requires i < |fs.inodes|
  {
    if size > fs.inodes[i].size then fs.(inodes := fs.inodes[i := fs.inodes[i].(size := size)]) else fs
  }

  lemma ResizedOwned(sb: Super, fs: Fs, o: map<nat, SlotId>, i: nat, size: nat, fs': Fs)
    requires Owned(sb, fs, o, {}) && i < sb.ninodes && fs' == Resized(fs, i, size)
    ensures Owned(sb, fs', o, {})
    ensures forall j, k :: 0 <= j < sb.ninodes && 0 <= k < NSLOTS ==> Slot(fs', j, k) == Slot(fs, j, k)
  {
    forall j, k | 0 <= j < sb.ninodes && 0 <= k < NSLOTS
      ensures Slot(fs', j, k) == Slot(fs, j, k)
    {
    }
  }

  lemma WrittenNoHole(sb: Super, fs0: Fs, fs: Fs, o: map<nat, SlotId>, i: nat, off: nat, data: seq<byte>, n: nat)
    requires Owned(sb, fs, o, {}) && i < sb.ninodes && Overlaid(fs0, fs, i, off, data)
    requires NoHole(fs0, i) && off <= fs0.inodes[i].size && off + |data| <= MAXFILE * BSIZE
    requires n < MAXFILE && (n * BSIZE < fs0.inodes[i].size || n * BSIZE < off + |data|)
    ensures Data(fs, i, n) != 0
  {
    if n * BSIZE < fs0.inodes[i].size {
      assert Data(fs0, i, n) != 0;
    } else {
      assert (n * BSIZE) / BSIZE == n;
      assert off <= n * BSIZE < off + |data|;
      assert ByteAt(fs, i, n * BSIZE) == data[n * BSIZE - off];
    }
  }

  lemma WrittenByte(fs0: Fs, fs: Fs, i: nat, off: nat, data: seq<byte>, p: nat)
    requires Overlaid(fs0, fs, i, off, data)
    requires NoHole(fs0, i) && off <= fs0.inodes[i].size && off + |data| <= MAXFILE * BSIZE
    requires p < fs0.inodes[i].size || p < off + |data|
    ensures p < |Overlay(File(fs0, i), off, data)| && p < MAXFILE * BSIZE
    ensures ByteAt(fs, i, p) == Overlay(File(fs0, i), off, data)[p]
  {
    OverlayAt(File(fs0, i), off, data, p);
    if !(off <= p < off + |data|) {
      MappedBelow(fs0, i, p);
    }
  }

  lemma OverlayAt(f: seq<byte>, off: nat, data: seq<byte>, p: nat)
    requires off <= |f| && (p < |f| || p < off + |data|)
    ensures p < |Overlay(f, off, data)|
    ensures Overlay(f, off, data)[p] == if off <= p < off + |data| then data[p - off] else f[p]
  {
  }

  lemma Slices(f: seq<byte>, a: nat, b: nat, c: nat)
    requires a <= b <= c <= |f|
    ensures f[a..b] + f[b..c] == f[a..c]
  {
  }

  /** The test for wrap-around in readi and writei. */
  lemma Wraps(off: nat, n: nat)
    requires off < UINT && n < UINT
    ensures (off + n) % UINT < off <==> off + n >= UINT
  {
  }

  /** What the loop wrote, once the size is raised: the file is the old one overlaid. */
  lemma WrittenFile(sb: Super, fs0: Fs, o0: map<nat, SlotId>, fs: Fs, o: map<nat, SlotId>, i: nat, off: nat,
                    data: seq<byte>, end: nat, fs': Fs)
    requires Written(sb, fs0, o0, fs, o, i, off, data) && NoHole(fs0, i) && off <= fs0.inodes[i].size
    requires end == off + |data| <= MAXFILE * BSIZE && i < |fs.inodes| && fs' == Resized(fs, i, end)
    ensures fs.inodes[i].size == fs0.inodes[i].size
    ensures Owned(sb, fs', o, {}) && NoHole(fs', i) && File(fs', i) == Overlay(File(fs0, i), off, data)
    ensures OthersKept(fs0, fs', o0, o, i)
  {
    assert Open(0);
    ResizedOwned(sb, fs, o, i, end, fs');
    ResizedHole(sb, fs0, fs, o, i, off, data, end, fs');
    ResizedFile(fs0, fs, i, off, data, end, fs');
  }

  lemma WrittenOthers(sb: Super, fs0: Fs, o0: map<nat, SlotId>, fs: Fs, o: map<nat, SlotId>, i: nat, off: nat,
                      data: seq<byte>, end: nat, fs': Fs)
    requires Written(sb, fs0, o0, fs, o, i, off, data) && i < |fs.inodes| && fs' == Resized(fs, i, end)
    ensures Owned(sb, fs', o, {}) && OthersKept(fs0, fs', o0, o, i)
  {
    assert Open(0);
    ResizedOwned(sb, fs, o, i, end, fs');
  }

  lemma ResizedHole(sb: Super, fs0: Fs, fs: Fs, o: map<nat, SlotId>, i: nat, off: nat, data: seq<byte>, end: nat,
                    fs': Fs)
    requires Owned(sb, fs, o, {}) && i < sb.ninodes && Overlaid(fs0, fs, i, off, data) && Shaped(sb, fs')
    requires NoHole(fs0, i) && off <= fs0.inodes[i].size == fs.inodes[i].size && end == off + |data| <= MAXFILE * BSIZE
    requires fs' == Resized(fs, i, end)
    ensures NoHole(fs', i)
  {
    forall n | 0 <= n < MAXFILE && n * BSIZE < fs'.inodes[i].size
      ensures Data(fs', i, n) != 0
    {
      WrittenNoHole(sb, fs0, fs, o, i, off, data, n);
    }
  }

  lemma ResizedByte(fs: Fs, i: nat, size: nat, fs': Fs, p: nat)
    requires
      && i < |fs.inodes| && |fs.inodes[i].addrs| == NDIRECT + 1 && fs' == Resized(fs, i, size) && p < MAXFILE * BSIZE
    ensures ByteAt(fs', i, p) == ByteAt(fs, i, p)
  {
  }

  lemma ResizedFile(fs0: Fs, fs: Fs, i: nat, off: nat, data: seq<byte>, end: nat, fs': Fs)
    requires Overlaid(fs0, fs, i, off, data) && i < |fs'.inodes| && |fs'.inodes[i].addrs| == NDIRECT + 1
    requires NoHole(fs0, i) && off <= fs0.inodes[i].size == fs.inodes[i].size && end == off + |data| <= MAXFILE * BSIZE
    requires fs' == Resized(fs, i, end)
    ensures File(fs', i) == Overlay(File(fs0, i), off, data)
  {
    var f, g := File(fs', i), Overlay(File(fs0, i), off, data);
    forall p | 0 <= p < |f|
      ensures p < |g| && f[p] == g[p]
    {
      WrittenByte(fs0, fs, i, off, data, p);
      ResizedByte(fs, i, end, fs', p);
    }
  }

  /** After t turns, tot of n bytes at off0 are done: all of them, or up to a block
      boundary. */
  ghost predicate AtTurn(off0: nat, n: nat, tot: nat, t: nat) {
    && tot <= n && t <= BlockCount(off0, n) && (t == 0 ==> tot == 0) && (0 < tot == n ==> t == BlockCount(off0, n))
    && (tot < n ==> (off0 + tot) / BSIZE == off0 / BSIZE + t && (t > 0 ==> (off0 + tot) % BSIZE == 0))
  }

  lemma NextTurn(off0: nat, n: nat, tot: nat, t: nat)
    requires tot < n && AtTurn(off0, n, tot, t)
    ensures t < BlockCount(off0, n) && off0 / BSIZE + t == (off0 + tot) / BSIZE
    ensures var m := Turn(off0 + tot, n - tot);
      0 < m <= n - tot && (off0 + tot) % BSIZE + m <= BSIZE && AtTurn(off0, n, tot + m, t + 1)
  {
  }

  /** The copy and its log_write extend what was written. */
  lemma PatchStep(sb: Super, fs0: Fs, o0: map<nat, SlotId>, fs: Fs, o: map<nat, SlotId>, i: nat, off0: nat,
                  data: seq<byte>, piece: seq<byte>, off: nat, b: nat)
    requires Written(sb, fs0, o0, fs, o, i, off0, data)
    requires
      && off == off0 + |data| < MAXFILE * BSIZE && off % BSIZE + |piece| <= BSIZE && b == Data(fs, i, off / BSIZE) != 0
    ensures b < sb.size == |fs.blocks|
    ensures Written(sb, fs0, o0, fs.(blocks := fs.blocks[b := Patched(fs.blocks[b], off % BSIZE, piece)]),
                    o, i, off0, data + piece)
  {
    assert Open(0);
    SlotInRange(sb, fs, o, i, DataSlot(off / BSIZE));
    var fs' := fs.(blocks := fs.blocks[b := Patched(fs.blocks[b], off % BSIZE, piece)]);
    PatchOverlays(sb, fs, o, i, off, piece, b, fs');
    BlockRoom(off, |piece|);
    WrittenOn(sb, fs0, o0, fs, o, fs', i, off0, data, off, piece);
  }

  lemma WrittenOn(sb: Super, fs0: Fs, o0: map<nat, SlotId>, fs: Fs, o: map<nat, SlotId>, fs': Fs, i: nat, off0: nat,
                  data: seq<byte>, off: nat, piece: seq<byte>)
    requires Written(sb, fs0, o0, fs, o, i, off0, data) && off == off0 + |data| && off + |piece| <= MAXFILE * BSIZE
    requires
      && Owned(sb, fs', o, {}) && Overlaid(fs, fs', i, off, piece) && OthersKept(fs, fs', o, o, i)
      && fs'.inodes == fs.inodes
    ensures Written(sb, fs0, o0, fs', o, i, off0, data + piece)
  {
    assert Open(0);
    OverlaidTwice(fs0, fs, fs', i, off0, data, piece);
    OthersKeptTwice(fs0, fs, fs', o0, o, o, i);
  }

  /** Only block bn of file i may have been mapped. */
  ghost predicate DataBut(fs: Fs, fs': Fs, i: nat, bn: nat) {
    && i < |fs.inodes| == |fs'.inodes| && |fs.inodes[i].addrs| == |fs'.inodes[i].addrs| == NDIRECT + 1
    && (forall n :: 0 <= n < MAXFILE && n != bn ==> Data(fs', i, n) == Data(fs, i, n))
    && (bn < NDIRECT ==> Slot(fs', i, INDIRECT) == Slot(fs, i, INDIRECT))
  }

  ghost predicate SameData(fs: Fs, fs': Fs, i: nat) {
    && i < |fs.inodes| == |fs'.inodes| && |fs.inodes[i].addrs| == |fs'.inodes[i].addrs| == NDIRECT + 1
    && forall n :: 0 <= n < MAXFILE ==> Data(fs', i, n) == Data(fs, i, n)
  }

  lemma NewIndirect(sb: Super, fs: Fs, fs': Fs, i: nat, ind: nat)
    requires SlotsBut(sb, fs, fs', i, INDIRECT, ind) && i < sb.ninodes
    ensures SameData(fs, fs', i)
  {
  }

  lemma SlotsButData(sb: Super, fs: Fs, fs': Fs, i: nat, bn: nat, r: nat)
    requires SlotsBut(sb, fs, fs', i, bn, r) && i < sb.ninodes && bn < NDIRECT
    ensures DataBut(fs, fs', i, bn) && Slot(fs', i, INDIRECT) == Slot(fs, i, INDIRECT)
  {
  }

  lemma SlotsButTwice(sb: Super, fs: Fs, fs1: Fs, fs2: Fs, i: nat, bn: nat, ind: nat, r: nat)
    requires SlotsBut(sb, fs, fs1, i, INDIRECT, ind) && SlotsBut(sb, fs1, fs2, i, DataSlot(bn), r)
    requires i < sb.ninodes && NDIRECT <= bn < MAXFILE
    ensures DataBut(fs, fs2, i, bn) && Slot(fs2, i, INDIRECT) == ind
    ensures Data(fs1, i, bn) == Data(fs, i, bn)
  {
    forall n | 0 <= n < MAXFILE && n != bn
      ensures Data(fs2, i, n) == Data(fs, i, n)
    {
      assert Slot(fs1, i, DataSlot(n)) == Slot(fs, i, DataSlot(n));
    }
  }

  /** The blocks that bmap logs: for a new data block, it and its bitmap block; for a
      new entry also the indirect block; for a new indirect block also its bitmap block. */
  ghost predicate LogsForMap(sb: Super, fs: Fs, fs': Fs, i: nat, bn: nat, was: set<nat>, now: set<nat>)
    requires Shaped(sb, fs) && Shaped(sb, fs') && i < sb.ninodes && bn < MAXFILE
  {
    var b, ind := Data(fs', i, bn), Slot(fs', i, INDIRECT);
    now == was
           + (if Data(fs, i, bn) != 0 then {} else {sb.Bblock(b), b})
           + (if bn < NDIRECT || Data(fs, i, bn) != 0 then {} else {ind})
           + (if bn < NDIRECT || Slot(fs, i, INDIRECT) != 0 then {} else {sb.Bblock(ind), ind})
  }

  /** The indirect block of inode i and its bitmap block. */
  ghost function IndirectLogs(sb: Super, fs: Fs, i: nat): (r: set<nat>)
    requires i < |fs.inodes| && |fs.inodes[i].addrs| == NDIRECT + 1
    ensures |r| <= 2
  {
    if Slot(fs, i, INDIRECT) == 0 then {} else {Slot(fs, i, INDIRECT), sb.Bblock(Slot(fs, i, INDIRECT))}
  }

  lemma BlockRoom(off: nat, m: nat)
    requires off < MAXFILE * BSIZE && off % BSIZE + m <= BSIZE
    ensures off + m <= MAXFILE * BSIZE
  {
  }

  lemma LogsTwice(sb: Super, fs: Fs, fs': Fs, i: nat, bn: nat, ind: nat, r: nat, l0: set<nat>, l1: set<nat>,
                  l2: set<nat>)
    requires Shaped(sb, fs) && Shaped(sb, fs') && i < sb.ninodes && NDIRECT <= bn < MAXFILE
    requires ind == Slot(fs', i, INDIRECT) && r == Data(fs', i, bn)
    requires l1 == if Slot(fs, i, INDIRECT) != 0 then l0 else l0 + {sb.Bblock(ind), ind}
    requires l2 == if Data(fs, i, bn) != 0 then l1 else l1 + {sb.Bblock(r), r, ind}
    ensures LogsForMap(sb, fs, fs', i, bn, l0, l2)
  {
  }

  lemma MapTwice(sb: Super, fs: Fs, o: map<nat, SlotId>, l: set<nat>, fs1: Fs, o1: map<nat, SlotId>, l1: set<nat>,
                 fs2: Fs, o2: map<nat, SlotId>, l2: set<nat>, i: nat, bn: nat, ind: nat, r: nat)
    requires Grown(fs, fs1, o, o1, i) && Grown(fs1, fs2, o1, o2, i) && i < sb.ninodes && NDIRECT <= bn < MAXFILE
    requires SlotsBut(sb, fs, fs1, i, INDIRECT, ind) && SlotsBut(sb, fs1, fs2, i, DataSlot(bn), r)
    requires l1 == if Slot(fs, i, INDIRECT) != 0 then l else l + {sb.Bblock(ind), ind}
    requires l2 == if Data(fs1, i, bn) != 0 then l1 else l1 + {sb.Bblock(r), r, ind}
    ensures Grown(fs, fs2, o, o2, i) && DataBut(fs, fs2, i, bn) && LogsForMap(sb, fs, fs2, i, bn, l, l2)
  {
    GrownTwice(fs, fs1, fs2, o, o1, o2, i);
    SlotsButTwice(sb, fs, fs1, fs2, i, bn, ind, r);
    LogsTwice(sb, fs, fs2, i, bn, ind, r, l, l1, l2);
  }

  lemma SlotInRange(sb: Super, fs: Fs, owner: map<nat, SlotId>, i: nat, k: nat)
    requires Owned(sb, fs, owner, {}) && i < sb.ninodes && k < NSLOTS && Slot(fs, i, k) != 0
    ensures sb.nmeta <= Slot(fs, i, k) < sb.size
  {
  }

  /** The part of a file inside one block. */
  lemma PieceOfFile(fs: Fs, i: nat, off: nat, m: nat, piece: seq<byte>)
    requires NoHole(fs, i) && off + m <= fs.inodes[i].size && off % BSIZE + m <= BSIZE && 0 < m
    requires Data(fs, i, off / BSIZE) < |fs.blocks|
    requires piece == fs.blocks[Data(fs, i, off / BSIZE)].bytes[off % BSIZE..off % BSIZE + m]
    ensures piece == File(fs, i)[off..off + m]
  {
    forall x | 0 <= x < m
      ensures piece[x] == File(fs, i)[off + x]
    {
      WithinBlock(off, m, off + x);
    }
  }

  lemma IndirectInRange(sb: Super, fs: Fs, owner: map<nat, SlotId>, i: nat)
    requires Owned(sb, fs, owner, {}) && i < sb.ninodes && Slot(fs, i, INDIRECT) != 0
    ensures sb.nmeta <= Slot(fs, i, INDIRECT) < sb.size
  {
  }

  /** What assigning the allocated block r to address k of inode i does. */
  lemma AddrMapped(sb: Super, fs: Fs, owner: map<nat, SlotId>, i: nat, k: nat, r: nat)
    requires Owned(sb, fs, owner, {}) && i < sb.ninodes && k <= INDIRECT && Slot(fs, i, k) == 0
    requires r < sb.size && sb.Bblock(r) < sb.size && !Used(sb, fs.blocks, r)
    ensures var fs' := SetAddr(fs.(blocks := Allocated(sb, fs.blocks, r)), i, k, r);
      && Owned(sb, fs', owner[r := SlotId(i, k)], {}) && r != 0
      && Grown(fs, fs', owner, owner[r := SlotId(i, k)], i)
      && SlotsBut(sb, fs, fs', i, k, r)
  {
    BallocOwned(sb, fs, owner, {}, r);
    var fs1 := fs.(blocks := Allocated(sb, fs.blocks, r));
    var fs' := SetAddr(fs1, i, k, r);
    assert {} + {r} == {r} && {r} - {r} == {};
    if k == INDIRECT {
      AttachIndirect(sb, fs1, owner, {r}, i, r);
    } else {
      AttachDirect(sb, fs1, owner, {r}, i, k, r);
    }
    AddrSlots(sb, fs1, owner, {r}, i, k, r);
  }

  lemma EntryMapped(sb: Super, fs: Fs, owner: map<nat, SlotId>, i: nat, e: nat, r: nat, ind: nat)
    requires Owned(sb, fs, owner, {}) && i < sb.ninodes && e < NINDIRECT
    requires ind == Slot(fs, i, INDIRECT) != 0 && Slot(fs, i, INDIRECT + 1 + e) == 0
    requires r < sb.size && sb.Bblock(r) < sb.size && !Used(sb, fs.blocks, r)
    ensures ind < sb.size && Allocated(sb, fs.blocks, r)[ind] == fs.blocks[ind]
    ensures var fs' := SetEntry(fs.(blocks := Allocated(sb, fs.blocks, r)), ind, e, r);
      && Owned(sb, fs', owner[r := SlotId(i, INDIRECT + 1 + e)], {}) && r != 0
      && Grown(fs, fs', owner, owner[r := SlotId(i, INDIRECT + 1 + e)], i)
      && SlotsBut(sb, fs, fs', i, INDIRECT + 1 + e, r)
  {
    BallocOwned(sb, fs, owner, {}, r);
    var fs1 := fs.(blocks := Allocated(sb, fs.blocks, r));
    assert {} + {r} == {r} && {r} - {r} == {};
    assert ind in owner && owner[ind] == SlotId(i, INDIRECT);
    AttachEntry(sb, fs1, owner, {r}, i, e, r, ind);
    EntrySlots(sb, fs1, owner, {r}, i, e, r, ind);
  }

  ghost predicate AllUsed(sb: Super, blocks: Disk, n: nat) {
    && sb.Ok() && |blocks| == sb.size && n <= sb.size
    && forall x :: 0 <= x < n ==> (InMap(sb, x); Used(sb, blocks, x))
  }

  /** No block is free. */
  ghost predicate DiskFull(sb: Super, blocks: Disk) {
    forall u {:trigger Open(u)} :: Open(u) ==> AllUsed(sb, blocks, sb.size)
  }

  /** The blocks after balloc returned r. */
  function Allocated(sb: Super, blocks: Disk, r: nat): (c: Disk)
    requires r < |blocks| && sb.Bblock(r) < |blocks|
  {
    MarkBlock(sb, blocks, r, true)[r := ZeroBlock()]
  }

  /** balloc hands out a data block that no slot holds. */
  lemma BallocOwned(sb: Super, fs: Fs, owner: map<nat, SlotId>, loose: set<nat>, r: nat)
    requires Owned(sb, fs, owner, loose) && r < sb.size && sb.Bblock(r) < sb.size && !Used(sb, fs.blocks, r)
    ensures sb.nmeta <= r && r !in owner && r !in loose && r != 0
    ensures Owned(sb, fs.(blocks := Allocated(sb, fs.blocks, r)), owner, loose + {r})
    ensures forall b :: b in owner ==> b < sb.size && Allocated(sb, fs.blocks, r)[b] == fs.blocks[b]
    ensures forall i, k :: 0 <= i < sb.ninodes && 0 <= k < NSLOTS ==>
              Slot(fs.(blocks := Allocated(sb, fs.blocks, r)), i, k) == Slot(fs, i, k)
  {
    MarkOwned(sb, fs, owner, loose, r, true);
    var fs1 := fs.(blocks := MarkBlock(sb, fs.blocks, r, true));
    StoreKeepsOwned(sb, fs1, owner, loose + {r}, r, ZeroBlock());
  }

  lemma SameMapBlock(sb: Super, b: nat, bi: nat)
    requires b % BPB == 0 && bi < BPB
    ensures sb.Bblock(b + bi) == sb.Bblock(b) && (b + bi) % BPB == bi
  {
  }

  /** Since fs0 file i was overlaid with data at off, and all other files are as they
      were. Nothing can be written past the end of a file. */
  ghost predicate FileWritten(fs0: Fs, o0: map<nat, SlotId>, fs: Fs, o: map<nat, SlotId>, i: nat, off: nat,
                              data: seq<byte>) {
    forall u {:trigger Open(u)} :: Open(u) ==>
      && NoHole(fs0, i) && NoHole(fs, i) && OthersKept(fs0, fs, o0, o, i)
      && (if off <= fs0.inodes[i].size then File(fs, i) == Overlay(File(fs0, i), off, data)
          else data == [] && File(fs, i) == File(fs0, i))
  }

  lemma FileUnwritten(fs: Fs, o: map<nat, SlotId>, i: nat, off: nat, data: seq<byte>)
    requires NoHole(fs, i) && data == []
    ensures FileWritten(fs, o, fs, o, i, off, data)
  {
  }

  lemma NoHolesYet(fs0: Fs, o0: map<nat, SlotId>, fs: Fs, o: map<nat, SlotId>, i: nat, off: nat, data: seq<byte>)
    requires FileWritten(fs0, o0, fs, o, i, off, data)
    ensures NoHole(fs, i)
  {
    assert Open(0);
  }

  /** What was written lies within the file. */
  lemma Reaches(fs0: Fs, o0: map<nat, SlotId>, fs: Fs, o: map<nat, SlotId>, i: nat, off: nat, data: seq<byte>, end: nat)
    requires FileWritten(fs0, o0, fs, o, i, off, data) && end == off + |data|
    ensures NoHole(fs0, i) && NoHole(fs, i) && (end <= fs.inodes[i].size <==> off <= fs0.inodes[i].size)
  {
    assert Open(0);
  }

  lemma NextSlice(src: seq<byte>, done: nat, end: nat, r: int)
    requires done <= end <= |src| && r <= end - done
    ensures (if r >= 0 then src[..done] + src[done..end][..r] else src[..done]) == src[..done + if r > 0 then r else 0]
  {
  }

  lemma OverlayTwice(f: seq<byte>, off: nat, d1: seq<byte>, d2: seq<byte>)
    requires off <= |f|
    ensures off + |d1| <= |Overlay(f, off, d1)|
    ensures Overlay(Overlay(f, off, d1), off + |d1|, d2) == Overlay(f, off, d1 + d2)
  {
    var g, h := Overlay(Overlay(f, off, d1), off + |d1|, d2), Overlay(f, off, d1 + d2);
    forall p | 0 <= p < |h|
      ensures p < |g| && g[p] == h[p]
    {
      OverlayAt(f, off, d1 + d2, p);
      OverlayAt(Overlay(f, off, d1), off + |d1|, d2, p);
      if p < |f| || p < off + |d1| {
        OverlayAt(f, off, d1, p);
      }
    }
  }

  lemma ChunkWritten(fs0: Fs, o0: map<nat, SlotId>, fs1: Fs, o1: map<nat, SlotId>, fs2: Fs, o2: map<nat, SlotId>,
                     i: nat, off0: nat, d1: seq<byte>, off: nat, d2: seq<byte>, d: seq<byte>)
    requires FileWritten(fs0, o0, fs1, o1, i, off0, d1) && off == off0 + |d1| && d == d1 + d2
    requires NoHole(fs1, i) && off <= fs1.inodes[i].size && NoHole(fs2, i)
    requires File(fs2, i) == Overlay(File(fs1, i), off, d2) && OthersKept(fs1, fs2, o1, o2, i)
    ensures FileWritten(fs0, o0, fs2, o2, i, off0, d)
  {
    assert Open(0);
    OthersKeptTwice(fs0, fs1, fs2, o0, o1, o2, i);
    OverlayTwice(File(fs0, i), off0, d1, d2);
    assert File(fs2, i) == Overlay(File(fs0, i), off0, d);
  }
}
