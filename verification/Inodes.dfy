/** Where the blocks of files are: the slots of inodes, the free bitmap, and the
    ownership invariant that ties them together. */
module Inodes {
  import opened Blocks

  const NDIRECT := 12
  const NINDIRECT := 256
  const MAXFILE := NDIRECT + NINDIRECT
  const BPB := 8 * BSIZE
  const IPB := 16
  const ROOTINO := 1
  const DIRSIZ := 14
  const DIRENT := 16
  const T_DIR := 1
  // slots of an inode: the direct addresses, the indirect block, its entries
  const INDIRECT := NDIRECT
  const NSLOTS := NDIRECT + 1 + NINDIRECT

  /** The super block, and the number of blocks before the data region. */
  datatype Super = Super(size: nat, nmeta: nat, ninodes: nat, inodestart: nat, bmapstart: nat) {
    ghost predicate Ok() {
      && 0 < size <= 0x1_0000_0000 && nmeta <= size && inodestart + ninodes / IPB < nmeta
      && bmapstart + (size - 1) / BPB < nmeta
    }
    /** Block of the free map containing the bit for block b. */
    function Bblock(b: nat): nat { b / BPB + bmapstart }
    /** Block containing inode i. */
    function Iblock(i: nat): nat { i / IPB + inodestart }
  }

  datatype Inode = Inode(typ: nat, nlink: nat, size: nat, addrs: seq<nat>)

  datatype Fs = Fs(blocks: Disk, inodes: seq<Inode>)

  datatype SlotId = SlotId(i: nat, k: nat)

  ghost predicate Shaped(sb: Super, fs: Fs) {
    && sb.Ok() && |fs.blocks| == sb.size && |fs.inodes| == sb.ninodes
    && forall i :: 0 <= i < |fs.inodes| ==> |fs.inodes[i].addrs| == NDIRECT + 1
  }

  /** Whether the bitmap marks block b as in use. */
  predicate Used(sb: Super, blocks: Disk, b: nat)
    requires b < |blocks| && sb.Bblock(b) < |blocks|
  {
    Bit(blocks[sb.Bblock(b)], b % BPB)
  }

  /** The block number in slot k of inode i; 0 is an empty slot. */
  function Slot(fs: Fs, i: nat, k: nat): (b: nat)
    requires i < |fs.inodes| && |fs.inodes[i].addrs| == NDIRECT + 1 && k < NSLOTS
  {
    var addrs := fs.inodes[i].addrs;
    if k <= INDIRECT then addrs[k]
    else if addrs[INDIRECT] == 0 || addrs[INDIRECT] >= |fs.blocks| then 0
    else Word(fs.blocks[addrs[INDIRECT]], k - INDIRECT - 1)
  }

  /** Slot of the n-th data block of a file. */
  function DataSlot(n: nat): (k: nat) {
    if n < NDIRECT then n else n + 1
  }

  /** Every filled slot owns its block and no block has two owners; the bitmap marks
      exactly the metadata blocks, the owned blocks and the blocks in loose, which
      an operation has allocated or detached on its way. */
  ghost predicate Owned(sb: Super, fs: Fs, owner: map<nat, SlotId>, loose: set<nat>) {
    && Shaped(sb, fs)
    && (forall i, k :: 0 <= i < sb.ninodes && 0 <= k < NSLOTS && Slot(fs, i, k) != 0
          ==> Slot(fs, i, k) in owner && owner[Slot(fs, i, k)] == SlotId(i, k))
    && (forall b :: b in owner ==>
          && sb.nmeta <= b < sb.size && b != 0 && b !in loose
          && owner[b].i < sb.ninodes && owner[b].k < NSLOTS && Slot(fs, owner[b].i, owner[b].k) == b)
    && (forall b :: b in loose ==> sb.nmeta <= b < sb.size && b != 0)
    && (forall b {:trigger Used(sb, fs.blocks, b)} :: 0 <= b < sb.size ==>
          (InMap(sb, b); Used(sb, fs.blocks, b) <==> b < sb.nmeta || b in owner || b in loose))
  }

  lemma InMap(sb: Super, b: nat)
    requires sb.Ok() && b < sb.size
    ensures sb.Bblock(b) < sb.nmeta
  {
  }

  /** Slots depend on the inode and on its indirect block alone. */
  lemma SameSlots(sb: Super, fs: Fs, fs': Fs, i: nat)
    requires i < |fs.inodes| == |fs'.inodes| && fs'.inodes[i].addrs == fs.inodes[i].addrs
    requires |fs.inodes[i].addrs| == NDIRECT + 1 && |fs.blocks| == |fs'.blocks|
    requires var a := fs.inodes[i].addrs[INDIRECT]; a == 0 || a >= |fs.blocks| || fs'.blocks[a] == fs.blocks[a]
    ensures forall k :: 0 <= k < NSLOTS ==> Slot(fs', i, k) == Slot(fs, i, k)
  {
  }

  /** Writing a block that is no inode's indirect block, and no metadata, keeps
      every slot and every bit. */
  lemma StoreKeepsOwned(sb: Super, fs: Fs, owner: map<nat, SlotId>, loose: set<nat>, b: nat, data: Block)
    requires Owned(sb, fs, owner, loose) && sb.nmeta <= b < sb.size
    requires b in owner ==> owner[b].k != INDIRECT
    ensures Owned(sb, fs.(blocks := fs.blocks[b := data]), owner, loose)
  {
    var fs' := fs.(blocks := fs.blocks[b := data]);
    forall i, k | 0 <= i < sb.ninodes && 0 <= k < NSLOTS
      ensures Slot(fs', i, k) == Slot(fs, i, k)
    {
      assert fs.inodes[i].addrs[INDIRECT] == Slot(fs, i, INDIRECT);
      SameSlots(sb, fs, fs', i);
    }
    forall x | 0 <= x < sb.size
      ensures sb.Bblock(x) < sb.nmeta && Used(sb, fs'.blocks, x) == Used(sb, fs.blocks, x)
    {
      InMap(sb, x);
    }
  }

  /** The bitmap with the bit of b changed. */
  function MarkBlock(sb: Super, blocks: Disk, b: nat, on: bool): (r: Disk)
    requires b < |blocks| && sb.Bblock(b) < |blocks|
    ensures |r| == |blocks|
  {
    blocks[sb.Bblock(b) := SetBit(blocks[sb.Bblock(b)], b % BPB, on)]
  }

  lemma MarkBlockAt(sb: Super, blocks: Disk, b: nat, on: bool, x: nat)
    requires sb.Ok() && |blocks| == sb.size && b < sb.size && x < sb.size
    ensures sb.Bblock(b) < sb.nmeta && sb.Bblock(x) < sb.nmeta
    ensures Used(sb, MarkBlock(sb, blocks, b, on), x) == if x == b then on else Used(sb, blocks, x)
  {
    InMap(sb, b);
    InMap(sb, x);
    if sb.Bblock(x) == sb.Bblock(b) && x != b {
      assert x % BPB != b % BPB;
    }
  }

  lemma MarkKeepsSlots(sb: Super, fs: Fs, owner: map<nat, SlotId>, loose: set<nat>, b: nat, on: bool, i: nat, k: nat)
    requires Owned(sb, fs, owner, loose) && b < sb.size && i < sb.ninodes && k < NSLOTS
    ensures sb.Bblock(b) < sb.nmeta
    ensures Slot(fs.(blocks := MarkBlock(sb, fs.blocks, b, on)), i, k) == Slot(fs, i, k)
  {
    InMap(sb, b);
    assert fs.inodes[i].addrs[INDIRECT] == Slot(fs, i, INDIRECT);
    SameSlots(sb, fs, fs.(blocks := MarkBlock(sb, fs.blocks, b, on)), i);
  }

  /** Marking a free block makes it loose; clearing a loose one frees it. */
  lemma MarkOwned(sb: Super, fs: Fs, owner: map<nat, SlotId>, loose: set<nat>, b: nat, on: bool)
    requires Owned(sb, fs, owner, loose) && sb.nmeta <= b < sb.size && b != 0 && b !in owner
    ensures sb.Bblock(b) < sb.nmeta
    ensures Owned(sb, fs.(blocks := MarkBlock(sb, fs.blocks, b, on)), owner, if on then loose + {b} else loose - {b})
  {
    InMap(sb, b);
    var fs' := fs.(blocks := MarkBlock(sb, fs.blocks, b, on));
    forall i, k | 0 <= i < sb.ninodes && 0 <= k < NSLOTS
      ensures Slot(fs', i, k) == Slot(fs, i, k)
    {
      MarkKeepsSlots(sb, fs, owner, loose, b, on, i, k);
    }
    forall x | 0 <= x < sb.size
      ensures sb.Bblock(x) < sb.nmeta && Used(sb, fs'.blocks, x) == if x == b then on else Used(sb, fs.blocks, x)
    {
      MarkBlockAt(sb, fs.blocks, b, on, x);
    }
  }

  /** fs with address k of inode i replaced. */
  function SetAddr(fs: Fs, i: nat, k: nat, b: nat): (r: Fs)
    requires i < |fs.inodes| && k < |fs.inodes[i].addrs|
  {
    fs.(inodes := fs.inodes[i := fs.inodes[i].(addrs := fs.inodes[i].addrs[k := b])])
  }

  /** Slot (i, k) now holds b; every other slot is as before. */
  ghost predicate SlotsBut(sb: Super, fs: Fs, fs': Fs, i: nat, k: nat, b: nat) {
    && Shaped(sb, fs) && Shaped(sb, fs')
    && forall j, l :: 0 <= j < sb.ninodes && 0 <= l < NSLOTS ==>
         Slot(fs', j, l) == if j == i && l == k then b else Slot(fs, j, l)
  }

  ghost predicate SameBits(sb: Super, fs: Fs, fs': Fs) {
    && sb.Ok() && |fs.blocks| == |fs'.blocks| == sb.size
    && forall x :: 0 <= x < sb.size ==> (InMap(sb, x); Used(sb, fs'.blocks, x) == Used(sb, fs.blocks, x))
  }

  /** A loose block that enters an empty slot is owned by it. */
  lemma Attached(sb: Super, fs: Fs, fs': Fs, owner: map<nat, SlotId>, loose: set<nat>, i: nat, k: nat, b: nat)
    requires Owned(sb, fs, owner, loose) && i < sb.ninodes && k < NSLOTS && Slot(fs, i, k) == 0 && b in loose
    requires SlotsBut(sb, fs, fs', i, k, b) && SameBits(sb, fs, fs')
    ensures Owned(sb, fs', owner[b := SlotId(i, k)], loose - {b})
  {
  }

  lemma AttachDirect(sb: Super, fs: Fs, owner: map<nat, SlotId>, loose: set<nat>, i: nat, k: nat, b: nat)
    requires Owned(sb, fs, owner, loose) && i < sb.ninodes && k < NDIRECT && Slot(fs, i, k) == 0 && b in loose
    ensures Owned(sb, SetAddr(fs, i, k, b), owner[b := SlotId(i, k)], loose - {b})
  {
    Attached(sb, fs, SetAddr(fs, i, k, b), owner, loose, i, k, b);
  }

  lemma {:induction false} ZeroNumber(b: seq<byte>, lo: nat, hi: nat)
    requires lo <= hi <= |b| && forall k :: lo <= k < hi ==> b[k] == 0
    ensures Number(b, lo, hi) == 0
    decreases hi - lo
  {
    if lo < hi {
      ZeroNumber(b, lo + 1, hi);
    }
  }

  /** A fresh indirect block must be zeroed: then it brings no entries. */
  lemma AttachIndirect(sb: Super, fs: Fs, owner: map<nat, SlotId>, loose: set<nat>, i: nat, b: nat)
    requires Owned(sb, fs, owner, loose) && i < sb.ninodes && Slot(fs, i, INDIRECT) == 0 && b in loose
    requires fs.blocks[b] == ZeroBlock()
    ensures Owned(sb, SetAddr(fs, i, INDIRECT, b), owner[b := SlotId(i, INDIRECT)], loose - {b})
  {
    AddrSlots(sb, fs, owner, loose, i, INDIRECT, b);
    Attached(sb, fs, SetAddr(fs, i, INDIRECT, b), owner, loose, i, INDIRECT, b);
  }

  lemma AddrSlots(sb: Super, fs: Fs, owner: map<nat, SlotId>, loose: set<nat>, i: nat, k: nat, b: nat)
    requires Owned(sb, fs, owner, loose) && i < sb.ninodes && k <= INDIRECT && Slot(fs, i, k) == 0
    requires k == INDIRECT ==> b < sb.size && fs.blocks[b] == ZeroBlock()
    ensures SlotsBut(sb, fs, SetAddr(fs, i, k, b), i, k, b)
  {
    var fs' := SetAddr(fs, i, k, b);
    forall j, l | 0 <= j < sb.ninodes && 0 <= l < NSLOTS
      ensures Slot(fs', j, l) == if j == i && l == k then b else Slot(fs, j, l)
    {
      if j == i && k == INDIRECT < l {
        var e := 4 * (l - INDIRECT - 1);
        ZeroNumber(ZeroBlock().bytes, e, e + 4);
      }
    }
  }

  /** fs with entry e of indirect block ind replaced. */
  function SetEntry(fs: Fs, ind: nat, e: nat, b: nat): (r: Fs)
    requires ind < |fs.blocks| && e < NINDIRECT
  {
    fs.(blocks := fs.blocks[ind := SetWord(fs.blocks[ind], e, b)])
  }

  lemma EntrySlots(sb: Super, fs: Fs, owner: map<nat, SlotId>, loose: set<nat>, i: nat, e: nat, b: nat, ind: nat)
    requires Owned(sb, fs, owner, loose) && i < sb.ninodes && e < NINDIRECT && b < 0x1_0000_0000
    requires ind == Slot(fs, i, INDIRECT) != 0
    ensures sb.nmeta <= ind < sb.size && SlotsBut(sb, fs, SetEntry(fs, ind, e, b), i, INDIRECT + 1 + e, b)
  {
    assert ind in owner && owner[ind] == SlotId(i, INDIRECT);
    var fs' := SetEntry(fs, ind, e, b);
    forall j, l | 0 <= j < sb.ninodes && 0 <= l < NSLOTS
      ensures Slot(fs', j, l) == if j == i && l == INDIRECT + 1 + e then b else Slot(fs, j, l)
    {
      assert fs.inodes[j].addrs[INDIRECT] == Slot(fs, j, INDIRECT);
      if j != i {
        SameSlots(sb, fs, fs', j);
      } else if l > INDIRECT {
        WordOfSetWord(fs.blocks[ind], e, b, l - INDIRECT - 1);
      }
    }
  }

  lemma AttachEntry(sb: Super, fs: Fs, owner: map<nat, SlotId>, loose: set<nat>, i: nat, e: nat, b: nat, ind: nat)
    requires Owned(sb, fs, owner, loose) && i < sb.ninodes && e < NINDIRECT && b in loose
    requires ind == Slot(fs, i, INDIRECT) != 0 && Slot(fs, i, INDIRECT + 1 + e) == 0
    ensures sb.nmeta <= ind < sb.size
    ensures Owned(sb, SetEntry(fs, ind, e, b), owner[b := SlotId(i, INDIRECT + 1 + e)], loose - {b})
  {
    EntrySlots(sb, fs, owner, loose, i, e, b, ind);
    var fs' := SetEntry(fs, ind, e, b);
    forall x | 0 <= x < sb.size
      ensures sb.Bblock(x) < sb.nmeta && Used(sb, fs'.blocks, x) == Used(sb, fs.blocks, x)
    {
      InMap(sb, x);
    }
    Attached(sb, fs, fs', owner, loose, i, INDIRECT + 1 + e, b);
  }

  /** The block of an emptied slot becomes loose. */
  lemma Detached(sb: Super, fs: Fs, fs': Fs, owner: map<nat, SlotId>, loose: set<nat>, i: nat, k: nat, b: nat)
    requires Owned(sb, fs, owner, loose) && i < sb.ninodes && k < NSLOTS && Slot(fs, i, k) == b != 0
    requires SlotsBut(sb, fs, fs', i, k, 0) && SameBits(sb, fs, fs')
    ensures Owned(sb, fs', owner - {b}, loose + {b})
  {
  }

  lemma DetachDirect(sb: Super, fs: Fs, owner: map<nat, SlotId>, loose: set<nat>, i: nat, k: nat, b: nat)
    requires Owned(sb, fs, owner, loose) && i < sb.ninodes && k < NDIRECT && Slot(fs, i, k) == b != 0
    ensures Owned(sb, SetAddr(fs, i, k, 0), owner - {b}, loose + {b})
  {
    Detached(sb, fs, SetAddr(fs, i, k, 0), owner, loose, i, k, b);
  }

  /** The indirect block of inode i and the blocks it lists. */
  ghost function IndirectBlocks(owner: map<nat, SlotId>, i: nat): set<nat> {
    set b | b in owner && owner[b].i == i && owner[b].k >= INDIRECT
  }

  lemma DetachIndirect(sb: Super, fs: Fs, owner: map<nat, SlotId>, loose: set<nat>, i: nat)
    requires Owned(sb, fs, owner, loose) && i < sb.ninodes
    ensures var gone := IndirectBlocks(owner, i);
      Owned(sb, SetAddr(fs, i, INDIRECT, 0), owner - gone, loose + gone)
  {
    var fs' := SetAddr(fs, i, INDIRECT, 0);
    forall j, l | 0 <= j < sb.ninodes && 0 <= l < NSLOTS
      ensures Slot(fs', j, l) == if j == i && l >= INDIRECT then 0 else Slot(fs, j, l)
    {
    }
  }
}
