/** mkfs/mkfs.c: building the first file system image. */
module Mkfs {
  import opened Blocks
  import opened Common
  import opened Inodes
  import opened Files
  import opened Writing
  import opened Truncation

  const T_FILE := 2

  function NoInode(): (n: Inode) { Inode(0, 0, 0, [0, 0, 0, 0, 0, 0, 0, 0, 0, 0, 0, 0, 0]) }

  /** The layout: boot block, super block, log, inodes, bitmap, data. */
  function Layout(size: nat, nlog: nat, ninodes: nat): (sb: Super) {
    var inodeblocks, bitmap := ninodes / IPB + 1, size / BPB + 1;
    Super(size, 2 + nlog + inodeblocks + bitmap, ninodes, 2 + nlog, 2 + nlog + inodeblocks)
  }

  lemma LayoutOk(size: nat, nlog: nat, ninodes: nat)
    requires 0 < size <= UINT && Layout(size, nlog, ninodes).nmeta <= size
    ensures Layout(size, nlog, ninodes).Ok()
  {
  }

  /** The image on the way: blocks from freeblock on are unused and zero. The bitmap is
      written last; marked is the disk with the bitmap that it will get. */
  ghost predicate Laid(sb: Super, blocks: Disk, marked: Disk, freeblock: nat) {
    && sb.Ok() && |blocks| == |marked| == sb.size && sb.nmeta <= freeblock <= sb.size
    && (forall b :: sb.nmeta <= b < sb.size ==> marked[b] == blocks[b])
    && (forall b :: freeblock <= b < sb.size ==> blocks[b] == ZeroBlock())
    && (forall b :: sb.bmapstart <= b < sb.nmeta ==> blocks[b] == ZeroBlock())
    && (forall b {:trigger Used(sb, marked, b)} :: 0 <= b < sb.size ==>
        (InMap(sb, b); Used(sb, marked, b) <==> b < freeblock))
  }

  /** freeblock++ is an allocation. */
  lemma LaidTake(sb: Super, blocks: Disk, marked: Disk, r: nat)
    requires Laid(sb, blocks, marked, r) && r < sb.size
    ensures sb.Bblock(r) < sb.nmeta && !Used(sb, marked, r) && Laid(sb, blocks, Allocated(sb, marked, r), r + 1)
  {
    InMap(sb, r);
    forall b | 0 <= b < sb.size
      ensures sb.Bblock(b) < sb.nmeta && Used(sb, Allocated(sb, marked, r), b) == (b < r + 1)
    {
      MarkBlockAt(sb, marked, r, true, b);
    }
  }

  lemma LaidStore(sb: Super, blocks: Disk, marked: Disk, freeblock: nat, b: nat, data: Block)
    requires Laid(sb, blocks, marked, freeblock) && sb.nmeta <= b < freeblock
    ensures Laid(sb, blocks[b := data], marked[b := data], freeblock)
  {
    forall x | 0 <= x < sb.size
      ensures sb.Bblock(x) < sb.nmeta && Used(sb, marked[b := data], x) == Used(sb, marked, x)
    {
      InMap(sb, x);
    }
  }

  /** The bitmap with the first n bits set. */
  ghost function Marked(sb: Super, blocks: Disk, n: nat): (m: Disk)
    requires sb.Ok() && |blocks| == sb.size && n <= sb.size
    ensures |m| == sb.size
  {
    if n == 0 then blocks else InMap(sb, n - 1); MarkBlock(sb, Marked(sb, blocks, n - 1), n - 1, true)
  }

  lemma {:induction false} MarkedAt(sb: Super, blocks: Disk, n: nat, b: nat)
    requires sb.Ok() && |blocks| == sb.size && n <= sb.size && b < sb.size
    requires forall x :: sb.bmapstart <= x < sb.nmeta ==> blocks[x] == ZeroBlock()
    ensures sb.Bblock(b) < sb.nmeta && (Used(sb, Marked(sb, blocks, n), b) <==> b < n)
    ensures b >= sb.nmeta ==> Marked(sb, blocks, n)[b] == blocks[b]
  {
    InMap(sb, b);
    if n == 0 {
      ZeroBits(ZeroBlock());
    } else {
      InMap(sb, n - 1);
      MarkedAt(sb, blocks, n - 1, b);
      MarkBlockAt(sb, Marked(sb, blocks, n - 1), n - 1, true, b);
    }
  }

  /** Exactly the metadata blocks are marked. */
  ghost predicate MetaOnly(sb: Super, blocks: Disk, marked: Disk) {
    && sb.Ok() && |blocks| == |marked| == sb.size
    && (forall b {:trigger Used(sb, marked, b)} :: 0 <= b < sb.size ==>
        (InMap(sb, b); Used(sb, marked, b) <==> b < sb.nmeta))
    && (forall b :: sb.nmeta <= b < sb.size ==> marked[b] == blocks[b])
  }

  lemma MarkedMeta(sb: Super, blocks: Disk)
    requires sb.Ok() && |blocks| == sb.size && forall x :: sb.bmapstart <= x < sb.nmeta ==> blocks[x] == ZeroBlock()
    ensures MetaOnly(sb, blocks, Marked(sb, blocks, sb.nmeta))
  {
    var marked := Marked(sb, blocks, sb.nmeta);
    forall b | 0 <= b < sb.size
      ensures
        && sb.Bblock(b) < sb.nmeta && (Used(sb, marked, b) <==> b < sb.nmeta)
        && (b >= sb.nmeta ==> marked[b] == blocks[b])
    {
      MarkedAt(sb, blocks, sb.nmeta, b);
    }
  }

  lemma LaidAtFirst(sb: Super, blocks: Disk, marked: Disk)
    requires MetaOnly(sb, blocks, marked) && 1 < sb.bmapstart
    requires forall x :: 0 <= x < sb.size && x != 1 ==> blocks[x] == ZeroBlock()
    ensures Laid(sb, blocks, marked, sb.nmeta)
  {
  }

  lemma OwnedAtFirst(sb: Super, fs: Fs)
    requires sb.Ok() && |fs.blocks| == sb.size && |fs.inodes| == sb.ninodes
    requires forall i :: 0 <= i < |fs.inodes| ==> fs.inodes[i] == NoInode()
    requires forall b {:trigger Used(sb, fs.blocks, b)} :: 0 <= b < sb.size ==>
      (InMap(sb, b); Used(sb, fs.blocks, b) <==> b < sb.nmeta)
    ensures Owned(sb, fs, map[], {})
  {
    forall i, k | 0 <= i < sb.ninodes && 0 <= k < NSLOTS
      ensures Slot(fs, i, k) == 0
    {
      assert fs.inodes[i] == NoInode();
    }
  }

  /** Blocks held by slots lie below freeblock. */
  lemma BelowFree(sb: Super, blocks: Disk, marked: Disk, freeblock: nat, inodes: seq<Inode>, owner: map<nat, SlotId>,
                  i: nat, k: nat)
    requires
      && Laid(sb, blocks, marked, freeblock) && Owned(sb, Fs(marked, inodes), owner, {}) && i < sb.ninodes && k < NSLOTS
    requires Slot(Fs(marked, inodes), i, k) != 0
    ensures sb.nmeta <= Slot(Fs(marked, inodes), i, k) < freeblock
  {
    var b := Slot(Fs(marked, inodes), i, k);
    assert b in owner;
    InMap(sb, b);
    assert Used(sb, marked, b);
  }

  /** A new entry of an indirect block. */
  lemma EntryLaid(sb: Super, blocks: Disk, fs: Fs, owner: map<nat, SlotId>, i: nat, e: nat, k: nat, r: nat, ind: nat,
                  blocks': Disk, fs': Fs, owner': map<nat, SlotId>, next: nat)
    requires Laid(sb, blocks, fs.blocks, r) && r < sb.size && Owned(sb, fs, owner, {}) && i < sb.ninodes
    requires e < NINDIRECT && k == INDIRECT + 1 + e && ind == Slot(fs, i, INDIRECT) != 0 && Slot(fs, i, k) == 0
    requires
      && ind < sb.size && sb.Bblock(r) < sb.size && next == r + 1
      && blocks' == blocks[ind := SetWord(blocks[ind], e, r)]
    requires
      && fs' == SetEntry(fs.(blocks := Allocated(sb, fs.blocks, r)), ind, e, r) && owner' == owner[r := SlotId(i, k)]
    ensures Laid(sb, blocks', fs'.blocks, next) && Owned(sb, fs', owner', {}) && r != 0
    ensures Grown(fs, fs', owner, owner', i) && SlotsBut(sb, fs, fs', i, k, r) && Slot(fs', i, k) == r
  {
    BelowFree(sb, blocks, fs.blocks, r, fs.inodes, owner, i, INDIRECT);
    LaidTake(sb, blocks, fs.blocks, r);
    EntryMapped(sb, fs, owner, i, e, r, ind);
    LaidStore(sb, blocks, Allocated(sb, fs.blocks, r), r + 1, ind, SetWord(blocks[ind], e, r));
  }

  ghost predicate SameBut(blocks: Disk, blocks': Disk, x: nat) {
    |blocks'| == |blocks| && forall b :: 0 <= b < |blocks| && b != x ==> blocks'[b] == blocks[b]
  }

  /** What such an entry leads to; folded. */
  ghost predicate Taken(sb: Super, blocks: Disk, fs: Fs, owner: map<nat, SlotId>, freeblock: nat, fs0: Fs,
                        o0: map<nat, SlotId>, i: nat, k: nat, r: nat) {
    forall u {:trigger Open(u)} :: Open(u) ==>
      && Laid(sb, blocks, fs.blocks, freeblock) && Owned(sb, fs, owner, {}) && r != 0 && Grown(fs0, fs, o0, owner, i)
      && SlotsBut(sb, fs0, fs, i, k, r) && i < |fs.inodes| && |fs.inodes[i].addrs| == NDIRECT + 1
      && k < NSLOTS && Slot(fs, i, k) == r
  }

  /** An image and its ownership; folded. */
  ghost predicate Fine(sb: Super, blocks: Disk, fs: Fs, owner: map<nat, SlotId>, freeblock: nat) {
    forall u {:trigger Open(u)} :: Open(u) ==> Laid(sb, blocks, fs.blocks, freeblock) && Owned(sb, fs, owner, {})
  }

  /** ind is the indirect block of file i. */
  predicate Indirect(sb: Super, inodes: seq<Inode>, i: nat, ind: nat) {
    i < sb.ninodes && i < |inodes| && |inodes[i].addrs| == NDIRECT + 1 && ind == inodes[i].addrs[INDIRECT] && ind != 0
  }

  lemma EntryWord(sb: Super, blocks: Disk, fs: Fs, owner: map<nat, SlotId>, freeblock: nat, i: nat, e: nat, k: nat,
                  ind: nat)
    requires
      && Fine(sb, blocks, fs, owner, freeblock) && Indirect(sb, fs.inodes, i, ind) && e < NINDIRECT
      && k == INDIRECT + 1 + e
    ensures ind < |blocks| == sb.size && freeblock <= sb.size
    ensures Word(blocks[ind], e) != 0 ==> Taken(sb, blocks, fs, owner, freeblock, fs, owner, i, k, Word(blocks[ind], e))
  {
    assert Open(0);
    BelowFree(sb, blocks, fs.blocks, freeblock, fs.inodes, owner, i, INDIRECT);
    assert Word(blocks[ind], e) == Slot(fs, i, k);
  }

  lemma EntryTaken(sb: Super, blocks: Disk, marked: Disk, inodes: seq<Inode>, owner: map<nat, SlotId>, i: nat, e: nat,
                   k: nat, r: nat, ind: nat, blocks': Disk, next: nat)
    returns (marked': Disk, owner': map<nat, SlotId>)
    requires Fine(sb, blocks, Fs(marked, inodes), owner, r) && Indirect(sb, inodes, i, ind)
    requires
      && e < NINDIRECT && k == INDIRECT + 1 + e && ind < |blocks| == sb.size && r < sb.size && Word(blocks[ind], e) == 0
    requires next == r + 1 && blocks' == blocks[ind := SetWord(blocks[ind], e, r)]
    ensures Taken(sb, blocks', Fs(marked', inodes), owner', next, Fs(marked, inodes), owner, i, k, r)
  {
    assert Open(0);
    InMap(sb, r);
    var fs := Fs(marked, inodes);
    BelowFree(sb, blocks, marked, r, inodes, owner, i, INDIRECT);
    assert Word(blocks[ind], e) == Slot(fs, i, k);
    var fs' := SetEntry(fs.(blocks := Allocated(sb, fs.blocks, r)), ind, e, r);
    owner' := owner[r := SlotId(i, k)];
    marked' := fs'.blocks;
    EntryLaid(sb, blocks, fs, owner, i, e, k, r, ind, blocks', fs', owner', next);
  }

  class Image {
    const sb: Super
    var blocks: Disk
    var inodes: seq<Inode>
    var freeblock: nat
    var freeinode: nat
    ghost var marked: Disk
    ghost var owner: map<nat, SlotId>

    /** A zeroed image with its super block; every inode is free. */
    constructor (size: nat, nlog: nat, ninodes: nat, super: Block)
      requires 0 < size <= UINT && Layout(size, nlog, ninodes).nmeta <= size && 2 <= ninodes
      ensures Valid() && sb == Layout(size, nlog, ninodes) && freeinode == 1 && freeblock == sb.nmeta && owner == map[]
      ensures |inodes| == ninodes && forall i :: 0 <= i < ninodes ==> inodes[i] == NoInode()
    {
      LayoutOk(size, nlog, ninodes);
      sb := Layout(size, nlog, ninodes);
      var zeros := seq(size, _ => ZeroBlock());
      blocks := zeros[1 := super];
      inodes := seq(ninodes, _ => NoInode());
      freeblock := Layout(size, nlog, ninodes).nmeta;
      freeinode := 1;
      owner := map[];
      marked := Marked(Layout(size, nlog, ninodes), zeros[1 := super], Layout(size, nlog, ninodes).nmeta);
      new;
      MarkedMeta(sb, blocks);
      LaidAtFirst(sb, blocks, marked);
      OwnedAtFirst(sb, View());
    }

    ghost function View(): Fs
      reads this
    {
      Fs(marked, inodes)
    }

    ghost predicate Valid()
      reads this
    {
      Owned(sb, View(), owner, {}) && Laid(sb, blocks, marked, freeblock)
    }

    /** iappend's treatment of a direct block, or of the indirect block; -1 when the
        image is full. */
    method MapAddr(i: nat, k: nat) returns (r: int)
      requires Valid() && i < sb.ninodes && k <= INDIRECT
      modifies `inodes, `freeblock, `marked, `owner
      ensures r != -1 ==> && Valid() && r == Slot(View(), i, k) && r != 0
                          && Grown(old(View()), View(), old(owner), owner, i)
                          && SlotsBut(sb, old(View()), View(), i, k, r)
      ensures r == -1 ==> freeblock == sb.size
      ensures freeblock <= old(freeblock) + 1
    {
      if inodes[i].addrs[k] == 0 {
        if freeblock == sb.size {
          return -1;
        }
        r := freeblock;
        LaidTake(sb, blocks, marked, r);
        AddrMapped(sb, View(), owner, i, k, r);
        freeblock := freeblock + 1;
        marked := Allocated(sb, marked, r);
        inodes := inodes[i := inodes[i].(addrs := inodes[i].addrs[k := r])];
        owner := owner[r := SlotId(i, k)];
      }
      r := inodes[i].addrs[k];
    }

    /** A new block for an entry of the indirect block. */
    method NewEntry(ind: nat, e: nat, ghost marked': Disk, ghost owner': map<nat, SlotId>) returns (r: nat)
      requires ind < |blocks| && e < NINDIRECT
      modifies `blocks, `freeblock, `marked, `owner
      ensures r == old(freeblock) && freeblock == r + 1 && blocks == old(blocks)[ind := SetWord(old(blocks)[ind], e, r)]
      ensures View() == Fs(marked', old(inodes)) && owner == owner'
    {
      r := freeblock;
      freeblock := freeblock + 1;
      blocks := blocks[ind := SetWord(blocks[ind], e, r)];
      marked, owner := marked', owner';
    }

    /** iappend's treatment of an entry of the indirect block. */
    method MapEntry(i: nat, ind: nat, e: nat) returns (r: int)
      requires Fine(sb, blocks, View(), owner, freeblock) && Indirect(sb, inodes, i, ind) && e < NINDIRECT
      modifies `blocks, `freeblock, `marked, `owner
      ensures r >= -1 && (r == -1 ==> freeblock == sb.size)
      ensures r != -1 ==> Holding(i, INDIRECT + 1 + e, r, old(View()), old(owner))
      ensures freeblock <= old(freeblock) + 1 && SameBut(old(blocks), blocks, ind)
    {
      ghost var k := INDIRECT + 1 + e;
      EntryWord(sb, blocks, View(), owner, freeblock, i, e, k, ind);
      r := Word(blocks[ind], e);
      if r == 0 {
        if freeblock == sb.size {
          return -1;
        }
        ghost var next, blocks' := freeblock + 1, blocks[ind := SetWord(blocks[ind], e, freeblock)];
        ghost var marked', owner' := EntryTaken(sb, blocks, marked, inodes, owner, i, e, k, freeblock, ind, blocks',
                                                next);
        r := NewEntry(ind, e, marked', owner');
      }
    }

    /** Slot k of file i holds r, and all else is as it was. */
    ghost predicate Holding(i: nat, k: nat, r: nat, fs0: Fs, o0: map<nat, SlotId>)
      reads this
    {
      Taken(sb, blocks, View(), owner, freeblock, fs0, o0, i, k, r)
    }

    /** Block fbn >= NDIRECT of file i, allocated if there is none. */
    method MapThroughIndirect(i: nat, fbn: nat) returns (r: int)
      requires Valid() && i < sb.ninodes && NDIRECT <= fbn < MAXFILE
      modifies `blocks, `inodes, `freeblock, `marked, `owner
      ensures r != -1 ==> && Valid() && r == Data(View(), i, fbn) && r != 0
                          && Grown(old(View()), View(), old(owner), owner, i)
                          && DataBut(old(View()), View(), i, fbn)
                          && SameBut(old(blocks), blocks, Slot(View(), i, INDIRECT))
      ensures r == -1 ==> freeblock == sb.size
      ensures freeblock <= old(freeblock) + 2
    {
      ghost var fs0, o0 := View(), owner;
      var ind := MapAddr(i, INDIRECT);
      if ind == -1 {
        return -1;
      }
      ghost var fs1, o1 := View(), owner;
      r := MapEntry(i, ind, fbn - NDIRECT);
      if r != -1 {
        assert Open(0);
        assert DataSlot(fbn) == INDIRECT + 1 + (fbn - NDIRECT);
        GrownTwice(fs0, fs1, View(), o0, o1, owner, i);
        SlotsButTwice(sb, fs0, fs1, View(), i, fbn, ind, r);
      }
    }

    /** Block fbn of file i, allocated if there is none. */
    method Map(i: nat, fbn: nat) returns (r: int)
      requires Valid() && i < sb.ninodes && fbn < MAXFILE
      modifies `blocks, `inodes, `freeblock, `marked, `owner
      ensures r != -1 ==> && Valid() && r == Data(View(), i, fbn) && r != 0
                          && Grown(old(View()), View(), old(owner), owner, i)
                          && DataBut(old(View()), View(), i, fbn)
                          && SameBut(old(blocks), blocks, Slot(View(), i, INDIRECT))
      ensures r == -1 ==> freeblock == sb.size
      ensures freeblock <= old(freeblock) + 2
    {
      if fbn < NDIRECT {
        r := MapAddr(i, fbn);
        if r != -1 {
          SlotsButData(sb, old(View()), View(), i, fbn, r);
        }
      } else {
        r := MapThroughIndirect(i, fbn);
      }
    }

    /** One turn of iappend's loop. */
    method AppendTurn(i: nat, off: nat, piece: seq<byte>, ghost fs0: Fs, ghost o0: map<nat, SlotId>, ghost off0: nat,
                      ghost data: seq<byte>, ghost data': seq<byte>)
      returns (ok: bool)
      requires Valid() && Written(sb, fs0, o0, View(), owner, i, off0, data) && off == off0 + |data| < MAXFILE * BSIZE
      requires off % BSIZE + |piece| <= BSIZE && data' == data + piece && i < sb.ninodes && piece != []
      requires Blank(View(), i, off)
      modifies `blocks, `inodes, `freeblock, `marked, `owner
      ensures ok ==>
          Valid() && Written(sb, fs0, o0, View(), owner, i, off0, data') && Blank(View(), i, off + |piece|)
      ensures !ok ==> freeblock == sb.size
      ensures freeblock <= old(freeblock) + 2
    {
      ghost var fs1, o1, blocks1, free1 := View(), owner, blocks, freeblock;
      var x := Map(i, off / BSIZE);
      ok := x != -1;
      if ok {
        WrittenMapped(sb, fs0, o0, fs1, o1, View(), owner, i, off0, data);
        ghost var end := off + |piece|;
        NextBlank(sb, blocks1, fs1, o1, free1, blocks, View(), owner, freeblock, i, off, x, end);
        PatchBlock(i, off, x, piece, fs0, o0, off0, data, end);
      }
    }

    method PatchBlock(i: nat, off: nat, x: nat, piece: seq<byte>, ghost fs0: Fs, ghost o0: map<nat, SlotId>,
                      ghost off0: nat, ghost data: seq<byte>, ghost end: nat)
      requires Valid() && Written(sb, fs0, o0, View(), owner, i, off0, data) && off == off0 + |data| < MAXFILE * BSIZE
      requires Blank(View(), i, end)
      requires x == Data(View(), i, off / BSIZE) && x != 0 && off % BSIZE + |piece| <= BSIZE && i < sb.ninodes
      requires end == off + |piece|
      modifies `blocks, `marked
      ensures Valid() && Written(sb, fs0, o0, View(), owner, i, off0, data + piece) && Blank(View(), i, end)
    {
      BelowFree(sb, blocks, marked, freeblock, inodes, owner, i, DataSlot(off / BSIZE));
      PatchStep(sb, fs0, o0, View(), owner, i, off0, data, piece, off, x);
      var buf := Patched(blocks[x], off % BSIZE, piece);
      LaidStore(sb, blocks, marked, freeblock, x, buf);
      PatchKeepsData(sb, View(), owner, i, off, piece, x, View().(blocks := marked[x := buf]), end);
      blocks := blocks[x := buf];
      marked := marked[x := buf];
      WrittenOwned(sb, fs0, o0, View(), owner, i, off0, data + piece);
    }

    /** iappend's loop: off is the end of file i. false: file too large, or image full. */
    method AppendLoop(i: nat, p: seq<byte>, off0: nat, ghost fs0: Fs, ghost o0: map<nat, SlotId>)
      returns (ok: bool, off: nat, ghost data: seq<byte>)
      requires Valid() && i < sb.ninodes && fs0 == View() && o0 == owner && Blank(fs0, i, off0)
      modifies `blocks, `inodes, `freeblock, `marked, `owner
      ensures ok ==> && Valid() && off == off0 + |p| && (p != [] ==> off <= MAXFILE * BSIZE) && data == p
                     && Written(sb, fs0, o0, View(), owner, i, off0, data) && Blank(View(), i, off)
      ensures !ok ==> freeblock == sb.size || off0 + |p| > MAXFILE * BSIZE
      ensures freeblock <= old(freeblock) + AppendCost(off0, |p|)
    {
      data, off := [], off0;
      var n := 0;
      ghost var f0, c: nat := freeblock, 0;
      NothingWritten(sb, fs0, o0, i, off0);
      NothingSpent(off0, |p|);
      while n < |p|
        invariant Valid() && n <= |p| && off == off0 + n && data == p[..n] && (n > 0 ==> off <= MAXFILE * BSIZE)
        invariant Written(sb, fs0, o0, View(), owner, i, off0, data) && Blank(View(), i, off)
        invariant freeblock <= f0 + c && Spent(off0, n, |p|, c)
      {
        AllSpent(off0, n, |p|, c);
        if off / BSIZE >= MAXFILE {
          return false, off, data;
        }
        var n1 := Turn(off, |p| - n);
        var n', off' := n + n1, off + n1;
        ghost var c' := c + 2;
        NextSpent(off0, n, n1, |p|, c, n', c');
        ok, data := AppendNext(i, p, off, n, n1, n', off', fs0, o0, off0);
        if !ok {
          return;
        }
        n, off, c := n', off', c';
      }
      AllSpent(off0, n, |p|, c);
      ok := true;
    }

    /** The body of iappend's loop. */
    method AppendNext(i: nat, p: seq<byte>, off: nat, n: nat, n1: nat, n': nat, off': nat, ghost fs0: Fs,
                      ghost o0: map<nat, SlotId>, ghost off0: nat)
      returns (ok: bool, ghost data: seq<byte>)
      requires Valid() && i < sb.ninodes && n < |p| && off == off0 + n < MAXFILE * BSIZE && n1 == Turn(off, |p| - n)
      requires n' == n + n1 && off' == off + n1
      requires Written(sb, fs0, o0, View(), owner, i, off0, p[..n]) && Blank(View(), i, off)
      modifies `blocks, `inodes, `freeblock, `marked, `owner
      ensures ok ==> && Valid() && data == p[..n'] && off' <= MAXFILE * BSIZE
                     && Written(sb, fs0, o0, View(), owner, i, off0, data) && Blank(View(), i, off')
      ensures !ok ==> freeblock == sb.size
      ensures freeblock <= old(freeblock) + 2
    {
      data := p[..n] + p[n..n + n1];
      ok := AppendTurn(i, off, p[n..n + n1], fs0, o0, off0, p[..n], data);
      BlockRoom(off, n1);
      Slices(p, 0, n, n + n1);
    }

    /** iappend: p is added to the end of file i. */
    method Iappend(i: nat, p: seq<byte>) returns (ok: bool)
      requires Valid() && i < sb.ninodes && NoHole(View(), i) && Blank(View(), i, inodes[i].size)
      modifies `blocks, `inodes, `freeblock, `marked, `owner
      ensures ok ==> && Valid() && NoHole(View(), i) && File(View(), i) == old(File(View(), i)) + p
                     && inodes[i] == old(inodes[i]).(size := old(inodes[i].size) + |p|, addrs := inodes[i].addrs)
                     && OthersKept(old(View()), View(), old(owner), owner, i) && Blank(View(), i, inodes[i].size)
      ensures !ok ==> freeblock == sb.size || old(inodes[i].size) + |p| > MAXFILE * BSIZE
      ensures freeblock <= old(freeblock) + AppendCost(old(inodes[i].size), |p|)
    {
      ghost var fs0, o0 := View(), owner;
      var off0 := inodes[i].size;
      ghost var data;
      var off;
      ok, off, data := AppendLoop(i, p, off0, fs0, o0);
      if ok {
        ghost var fs1 := View();
        inodes := inodes[i := inodes[i].(size := off)];
        WrittenInode(sb, fs0, o0, fs1, owner, i, off0, p);
        Appended(sb, fs0, o0, fs1, owner, i, off0, p, off, View());
      }
    }

    /** ialloc: the next inode, with no blocks. */
    method Ialloc(typ: nat) returns (inum: nat)
      requires Valid() && freeinode < sb.ninodes && inodes[freeinode].addrs == NoInode().addrs
      modifies `inodes, `freeinode
      ensures Valid() && inum == old(freeinode) && freeinode == inum + 1
      ensures inodes == old(inodes)[inum := NoInode().(typ := typ, nlink := 1)]
      ensures
        && NoHole(View(), inum) && File(View(), inum) == [] && Blank(View(), inum, 0)
        && OthersKept(old(View()), View(), owner, owner, inum)
    {
      inum := freeinode;
      Restamped(sb, View(), owner, inum, NoInode().(typ := typ, nlink := 1));
      inodes := inodes[inum := NoInode().(typ := typ, nlink := 1)];
      freeinode := freeinode + 1;
    }

    /** iappend to one of the files so far. */
    method AppendTo(i: nat, p: seq<byte>, ghost dir: seq<byte>, ghost files: seq<seq<byte>>, ghost dir': seq<byte>,
                    ghost files': seq<seq<byte>>)
      returns (ok: bool)
      requires Valid() && 1 <= i < freeinode && Holds(sb, View(), freeinode, dir, files)
      requires if i == ROOTINO then dir' == dir + p && files' == files
        else dir' == dir && files' == files[i - 2 := files[i - 2] + p]
      modifies `blocks, `inodes, `freeblock, `marked, `owner
      ensures ok ==> Valid() && Holds(sb, View(), freeinode, dir', files')
      ensures !ok ==> freeblock == sb.size || (if i == ROOTINO then |dir'| else |files'[i - 2]|) > MAXFILE * BSIZE
      ensures freeblock <= old(freeblock) + 2 * (|p| / BSIZE + 2)
    {
      ghost var fs, o := View(), owner;
      HoldsFile(sb, fs, freeinode, dir, files, i);
      CostGrows(inodes[i].size, |p|, |p|);
      ok := Iappend(i, p);
      if ok {
        HoldsUpdate(sb, fs, o, View(), owner, i, freeinode, dir, files, dir', files');
      }
    }

    /** The loop that copies the contents of one file, a block at a time. */
    method CopyIn(inum: nat, content: seq<byte>, ghost dir: seq<byte>, ghost files: seq<seq<byte>>) returns (ok: bool)
      requires Valid() && inum == |files| + 2 && freeinode == inum + 1
      requires Holds(sb, View(), freeinode, dir, files + [[]])
      modifies `blocks, `inodes, `freeblock, `marked, `owner
      ensures ok ==> Valid() && Holds(sb, View(), freeinode, dir, files + [content])
      ensures !ok ==> freeblock == sb.size || |content| > MAXFILE * BSIZE
      ensures freeblock <= old(freeblock) + CopyCost(|content|)
    {
      var n := 0;
      ghost var last, f0, c: nat := content[..0], freeblock, 0;
      ok := true;
      while n < |content|
        invariant
          && ok && Valid() && n <= |content| && last == content[..n]
          && Holds(sb, View(), freeinode, dir, files + [last])
        invariant freeblock <= f0 + c && CopySpent(n, |content|, c)
      {
        var cc := if |content| - n < BSIZE then |content| - n else BSIZE;
        var n' := n + cc;
        ghost var c' := c + 2 * (cc / BSIZE + 2);
        NextCopy(n, cc, |content|, c, n', c');
        ghost var next := content[..n'];
        ok := CopyNext(inum, content, n, cc, n', dir, files, last, next);
        if !ok {
          return;
        }
        n, last, c := n', next, c';
      }
      CopyDone(n, |content|, c);
      assert last == content;
    }

    /** One block of the contents. */
    method CopyNext(inum: nat, content: seq<byte>, n: nat, cc: nat, n': nat, ghost dir: seq<byte>,
                    ghost files: seq<seq<byte>>, ghost last: seq<byte>, ghost next: seq<byte>)
      returns (ok: bool)
      requires Valid() && inum == |files| + 2 && freeinode == inum + 1 && n' == n + cc <= |content|
      requires last == content[..n] && next == content[..n'] && Holds(sb, View(), freeinode, dir, files + [last])
      modifies `blocks, `inodes, `freeblock, `marked, `owner
      ensures ok ==> Valid() && Holds(sb, View(), freeinode, dir, files + [next])
      ensures !ok ==> freeblock == sb.size || |content| > MAXFILE * BSIZE
      ensures freeblock <= old(freeblock) + 2 * (cc / BSIZE + 2)
    {
      Slices(content, 0, n, n');
      ok := AppendTo(inum, content[n..n'], dir, files + [last], dir, files + [next]);
    }

    /** One file: an inode, an entry in the root directory, the contents. */
    method AddFile(name: seq<byte>, content: seq<byte>, ghost dir: seq<byte>, ghost files: seq<seq<byte>>)
      returns (ok: bool)
      requires Valid() && freeinode < sb.ninodes && Holds(sb, View(), freeinode, dir, files)
      modifies `blocks, `inodes, `freeinode, `freeblock, `marked, `owner
      ensures ok ==> && Valid() && freeinode == old(freeinode) + 1
                     && Holds(sb, View(), freeinode, dir + Dirent(old(freeinode), name), files + [content])
      ensures !ok ==> freeblock == sb.size || |dir| + DIRENT > MAXFILE * BSIZE || |content| > MAXFILE * BSIZE
      ensures freeblock <= old(freeblock) + 4 + CopyCost(|content|)
    {
      ghost var fs0 := View();
      var inum := Ialloc(T_FILE);
      HoldsNew(sb, fs0, owner, View(), inum, dir, files);
      ghost var dir1 := dir + Dirent(inum, name);
      ok := AppendTo(ROOTINO, Dirent(inum, name), dir, files + [[]], dir1, files + [[]]);
      if ok {
        ok := CopyIn(inum, content, dir1, files);
      }
    }

    /** The root directory with its entries for itself. */
    method MakeRoot() returns (ok: bool)
      requires Valid() && freeinode == ROOTINO && sb.ninodes >= 2
      requires forall i :: 0 <= i < |inodes| ==> inodes[i] == NoInode()
      modifies `blocks, `inodes, `freeinode, `freeblock, `marked, `owner
      ensures ok ==> Valid() && freeinode == 2 && Holds(sb, View(), 2, Entries([]), [])
      ensures !ok ==> freeblock == sb.size
      ensures freeblock <= old(freeblock) + 8
    {
      var root := Ialloc(T_DIR);
      HoldsRoot(sb, View());
      ok := AppendTo(root, Dirent(root, DOT), [], [], Dirent(root, DOT), []);
      if ok {
        ok := AppendTo(root, Dirent(root, DOTDOT), Dirent(root, DOT), [], Entries([]), []);
      }
    }

    /** The end of mkfs: the root directory's size is rounded, the bitmap is written.
        false is balloc's assertion that one bitmap block is enough. */
    method Finish(ghost dir: seq<byte>, ghost files: seq<seq<byte>>) returns (ok: bool)
      requires Valid() && Holds(sb, View(), freeinode, dir, files)
      modifies `blocks, `inodes
      ensures ok ==> Built(sb, Fs(blocks, inodes), owner, dir, files)
      ensures !ok <==> freeblock >= BPB
    {
      ghost var fs0 := View();
      HoldsFile(sb, fs0, freeinode, dir, files, ROOTINO);
      var din := inodes[ROOTINO].(size := RootSize(inodes[ROOTINO].size));
      inodes := inodes[ROOTINO := din];
      Restamped(sb, fs0, owner, ROOTINO, din);
      ok := freeblock < BPB;
      if ok {
        Balloc();
        Finished(sb, fs0, owner, freeinode, dir, files, View(), Fs(blocks, inodes));
      }
    }

    /** mkfs: an image with the named files. false: the image or its one bitmap block is full, or
        a file is too large. */
    method Populate(names: seq<seq<byte>>, files: seq<seq<byte>>) returns (ok: bool)
      requires Valid() && freeinode == ROOTINO && |names| == |files| && |files| + 2 <= sb.ninodes
      requires forall i :: 0 <= i < |inodes| ==> inodes[i] == NoInode()
      modifies `blocks, `inodes, `freeinode, `freeblock, `marked, `owner
      ensures ok ==> Built(sb, Fs(blocks, inodes), owner, Entries(names), files)
      ensures !ok ==> freeblock == sb.size || freeblock >= BPB || Oversized(names, files)
      ensures freeblock <= old(freeblock) + ImageCost(files)
    {
      ghost var f0, c: nat := freeblock, 8;
      FirstFile(files);
      ok := MakeRoot();
      if !ok {
        return;
      }
      assert names[..0] == [] && files[..0] == [];
      var k := 0;
      while k < |files|
        invariant 0 <= k <= |files| && UpTo(names, files, k)
        invariant freeblock <= f0 + c && ImageSpent(files, k, c)
      {
        var k' := k + 1;
        ghost var c' := c + 4 + CopyCost(|files[k]|);
        NextFile(files, k, c, k', c');
        ok := AddNext(names, files, k, k');
        if !ok {
          return;
        }
        k, c := k', c';
      }
      assert names[..k] == names && files[..k] == files;
      ImageDone(files, k, c);
      ok := Finish(Entries(names), files);
    }

    /** The image with the first k files. */
    ghost predicate UpTo(names: seq<seq<byte>>, files: seq<seq<byte>>, k: nat)
      reads this
    {
      && k <= |files| == |names| && Valid() && freeinode == k + 2
      && Holds(sb, View(), freeinode, Entries(names[..k]), files[..k])
    }

    /** The file after the first k. */
    method AddNext(names: seq<seq<byte>>, files: seq<seq<byte>>, k: nat, k': nat) returns (ok: bool)
      requires UpTo(names, files, k) && k' == k + 1 <= |files| && |files| + 2 <= sb.ninodes
      modifies `blocks, `inodes, `freeinode, `freeblock, `marked, `owner
      ensures ok ==> UpTo(names, files, k')
      ensures !ok ==> freeblock == sb.size || Oversized(names, files)
      ensures freeblock <= old(freeblock) + 4 + CopyCost(|files[k]|)
    {
      ok := AddFile(names[k], files[k], Entries(names[..k]), files[..k]);
      NextEntry(names, files, k);
    }

    /** balloc: the bitmap marks the first freeblock blocks. */
    method Balloc()
      requires Valid() && freeblock < BPB
      modifies `blocks
      ensures Owned(sb, Fs(blocks, inodes), owner, {})
      ensures |blocks| == sb.size && forall b :: sb.nmeta <= b < sb.size ==> blocks[b] == marked[b]
    {
      var buf := ZeroBlock();
      ZeroBits(buf);
      var i := 0;
      while i < freeblock
        invariant 0 <= i <= freeblock && forall k: nat :: k < BPB ==> Bit(buf, k) == (k < i)
      {
        buf := SetBit(buf, i, true);
        i := i + 1;
      }
      BitmapWritten(sb, blocks, marked, freeblock, inodes, owner, buf, blocks[sb.bmapstart := buf]);
      blocks := blocks[sb.bmapstart := buf];
    }
  }

  lemma Appended(sb: Super, fs0: Fs, o0: map<nat, SlotId>, fs: Fs, o: map<nat, SlotId>, i: nat, off0: nat, p: seq<byte>,
                 end: nat, fs': Fs)
    requires Written(sb, fs0, o0, fs, o, i, off0, p) && NoHole(fs0, i) && off0 == fs0.inodes[i].size
    requires end == off0 + |p| && (p != [] ==> end <= MAXFILE * BSIZE) && Blank(fs, i, end)
    requires fs.inodes[i] == fs0.inodes[i].(addrs := fs.inodes[i].addrs)
    requires fs' == fs.(inodes := fs.inodes[i := fs.inodes[i].(size := end)])
    ensures
      && Owned(sb, fs', o, {}) && NoHole(fs', i) && OthersKept(fs0, fs', o0, o, i) && File(fs', i) == File(fs0, i) + p
    ensures Blank(fs', i, fs'.inodes[i].size)
  {
    GrownEnd(fs, i, end, fs');
    SameBlank(fs, fs', i, end);
    WrittenFile(sb, fs0, o0, fs, o, i, off0, p, end, fs');
    AtEnd(File(fs0, i), p);
  }

  lemma GrownEnd(fs: Fs, i: nat, end: nat, fs': Fs)
    requires
      && i < |fs.inodes| && end >= fs.inodes[i].size && fs' == fs.(inodes := fs.inodes[i := fs.inodes[i].(size := end)])
    ensures fs' == Resized(fs, i, end)
  {
    assert end == fs.inodes[i].size ==> fs'.inodes == fs.inodes;
  }

  lemma AtEnd(f: seq<byte>, p: seq<byte>)
    ensures Overlay(f, |f|, p) == f + p
  {
  }

  lemma ZeroBits(buf: Block)
    requires buf == ZeroBlock()
    ensures forall k: nat :: k < BPB ==> !Bit(buf, k)
  {
    forall k: nat | k < BPB
      ensures !Bit(buf, k)
    {
      NoBits(k % 8);
    }
  }

  lemma {:induction false} NoBits(i: nat)
    ensures !BitOf(0, i)
  {
    if i > 0 {
      NoBits(i - 1);
    }
  }

  /** The written bitmap is the one the invariant promised. */
  lemma BitmapWritten(sb: Super, blocks: Disk, marked: Disk, freeblock: nat, inodes: seq<Inode>,
                      owner: map<nat, SlotId>, buf: Block, blocks': Disk)
    requires Laid(sb, blocks, marked, freeblock) && Owned(sb, Fs(marked, inodes), owner, {}) && freeblock < BPB
    requires (forall k: nat :: k < BPB ==> Bit(buf, k) == (k < freeblock)) && sb.bmapstart < sb.nmeta
    requires blocks' == blocks[sb.bmapstart := buf]
    ensures Owned(sb, Fs(blocks', inodes), owner, {})
  {
    SameData(sb, Fs(marked, inodes), owner, blocks');
    forall b | 0 <= b < sb.size
      ensures sb.Bblock(b) < sb.nmeta && Used(sb, blocks', b) == Used(sb, marked, b)
    {
      BitWritten(sb, blocks, marked, freeblock, buf, blocks', b);
    }
  }

  lemma BitWritten(sb: Super, blocks: Disk, marked: Disk, freeblock: nat, buf: Block, blocks': Disk, b: nat)
    requires Laid(sb, blocks, marked, freeblock) && freeblock < BPB && b < sb.size
    requires (forall k: nat :: k < BPB ==> Bit(buf, k) == (k < freeblock)) && sb.bmapstart < sb.nmeta
    requires blocks' == blocks[sb.bmapstart := buf]
    ensures sb.Bblock(b) < sb.nmeta && Used(sb, blocks', b) == Used(sb, marked, b)
  {
    InMap(sb, b);
    ZeroBits(ZeroBlock());
    assert Used(sb, marked, b) == (b < freeblock);
    if b >= BPB {
      assert sb.Bblock(b) > sb.bmapstart;
      assert blocks'[sb.Bblock(b)] == ZeroBlock();
    } else {
      assert sb.Bblock(b) == sb.bmapstart && b % BPB == b;
    }
  }

  /** Slots depend on data blocks alone. */
  lemma SameData(sb: Super, fs: Fs, owner: map<nat, SlotId>, blocks': Disk)
    requires
      && Owned(sb, fs, owner, {}) && |blocks'| == sb.size
      && forall b :: sb.nmeta <= b < sb.size ==> blocks'[b] == fs.blocks[b]
    ensures forall i, k :: 0 <= i < sb.ninodes && 0 <= k < NSLOTS ==>
      Slot(fs.(blocks := blocks'), i, k) == Slot(fs, i, k)
  {
    var fs' := fs.(blocks := blocks');
    forall i, k | 0 <= i < sb.ninodes && 0 <= k < NSLOTS
      ensures Slot(fs', i, k) == Slot(fs, i, k)
    {
      assert fs.inodes[i].addrs[INDIRECT] == Slot(fs, i, INDIRECT);
      SameSlots(sb, fs, fs', i);
    }
  }

  /** No block at or past off is mapped, and the bytes past off of the block with off are 0. */
  ghost predicate Blank(fs: Fs, i: nat, off: nat) {
    && i < |fs.inodes| && |fs.inodes[i].addrs| == NDIRECT + 1
    && (forall n :: 0 <= n < MAXFILE && n * BSIZE >= off ==> Data(fs, i, n) == 0)
    && forall p :: off <= p < MAXFILE * BSIZE && Data(fs, i, p / BSIZE) != 0 ==> ByteAt(fs, i, p) == 0
  }

  /** The data blocks of file i are as they were. */
  ghost predicate SameBlocks(fs: Fs, fs': Fs, i: nat) {
    && i < |fs.inodes| && |fs.inodes[i].addrs| == NDIRECT + 1 && |fs'.blocks| == |fs.blocks|
    && forall n :: 0 <= n < MAXFILE && 0 != Data(fs, i, n) < |fs.blocks| ==>
         fs'.blocks[Data(fs, i, n)] == fs.blocks[Data(fs, i, n)]
  }

  /** A block that was mapped is as it was, and a new one is zero. */
  lemma MappedBlank(sb: Super, blocks: Disk, fs: Fs, o: map<nat, SlotId>, free: nat, blocks': Disk, fs': Fs,
                    o': map<nat, SlotId>, i: nat, n: nat, x: nat)
    requires Laid(sb, blocks, fs.blocks, free) && Owned(sb, fs, o, {}) && Owned(sb, fs', o', {})
    requires |blocks'| == sb.size && (forall b :: sb.nmeta <= b < sb.size ==> fs'.blocks[b] == blocks'[b])
    requires Grown(fs, fs', o, o', i) && i < sb.ninodes && n < MAXFILE && x == Data(fs', i, n) != 0
    requires SameBut(blocks, blocks', Slot(fs', i, INDIRECT))
    ensures SameBlocks(fs, fs', i)
    ensures x < sb.size && (Data(fs, i, n) == 0 ==> fs'.blocks[x] == ZeroBlock())
  {
    forall m | 0 <= m < MAXFILE && 0 != Data(fs, i, m) < |fs.blocks|
      ensures fs'.blocks[Data(fs, i, m)] == fs.blocks[Data(fs, i, m)]
    {
      assert o[Data(fs, i, m)] == SlotId(i, DataSlot(m));
    }
    assert x in o' && o'[x] == SlotId(i, DataSlot(n));
    if Data(fs, i, n) == 0 {
      assert x !in o;
      InMap(sb, x);
      assert !Used(sb, fs.blocks, x);
      assert x != Slot(fs', i, INDIRECT);
    }
  }

  lemma StillBlank(fs: Fs, fs': Fs, i: nat, off: nat, m: nat)
    requires Blank(fs, i, off) && DataBut(fs, fs', i, off / BSIZE) && m > 0 && SameBlocks(fs, fs', i)
    requires off / BSIZE < MAXFILE && Data(fs', i, off / BSIZE) < |fs'.blocks|
    requires if Data(fs, i, off / BSIZE) == 0 then fs'.blocks[Data(fs', i, off / BSIZE)] == ZeroBlock()
      else Data(fs', i, off / BSIZE) == Data(fs, i, off / BSIZE)
    ensures Blank(fs', i, off + m)
  {
    forall p | off + m <= p < MAXFILE * BSIZE && Data(fs', i, p / BSIZE) != 0
      ensures ByteAt(fs', i, p) == 0
    {
      assert p / BSIZE >= off / BSIZE;
      if Data(fs, i, p / BSIZE) != 0 {
        assert ByteAt(fs, i, p) == 0;
      }
    }
  }

  lemma NextBlank(sb: Super, blocks: Disk, fs: Fs, o: map<nat, SlotId>, free: nat, blocks': Disk, fs': Fs,
                  o': map<nat, SlotId>, free': nat, i: nat, off: nat, x: nat, end: nat)
    requires Laid(sb, blocks, fs.blocks, free) && Owned(sb, fs, o, {}) && Owned(sb, fs', o', {})
    requires Laid(sb, blocks', fs'.blocks, free') && Grown(fs, fs', o, o', i) && i < sb.ninodes
    requires SameBut(blocks, blocks', Slot(fs', i, INDIRECT)) && off < MAXFILE * BSIZE
    requires x == Data(fs', i, off / BSIZE) != 0
    requires Blank(fs, i, off) && DataBut(fs, fs', i, off / BSIZE) && off < end
    ensures Blank(fs', i, end)
  {
    MappedBlank(sb, blocks, fs, o, free, blocks', fs', o', i, off / BSIZE, x);
    if Data(fs, i, off / BSIZE) != 0 {
      GrownSlot(sb, fs, fs', o, o', i, i, DataSlot(off / BSIZE));
    }
    StillBlank(fs, fs', i, off, end - off);
  }

  lemma SameBlank(fs: Fs, fs': Fs, i: nat, off: nat)
    requires Blank(fs, i, off) && i < |fs'.inodes| && |fs'.inodes[i].addrs| == NDIRECT + 1 && SameBlocks(fs, fs', i)
    requires forall k :: 0 <= k < NSLOTS ==> Slot(fs', i, k) == Slot(fs, i, k)
    ensures Blank(fs', i, off)
  {
    forall n | 0 <= n < MAXFILE
      ensures Data(fs', i, n) == Data(fs, i, n)
    {
    }
    forall p | off <= p < MAXFILE * BSIZE && Data(fs', i, p / BSIZE) != 0
      ensures ByteAt(fs', i, p) == 0
    {
      assert ByteAt(fs, i, p) == 0;
    }
  }

  lemma PatchKeepsData(sb: Super, fs: Fs, o: map<nat, SlotId>, i: nat, off: nat, piece: seq<byte>, b: nat, fs': Fs,
                       end: nat)
    requires Owned(sb, fs, o, {}) && i < sb.ninodes && off < MAXFILE * BSIZE && off % BSIZE + |piece| <= BSIZE
    requires b == Data(fs, i, off / BSIZE) != 0 && b < sb.size && end == off + |piece| && Blank(fs, i, end)
    requires fs' == fs.(blocks := fs.blocks[b := Patched(fs.blocks[b], off % BSIZE, piece)])
    ensures Blank(fs', i, end)
  {
    forall n | 0 <= n < MAXFILE
      ensures Data(fs', i, n) == Data(fs, i, n)
    {
      PatchedByte(sb, fs, o, i, off, piece, b, fs', n * BSIZE);
    }
    forall p | end <= p < MAXFILE * BSIZE && Data(fs', i, p / BSIZE) != 0
      ensures ByteAt(fs', i, p) == 0
    {
      PatchedByte(sb, fs, o, i, off, piece, b, fs', p);
      assert ByteAt(fs, i, p) == 0;
    }
  }

  /** The size that mkfs gives the root directory: the first block boundary past size. */
  function RootSize(size: nat): nat { (size / BSIZE + 1) * BSIZE }

  /** Rounding a size up like this leaves a hole exactly when it was a multiple of the
      block size. */
  lemma RoundedUp(fs: Fs, i: nat, fs': Fs)
    requires NoHole(fs, i) && Blank(fs, i, fs.inodes[i].size)
    requires fs' == fs.(inodes := fs.inodes[i := fs.inodes[i].(size := RootSize(fs.inodes[i].size))])
    ensures NoHole(fs', i) <==> fs.inodes[i].size % BSIZE != 0
  {
    var size, m := fs.inodes[i].size, fs.inodes[i].size / BSIZE;
    if size % BSIZE == 0 {
      if m < MAXFILE {
        assert Data(fs', i, m) == Data(fs, i, m) == 0;
        assert m * BSIZE < RootSize(size);
      }
    } else {
      forall n | 0 <= n < MAXFILE && n * BSIZE < RootSize(size)
        ensures Data(fs', i, n) != 0
      {
        assert n * BSIZE < size;
        assert Data(fs', i, n) == Data(fs, i, n);
      }
    }
  }

  /** A directory entry: the inode number and the name, cut or padded to DIRSIZ. */
  function Dirent(inum: nat, name: seq<byte>): (d: seq<byte>)
    ensures |d| == DIRENT
  {
    [inum % 256, inum / 256 % 256] + (if |name| >= DIRSIZ then name[..DIRSIZ] else name + seq(DIRSIZ - |name|, _ => 0))
  }

  const DOT: seq<byte> := [46]
  const DOTDOT: seq<byte> := [46, 46]

  /** The root directory of an image with these files; they get inodes 2, 3, ... */
  function Entries(names: seq<seq<byte>>): (d: seq<byte>)
    ensures |d| == (2 + |names|) * DIRENT
  {
    if names == [] then Dirent(ROOTINO, DOT) + Dirent(ROOTINO, DOTDOT)
    else Entries(names[..|names| - 1]) + Dirent(|names| + 1, names[|names| - 1])
  }

  /** The most blocks that an append of n bytes at off takes, that the contents of a file take,
      and that an image with these files takes. */
  function AppendCost(off: nat, n: nat): nat {
    if n == 0 then 0 else 2 * BlockCount(off, n)
  }

  function CopyCost(n: nat): nat {
    6 * ((n + BSIZE - 1) / BSIZE)
  }

  function ImageCost(files: seq<seq<byte>>): nat {
    if files == [] then 8 else ImageCost(files[..|files| - 1]) + 4 + CopyCost(|files[|files| - 1]|)
  }

  /** c blocks are enough for the first n bytes of an append at off, after which it is done or
      at the end of a block; folded. */
  ghost predicate Spent(off: nat, n: nat, len: nat, c: nat) {
    forall u {:trigger Open(u)} :: Open(u) ==>
      n <= len && c <= AppendCost(off, n) && (0 < n < len ==> (off + n) % BSIZE == 0)
  }

  lemma NothingSpent(off: nat, len: nat)
    ensures Spent(off, 0, len, 0)
  {
  }

  lemma NextSpent(off: nat, n: nat, n1: nat, len: nat, c: nat, n': nat, c': nat)
    requires Spent(off, n, len, c) && n < len && n1 == Turn(off + n, len - n) && n' == n + n1 && c' == c + 2
    ensures n < n' <= len && Spent(off, n', len, c') && c' <= AppendCost(off, len)
  {
    assert Open(0);
    CostGrows(off, n', len);
  }

  lemma AllSpent(off: nat, n: nat, len: nat, c: nat)
    requires Spent(off, n, len, c)
    ensures c <= AppendCost(off, len)
  {
    assert Open(0);
    CostGrows(off, n, len);
  }

  lemma CostGrows(off: nat, n: nat, n': nat)
    requires n <= n'
    ensures AppendCost(off, n) <= AppendCost(off, n') <= 2 * (n' / BSIZE + 2)
  {
  }

  /** c blocks are enough for the first n bytes of a file; folded. */
  ghost predicate CopySpent(n: nat, len: nat, c: nat) {
    forall u {:trigger Open(u)} :: Open(u) ==>
      n <= len && c <= CopyCost(n) && CopyCost(n) <= CopyCost(len) && (n < len ==> n % BSIZE == 0)
  }

  lemma NextCopy(n: nat, cc: nat, len: nat, c: nat, n': nat, c': nat)
    requires CopySpent(n, len, c) && n < len && cc == (if len - n < BSIZE then len - n else BSIZE) && n' == n + cc
    requires c' == c + 2 * (cc / BSIZE + 2)
    ensures CopySpent(n', len, c') && c' <= CopyCost(len)
  {
    assert Open(0);
    var q := n / BSIZE;
    assert n == BSIZE * q && CopyCost(n) == 6 * q;
    assert CopyCost(n') == 6 * (q + 1);
    assert (len + BSIZE - 1) / BSIZE >= q + 1;
  }

  lemma CopyDone(n: nat, len: nat, c: nat)
    requires CopySpent(n, len, c)
    ensures c <= CopyCost(len)
  {
    assert Open(0);
  }

  /** The cost of one more file, and of all. */
  lemma CostOneMore(files: seq<seq<byte>>, k: nat)
    requires k < |files|
    ensures ImageCost(files[..k + 1]) == ImageCost(files[..k]) + 4 + CopyCost(|files[k]|)
    ensures ImageCost(files[..k + 1]) <= ImageCost(files)
    decreases |files| - k
  {
    assert files[..k + 1][..k] == files[..k];
    if k + 1 < |files| {
      CostOneMore(files, k + 1);
    } else {
      assert files[..k + 1] == files;
    }
  }

  /** c blocks are enough for the root directory and the first k files; folded. */
  ghost predicate ImageSpent(files: seq<seq<byte>>, k: nat, c: nat) {
    forall u {:trigger Open(u)} :: Open(u) ==> k <= |files| && c == ImageCost(files[..k]) && c <= ImageCost(files)
  }

  lemma {:induction false} FirstFile(files: seq<seq<byte>>)
    ensures ImageSpent(files, 0, 8) && ImageCost(files) >= 8
  {
    assert files[..0] == [];
    if files != [] {
      FirstFile(files[..|files| - 1]);
    }
  }

  lemma NextFile(files: seq<seq<byte>>, k: nat, c: nat, k': nat, c': nat)
    requires ImageSpent(files, k, c) && k < |files| && k' == k + 1 && c' == c + 4 + CopyCost(|files[k]|)
    ensures ImageSpent(files, k', c') && c' <= ImageCost(files)
  {
    assert Open(0);
    CostOneMore(files, k);
  }

  lemma ImageDone(files: seq<seq<byte>>, k: nat, c: nat)
    requires ImageSpent(files, k, c)
    ensures c <= ImageCost(files)
  {
    assert Open(0);
  }

  /** A file, or the root directory, does not fit into an inode. */
  ghost predicate Oversized(names: seq<seq<byte>>, files: seq<seq<byte>>) {
    || (2 + |names|) * DIRENT > MAXFILE * BSIZE
    || exists k :: 0 <= k < |files| && |files[k]| > MAXFILE * BSIZE
  }

  /** Exactly the blocks below its size are mapped. */
  ghost predicate Tidy(fs: Fs, i: nat) {
    NoHole(fs, i) && Blank(fs, i, fs.inodes[i].size)
  }

  /** Inode 1 is a directory, those after it are files, up to m, and all have one link. */
  ghost predicate Kinds(fs: Fs, m: nat) {
    && 2 <= m <= |fs.inodes| && fs.inodes[ROOTINO].typ == T_DIR && fs.inodes[ROOTINO].nlink == 1
    && fs.inodes[0] == NoInode() && (forall i :: m <= i < |fs.inodes| ==> fs.inodes[i] == NoInode())
    && forall i :: 2 <= i < m ==> fs.inodes[i].typ == T_FILE && fs.inodes[i].nlink == 1
  }

  /** The files so far: the root directory is dir, then come files, and the inodes
      from m on are free. */
  ghost predicate Holds(sb: Super, fs: Fs, m: nat, dir: seq<byte>, files: seq<seq<byte>>) {
    && |files| + 2 == m <= sb.ninodes == |fs.inodes|
    && (forall i :: 0 <= i < sb.ninodes ==> Tidy(fs, i))
    && Tidy(fs, ROOTINO) && File(fs, ROOTINO) == dir
    && (forall i :: 2 <= i < m ==> Tidy(fs, i) && File(fs, i) == files[i - 2])
    && Kinds(fs, m)
  }

  lemma HoldsFile(sb: Super, fs: Fs, m: nat, dir: seq<byte>, files: seq<seq<byte>>, i: nat)
    requires Holds(sb, fs, m, dir, files) && 1 <= i < m
    ensures i < sb.ninodes && NoHole(fs, i) && Blank(fs, i, fs.inodes[i].size)
    ensures File(fs, i) == if i == ROOTINO then dir else files[i - 2]
  {
    assert Tidy(fs, i);
  }

  lemma OtherTidy(sb: Super, fs: Fs, o: map<nat, SlotId>, fs': Fs, o': map<nat, SlotId>, i: nat, j: nat)
    requires Owned(sb, fs, o, {}) && Owned(sb, fs', o', {}) && OthersKept(fs, fs', o, o', i)
    requires j < sb.ninodes && j != i && Tidy(fs, j)
    ensures Tidy(fs', j) && File(fs', j) == File(fs, j)
  {
    OtherFile(sb, fs, fs', o, o', i, j);
    forall k | 0 <= k < NSLOTS
      ensures Slot(fs', j, k) == Slot(fs, j, k)
    {
      OtherSlot(sb, fs, fs', o, o', i, j, k);
    }
    SameBlank(fs, fs', j, fs.inodes[j].size);
  }

  /** One file changes. */
  lemma HoldsUpdate(sb: Super, fs: Fs, o: map<nat, SlotId>, fs': Fs, o': map<nat, SlotId>, i: nat, m: nat,
                    dir: seq<byte>, files: seq<seq<byte>>, dir': seq<byte>, files': seq<seq<byte>>)
    requires
      && Holds(sb, fs, m, dir, files) && Owned(sb, fs, o, {}) && Owned(sb, fs', o', {}) && OthersKept(fs, fs', o, o', i)
    requires 1 <= i < m && Tidy(fs', i)
    requires fs'.inodes[i].typ == fs.inodes[i].typ && fs'.inodes[i].nlink == fs.inodes[i].nlink
    requires if i == ROOTINO then dir' == File(fs', i) && files' == files
      else dir' == dir && files' == files[i - 2 := File(fs', i)]
    ensures Holds(sb, fs', m, dir', files')
  {
    forall j | 0 <= j < sb.ninodes && j != i
      ensures Tidy(fs', j) && Tidy(fs, j) && File(fs', j) == File(fs, j)
    {
      assert Tidy(fs, j);
      OtherTidy(sb, fs, o, fs', o', i, j);
    }
  }

  /** A new inode has an empty file. */
  lemma HoldsNew(sb: Super, fs: Fs, o: map<nat, SlotId>, fs': Fs, m: nat, dir: seq<byte>, files: seq<seq<byte>>)
    requires
      && Holds(sb, fs, m, dir, files) && Owned(sb, fs, o, {}) && Owned(sb, fs', o, {}) && OthersKept(fs, fs', o, o, m)
    requires m < sb.ninodes && Tidy(fs', m) && File(fs', m) == []
    requires fs'.inodes[m].typ == T_FILE && fs'.inodes[m].nlink == 1
    ensures Holds(sb, fs', m + 1, dir, files + [[]])
  {
    forall j | 0 <= j < sb.ninodes && j != m
      ensures Tidy(fs', j) && Tidy(fs, j) && File(fs', j) == File(fs, j)
    {
      assert Tidy(fs, j);
      OtherTidy(sb, fs, o, fs', o, m, j);
    }
  }

  lemma HoldsRoot(sb: Super, fs: Fs)
    requires
      && |fs.inodes| == sb.ninodes >= 2 && fs.inodes[ROOTINO].addrs == NoInode().addrs && fs.inodes[ROOTINO].size == 0
      && fs.inodes[ROOTINO].typ == T_DIR && fs.inodes[ROOTINO].nlink == 1
    requires forall i :: 0 <= i < sb.ninodes && i != ROOTINO ==> fs.inodes[i] == NoInode()
    ensures Holds(sb, fs, 2, [], [])
  {
    forall i | 0 <= i < sb.ninodes
      ensures Tidy(fs, i)
    {
      assert fs.inodes[i].addrs == NoInode().addrs;
      forall n | 0 <= n < MAXFILE
        ensures Data(fs, i, n) == 0
      {
      }
    }
  }

  lemma NextEntry(names: seq<seq<byte>>, files: seq<seq<byte>>, k: nat)
    requires k < |names| == |files|
    ensures Entries(names[..k + 1]) == Entries(names[..k]) + Dirent(k + 2, names[k])
    ensures files[..k + 1] == files[..k] + [files[k]]
  {
    assert names[..k + 1][..k] == names[..k];
  }

  /** A finished image: the ownership invariant holds, every file is there, the only hole there
      can be is the root directory's, and its last block is filled up with zeros. */
  ghost predicate Built(sb: Super, fs: Fs, owner: map<nat, SlotId>, dir: seq<byte>, files: seq<seq<byte>>) {
    && Owned(sb, fs, owner, {}) && |files| + 2 <= sb.ninodes
    && (forall k :: 0 <= k < |files| ==> NoHole(fs, k + 2) && File(fs, k + 2) == files[k])
    && (NoHoles(fs) <==> |dir| % BSIZE != 0) && Kinds(fs, |files| + 2)
    && fs.inodes[ROOTINO].size == RootSize(|dir|)
    && (forall p :: |dir| <= p < RootSize(|dir|) && |dir| % BSIZE != 0 ==>
          p < MAXFILE * BSIZE && ByteAt(fs, ROOTINO, p) == 0)
    && forall p :: 0 <= p < |dir| ==> p < MAXFILE * BSIZE && ByteAt(fs, ROOTINO, p) == dir[p]
  }

  /** The data blocks make the files. */
  lemma FinalFile(sb: Super, fs: Fs, o: map<nat, SlotId>, blocks': Disk, i: nat)
    requires Owned(sb, fs, o, {}) && i < sb.ninodes && |blocks'| == sb.size
    requires forall b :: sb.nmeta <= b < sb.size ==> blocks'[b] == fs.blocks[b]
    ensures forall n :: 0 <= n < MAXFILE ==> Data(fs.(blocks := blocks'), i, n) == Data(fs, i, n)
    ensures forall p :: 0 <= p < MAXFILE * BSIZE && Data(fs, i, p / BSIZE) != 0 ==>
      ByteAt(fs.(blocks := blocks'), i, p) == ByteAt(fs, i, p)
  {
    SameData(sb, fs, o, blocks');
    forall p | 0 <= p < MAXFILE * BSIZE && Data(fs, i, p / BSIZE) != 0
      ensures ByteAt(fs.(blocks := blocks'), i, p) == ByteAt(fs, i, p)
    {
      assert Data(fs, i, p / BSIZE) in o;
    }
  }

  lemma FinalNoHole(sb: Super, fs: Fs, o: map<nat, SlotId>, blocks': Disk, i: nat)
    requires Owned(sb, fs, o, {}) && i < sb.ninodes && |blocks'| == sb.size
    requires forall b :: sb.nmeta <= b < sb.size ==> blocks'[b] == fs.blocks[b]
    ensures NoHole(fs.(blocks := blocks'), i) <==> NoHole(fs, i)
    ensures NoHole(fs, i) ==> File(fs.(blocks := blocks'), i) == File(fs, i)
  {
    FinalFile(sb, fs, o, blocks', i);
    var fs' := fs.(blocks := blocks');
    assert forall n :: 0 <= n < MAXFILE ==> (Data(fs', i, n) == 0 <==> Data(fs, i, n) == 0);
    if NoHole(fs, i) {
      forall p | 0 <= p < fs.inodes[i].size
        ensures File(fs', i)[p] == File(fs, i)[p]
      {
        MappedBelow(fs, i, p);
      }
    }
  }

  /** fs1 is fs0 with the root's size rounded; fs2 has the bitmap as well. */
  ghost predicate Finishing(sb: Super, fs0: Fs, o: map<nat, SlotId>, fs1: Fs, fs2: Fs) {
    && Owned(sb, fs0, o, {}) && Owned(sb, fs1, o, {}) && Owned(sb, fs2, o, {}) && OthersKept(fs0, fs1, o, o, ROOTINO)
    && ROOTINO < |fs0.inodes| && fs2 == fs1.(blocks := fs2.blocks)
    && fs1 == fs0.(inodes := fs0.inodes[ROOTINO := fs0.inodes[ROOTINO].(size := RootSize(fs0.inodes[ROOTINO].size))])
    && forall b :: sb.nmeta <= b < sb.size ==> fs2.blocks[b] == fs1.blocks[b]
  }

  lemma FinishedFile(sb: Super, fs0: Fs, o: map<nat, SlotId>, fs1: Fs, fs2: Fs, i: nat)
    requires Finishing(sb, fs0, o, fs1, fs2) && i < sb.ninodes && i != ROOTINO && Tidy(fs0, i)
    ensures NoHole(fs2, i) && File(fs2, i) == File(fs0, i)
  {
    OtherTidy(sb, fs0, o, fs1, o, ROOTINO, i);
    FinalNoHole(sb, fs1, o, fs2.blocks, i);
  }

  /** A mapped byte of the root directory stays what it was. */
  lemma FinishedByte(sb: Super, fs0: Fs, o: map<nat, SlotId>, fs1: Fs, fs2: Fs, p: nat)
    requires Finishing(sb, fs0, o, fs1, fs2) && p < MAXFILE * BSIZE && Data(fs0, ROOTINO, p / BSIZE) != 0
    ensures ByteAt(fs2, ROOTINO, p) == ByteAt(fs0, ROOTINO, p)
  {
    FinalFile(sb, fs1, o, fs2.blocks, ROOTINO);
    assert Data(fs1, ROOTINO, p / BSIZE) == Data(fs0, ROOTINO, p / BSIZE);
    assert ByteAt(fs2, ROOTINO, p) == ByteAt(fs1, ROOTINO, p) == ByteAt(fs0, ROOTINO, p);
  }

  lemma FinishedRoot(sb: Super, fs0: Fs, o: map<nat, SlotId>, fs1: Fs, fs2: Fs, dir: seq<byte>)
    requires Finishing(sb, fs0, o, fs1, fs2) && Tidy(fs0, ROOTINO) && dir == File(fs0, ROOTINO)
    ensures NoHole(fs2, ROOTINO) <==> |dir| % BSIZE != 0
    ensures forall p :: 0 <= p < |dir| ==> p < MAXFILE * BSIZE && ByteAt(fs2, ROOTINO, p) == dir[p]
  {
    RoundedUp(fs0, ROOTINO, fs1);
    FinalNoHole(sb, fs1, o, fs2.blocks, ROOTINO);
    forall p | 0 <= p < |dir|
      ensures p < MAXFILE * BSIZE && ByteAt(fs2, ROOTINO, p) == dir[p]
    {
      MappedBelow(fs0, ROOTINO, p);
      FinishedByte(sb, fs0, o, fs1, fs2, p);
    }
  }

  lemma FinishedEnd(sb: Super, fs0: Fs, o: map<nat, SlotId>, fs1: Fs, fs2: Fs, size: nat, p: nat)
    requires Finishing(sb, fs0, o, fs1, fs2) && Tidy(fs0, ROOTINO) && size == fs0.inodes[ROOTINO].size
    requires size <= p < RootSize(size) && size % BSIZE != 0
    ensures p < MAXFILE * BSIZE && ByteAt(fs2, ROOTINO, p) == 0
  {
    var first := p / BSIZE * BSIZE;
    assert first < size && first / BSIZE == p / BSIZE;
    MappedBelow(fs0, ROOTINO, first);
    FinishedByte(sb, fs0, o, fs1, fs2, p);
  }

  lemma Finished(sb: Super, fs0: Fs, o: map<nat, SlotId>, m: nat, dir: seq<byte>, files: seq<seq<byte>>, fs1: Fs,
                 fs2: Fs)
    requires Finishing(sb, fs0, o, fs1, fs2) && Holds(sb, fs0, m, dir, files)
    ensures Built(sb, fs2, o, dir, files)
  {
    FinishedRoot(sb, fs0, o, fs1, fs2, dir);
    forall p | |dir| <= p < RootSize(|dir|) && |dir| % BSIZE != 0
      ensures p < MAXFILE * BSIZE && ByteAt(fs2, ROOTINO, p) == 0
    {
      FinishedEnd(sb, fs0, o, fs1, fs2, |dir|, p);
    }
    forall i | 0 <= i < sb.ninodes && i != ROOTINO
      ensures NoHole(fs2, i) && (2 <= i < m ==> File(fs2, i) == files[i - 2])
    {
      assert Tidy(fs0, i);
      FinishedFile(sb, fs0, o, fs1, fs2, i);
    }
  }

  lemma {:induction false} EmptyCost(files: seq<seq<byte>>)
    requires forall k :: 0 <= k < |files| ==> files[k] == []
    ensures ImageCost(files) == 8 + 4 * |files|
  {
    if files != [] {
      EmptyCost(files[..|files| - 1]);
    }
  }

  /** The hole at an input: with the sizes that mkfs uses, an image of 62 empty files, whatever
      their names, is built, and its root directory has a hole. */
  method RootHole(names: seq<seq<byte>>, super: Block) returns (image: Image, ok: bool)
    requires |names| == 62
    ensures fresh(image) && ok && image.sb == Layout(1000, 30, 200)
    ensures Built(image.sb, Fs(image.blocks, image.inodes), image.owner, Entries(names), seq(62, _ => []))
    ensures !NoHoles(Fs(image.blocks, image.inodes))
  {
    var files: seq<seq<byte>> := seq(62, _ => []);
    image := new Image(1000, 30, 200, super);
    EmptyCost(files);
    ok := image.Populate(names, files);
  }
}
