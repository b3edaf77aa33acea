/** kernel/fs.c: block allocation, the block map of an inode, truncation, reading
    and writing. */
module FileSystem {
  import opened Blocks
  import opened Common
  import opened Inodes
  import opened Files
  import opened Truncation
  import opened Writing
  import opened Budget

  class FileSystem {
    const sb: Super
    var blocks: Disk            // block contents, as seen through the cache
    var inodes: seq<Inode>      // in-memory inodes
    var dinodes: seq<Inode>     // the on-disk inode table
    ghost var owner: map<nat, SlotId>
    ghost var logged: set<nat>  // blocks passed to log_write

    constructor (sb: Super, blocks: Disk, inodes: seq<Inode>, ghost owner: map<nat, SlotId>)
      requires Owned(sb, Fs(blocks, inodes), owner, {})
      ensures Valid() && View() == Fs(blocks, inodes) && this.sb == sb && logged == {} && dinodes == inodes
    {
      this.sb, this.blocks, this.inodes, this.dinodes, this.owner, logged := sb, blocks, inodes, inodes, owner, {};
    }

    ghost function View(): Fs
      reads this
    {
      Fs(blocks, inodes)
    }

    /** Block ownership: the bitmap marks exactly the metadata and the blocks that
        some slot holds, and no block is held twice. */
    ghost predicate Valid()
      reads this
    {
      Owned(sb, View(), owner, {})
    }

    /** balloc's inner loop: the first clear bit of the map block for b, b + 1, ...;
        BPB or the end of the disk if there is none. */
    method ScanMapBlock(b: nat) returns (bi: nat)
      requires Shaped(sb, View()) && b % BPB == 0 && b < sb.size && AllUsed(sb, blocks, b)
      ensures bi <= BPB && b + bi <= sb.size && AllUsed(sb, blocks, b + bi)
      ensures bi < BPB && b + bi < sb.size ==> sb.Bblock(b + bi) < sb.nmeta && !Used(sb, blocks, b + bi)
    {
      InMap(sb, b);
      var bp := blocks[sb.Bblock(b)];
      bi := 0;
      SameMapBlock(sb, b, bi);
      while bi < BPB && b + bi < sb.size && Bit(bp, bi)
        invariant 0 <= bi <= BPB && b + bi <= sb.size && AllUsed(sb, blocks, b + bi)
        invariant bi < BPB ==> sb.Bblock(b + bi) == sb.Bblock(b) && (b + bi) % BPB == bi
      {
        bi := bi + 1;
        if bi < BPB {
          SameMapBlock(sb, b, bi);
        }
      }
    }

    /** balloc: the first free block, marked and zeroed; -1 is the "out of blocks" panic. */
    method Balloc() returns (r: int)
      requires Shaped(sb, View())
      modifies `blocks, `logged
      ensures r == -1 ==> blocks == old(blocks) && logged == old(logged) && AllUsed(sb, old(blocks), sb.size)
      ensures r != -1 ==> && 0 <= r < sb.size && sb.Bblock(r) < sb.size
                          && !Used(sb, old(blocks), r) && AllUsed(sb, old(blocks), r)
                          && blocks == Allocated(sb, old(blocks), r)
                          && logged == old(logged) + {sb.Bblock(r), r}
    {
      var b := 0;
      while b < sb.size
        invariant b % BPB == 0 && AllUsed(sb, blocks, if b <= sb.size then b else sb.size)
        invariant blocks == old(blocks) && logged == old(logged)
        decreases sb.size - b
      {
        var bi := ScanMapBlock(b);
        if bi < BPB && b + bi < sb.size {
          SameMapBlock(sb, b, bi);
          blocks := blocks[sb.Bblock(b) := SetBit(blocks[sb.Bblock(b)], bi, true)];
          logged := logged + {sb.Bblock(b)};
          blocks := blocks[b + bi := ZeroBlock()];
          logged := logged + {b + bi};
          return b + bi;
        }
        b := b + BPB;
      }
      return -1;
    }

    /** bfree: clear the bit of b; false is the "freeing free block" panic. */
    method Bfree(b: nat) returns (ok: bool)
      requires Shaped(sb, View()) && b < sb.size
      modifies `blocks, `logged
      ensures sb.Bblock(b) < sb.size && ok == Used(sb, old(blocks), b)
      ensures !ok ==> blocks == old(blocks) && logged == old(logged)
      ensures ok ==> blocks == MarkBlock(sb, old(blocks), b, false) && logged == old(logged) + {sb.Bblock(b)}
    {
      InMap(sb, b);
      var bp := blocks[sb.Bblock(b)];
      var bi := b % BPB;
      if !Bit(bp, bi) {
        return false;
      }
      blocks := blocks[sb.Bblock(b) := SetBit(bp, bi, false)];
      logged := logged + {sb.Bblock(b)};
      return true;
    }

    /** bmap's handling of address k of inode i itself: a direct block, or the
        indirect block. */
    method MapAddr(i: nat, k: nat) returns (r: int)
      requires Valid() && i < sb.ninodes && k <= INDIRECT
      modifies `blocks, `logged, `inodes, `owner
      ensures old(Slot(View(), i, k)) != 0 ==>
                r == old(Slot(View(), i, k)) && View() == old(View()) && owner == old(owner) && logged == old(logged)
      ensures r != -1 ==> && Valid() && r == Slot(View(), i, k) && r != 0
                          && Grown(old(View()), View(), old(owner), owner, i)
                          && SlotsBut(sb, old(View()), View(), i, k, r)
      ensures r == -1 ==> View() == old(View()) && owner == old(owner) && DiskFull(sb, blocks)
      ensures r != -1 && old(Slot(View(), i, k)) == 0 ==> logged == old(logged) + {sb.Bblock(r), r}
    {
      if inodes[i].addrs[k] != 0 {
        return inodes[i].addrs[k];
      }
      ghost var fs0 := View();
      r := Balloc();
      if r != -1 {
        AddrMapped(sb, fs0, owner, i, k, r);
        inodes := inodes[i := inodes[i].(addrs := inodes[i].addrs[k := r])];
        owner := owner[r := SlotId(i, k)];
      }
    }

    /** bmap's handling of entry e of the indirect block ind of inode i. */
    method MapEntry(i: nat, ind: nat, e: nat, ghost k: nat) returns (r: int)
      requires
        && Valid() && i < sb.ninodes && e < NINDIRECT && k == INDIRECT + 1 + e && ind == Slot(View(), i, INDIRECT)
        && ind != 0
      modifies `blocks, `logged, `owner
      ensures old(Slot(View(), i, k)) != 0 ==>
                r == old(Slot(View(), i, k)) && View() == old(View()) && owner == old(owner) && logged == old(logged)
      ensures r != -1 ==> && Valid() && r == Slot(View(), i, k) && r != 0
                          && Grown(old(View()), View(), old(owner), owner, i)
                          && SlotsBut(sb, old(View()), View(), i, k, r)
      ensures r == -1 ==> View() == old(View()) && owner == old(owner) && DiskFull(sb, blocks)
      ensures r != -1 && old(Slot(View(), i, k)) == 0 ==> logged == old(logged) + {sb.Bblock(r), r, ind}
    {
      IndirectInRange(sb, View(), owner, i);
      var bp := blocks[ind];
      if Word(bp, e) != 0 {
        return Word(bp, e);
      }
      ghost var fs0 := View();
      r := Balloc();
      if r != -1 {
        EntryMapped(sb, fs0, owner, i, e, r, ind);
        ghost var fs1 := SetEntry(View(), ind, e, r);
        blocks := blocks[ind := SetWord(bp, e, r)];
        logged := logged + {ind};
        owner := owner[r := SlotId(i, INDIRECT + 1 + e)];
        assert View() == fs1;
      }
    }

    /** bmap for a block listed in the indirect block. */
    method MapThroughIndirect(i: nat, bn: nat) returns (r: int)
      requires Valid() && i < sb.ninodes && NDIRECT <= bn < MAXFILE
      modifies `blocks, `logged, `inodes, `owner
      ensures old(Data(View(), i, bn)) != 0 ==>
                r == old(Data(View(), i, bn)) && View() == old(View()) && owner == old(owner) && logged == old(logged)
      ensures r != -1 ==> && Valid() && r == Data(View(), i, bn) && r != 0
                          && Grown(old(View()), View(), old(owner), owner, i)
                          && DataBut(old(View()), View(), i, bn)
                          && LogsForMap(sb, old(View()), View(), i, bn, old(logged), logged)
      ensures r == -1 ==>
        && Valid() && Grown(old(View()), View(), old(owner), owner, i) && SameData(old(View()), View(), i)
        && DiskFull(sb, blocks)
    {
      ghost var fs0, o0, l0 := View(), owner, logged;
      assert DataSlot(bn) == INDIRECT + 1 + (bn - NDIRECT);
      assert Data(fs0, i, bn) != 0 ==> Slot(fs0, i, INDIRECT) != 0;
      var ind := MapAddr(i, INDIRECT);
      if ind == -1 {
        return -1;
      }
      NewIndirect(sb, fs0, View(), i, ind);
      r := MapBelow(i, bn, ind, fs0, o0, l0);
    }

    /** The rest of it, once the indirect block is there. */
    method MapBelow(i: nat, bn: nat, ind: nat, ghost fs0: Fs, ghost o0: map<nat, SlotId>, ghost l0: set<nat>)
      returns (r: int)
      requires Valid() && i < sb.ninodes && NDIRECT <= bn < MAXFILE && ind == Slot(View(), i, INDIRECT) && ind != 0
      requires
        && Grown(fs0, View(), o0, owner, i) && SlotsBut(sb, fs0, View(), i, INDIRECT, ind) && SameData(fs0, View(), i)
      requires logged == if Slot(fs0, i, INDIRECT) != 0 then l0 else l0 + {sb.Bblock(ind), ind}
      modifies `blocks, `logged, `owner
      ensures old(Data(View(), i, bn)) != 0 ==>
                r == old(Data(View(), i, bn)) && View() == old(View()) && owner == old(owner) && logged == old(logged)
      ensures r != -1 ==> && Valid() && r == Data(View(), i, bn) && r != 0 && Grown(fs0, View(), o0, owner, i)
                          && DataBut(fs0, View(), i, bn) && LogsForMap(sb, fs0, View(), i, bn, l0, logged)
      ensures r == -1 ==>
          Valid() && Grown(fs0, View(), o0, owner, i) && SameData(fs0, View(), i) && DiskFull(sb, blocks)
    {
      ghost var fs1, o1, l1 := View(), owner, logged;
      r := MapEntry(i, ind, bn - NDIRECT, DataSlot(bn));
      if r != -1 {
        MapTwice(sb, fs0, o0, l0, fs1, o1, l1, View(), owner, logged, i, bn, ind, r);
      }
    }

    /** bmap: the address of block bn of inode i, allocated if there is none; -1 is a
        panic, out of blocks or out of range. */
    method Bmap(i: nat, bn: nat) returns (r: int)
      requires Valid() && i < sb.ninodes
      modifies `blocks, `logged, `inodes, `owner
      ensures bn >= MAXFILE ==> r == -1
      ensures bn < MAXFILE && old(Data(View(), i, bn)) != 0 ==>
                r == old(Data(View(), i, bn)) && View() == old(View()) && owner == old(owner) && logged == old(logged)
      ensures r != -1 ==> && bn < MAXFILE && Valid() && r == Data(View(), i, bn) && r != 0
                          && Grown(old(View()), View(), old(owner), owner, i)
                          && DataBut(old(View()), View(), i, bn)
                          && LogsForMap(sb, old(View()), View(), i, bn, old(logged), logged)
      ensures r == -1 && bn < MAXFILE ==> && Valid() && Grown(old(View()), View(), old(owner), owner, i)
                                          && SameData(old(View()), View(), i) && DiskFull(sb, blocks)
    {
      if bn < NDIRECT {
        r := MapAddr(i, bn);
        if r != -1 {
          SlotsButData(sb, old(View()), View(), i, bn, r);
        }
      } else if bn - NDIRECT < NINDIRECT {
        r := MapThroughIndirect(i, bn);
      } else {
        r := -1;
      }
    }

    /** One turn of readi's loop: bmap, then copy out of the block. */
    method ReadPiece(i: nat, off: nat, end: nat, ghost f: seq<byte>) returns (piece: seq<byte>)
      requires Valid() && i < sb.ninodes && NoHole(View(), i) && f == File(View(), i)
      requires off < end <= |f| && off % BSIZE + (end - off) <= BSIZE
      modifies `blocks, `logged, `inodes, `owner
      ensures View() == old(View()) && owner == old(owner) && logged == old(logged)
      ensures piece == f[off..end]
    {
      MappedBelow(View(), i, off);
      SlotInRange(sb, View(), owner, i, DataSlot(off / BSIZE));
      var b := Bmap(i, off / BSIZE);
      var m := end - off;
      piece := blocks[b].bytes[off % BSIZE..off % BSIZE + m];
      PieceOfFile(View(), i, off, m, piece);
    }

    /** readi's loop, after n was clipped to the size. */
    method ReadLoop(i: nat, off0: nat, n: nat, room: nat, ghost f: seq<byte>) returns (tot: int, dst: seq<byte>)
      requires Valid() && i < sb.ninodes && NoHole(View(), i) && f == File(View(), i) && off0 + n <= |f|
      modifies `blocks, `logged, `inodes, `owner
      ensures View() == old(View()) && owner == old(owner) && logged == old(logged)
      ensures if n <= room then tot == n && dst == f[off0..off0 + n] else tot == -1
    {
      tot, dst := 0, [];
      var off := off0;
      while tot < n
        invariant View() == old(View()) && owner == old(owner) && logged == old(logged)
        invariant 0 <= tot <= n && tot <= room && off == off0 + tot && dst == f[off0..off]
      {
        var m := Turn(off, n - tot);
        if tot + m > room {
          return -1, dst;
        }
        var end := off + m;
        var piece := ReadPiece(i, off, end, f);
        Slices(f, off0, off, end);
        dst := dst + piece;
        tot, off := tot + m, end;
      }
    }

    /** readi: n bytes from off, clipped to the size. room is how much of the
        destination can be written; tot == -1 when that is too short. */
    method Readi(i: nat, off: nat, n: nat, room: nat) returns (tot: int, dst: seq<byte>)
      requires Valid() && i < sb.ninodes && NoHole(View(), i) && off < UINT && n < UINT
      modifies `blocks, `logged, `inodes, `owner
      ensures View() == old(View()) && owner == old(owner) && logged == old(logged)
      ensures var f := File(View(), i);
        if off > |f| || off + n >= UINT then tot == 0 && dst == []
        else var want := if off + n > |f| then f[off..] else f[off..off + n];
          if |want| <= room then tot == |want| && dst == want else tot == -1
    {
      Wraps(off, n);
      if off > inodes[i].size || (off + n) % UINT < off {
        return 0, [];
      }
      var clipped := if off + n > inodes[i].size then inodes[i].size - off else n;
      tot, dst := ReadLoop(i, off, clipped, room, File(View(), i));
    }

    /** One turn of writei's loop up to the copy: bmap. */
    method WriteMap(i: nat, off: nat, ghost fs0: Fs, ghost o0: map<nat, SlotId>, ghost off0: nat, ghost data: seq<byte>,
                    ghost l0: set<nat>, ghost first: nat, ghost t: nat)
      returns (b: int)
      requires Written(sb, fs0, o0, View(), owner, i, off0, data) && off == off0 + |data| < MAXFILE * BSIZE
      requires Logs(sb, fs0, o0, View(), owner, i, first, t, l0, logged, true) && off / BSIZE == first + t
      modifies `blocks, `logged, `inodes, `owner
      ensures b != -1 ==> && Written(sb, fs0, o0, View(), owner, i, off0, data)
                          && b == Data(View(), i, off / BSIZE) && b != 0
                          && Logs(sb, fs0, o0, View(), owner, i, first, t + 1, l0, logged + {b}, true)
      ensures b == -1 ==> Stuck(sb, fs0, o0, View(), owner, i, first, t)
    {
      WrittenOwned(sb, fs0, o0, View(), owner, i, off0, data);
      ghost var fs1, o1, l1 := View(), owner, logged;
      b := Bmap(i, off / BSIZE);
      if b != -1 {
        WrittenMapped(sb, fs0, o0, fs1, o1, View(), owner, i, off0, data);
        LogsMapped(sb, fs0, o0, fs1, o1, View(), owner, i, first, t, off / BSIZE, l0, l1, logged, b);
      } else {
        LogsStuck(sb, fs0, o0, fs1, o1, View(), owner, i, first, t, l0, l1);
      }
    }

    /** The rest of the turn when the copy succeeds. */
    method WritePatch(i: nat, off: nat, b: nat, piece: seq<byte>, ghost fs0: Fs, ghost o0: map<nat, SlotId>,
                      ghost off0: nat, ghost data: seq<byte>, ghost l0: set<nat>, ghost first: nat, ghost t: nat)
      requires Written(sb, fs0, o0, View(), owner, i, off0, data) && off == off0 + |data| < MAXFILE * BSIZE
      requires b == Data(View(), i, off / BSIZE) && b != 0 && off % BSIZE + |piece| <= BSIZE
      requires Logs(sb, fs0, o0, View(), owner, i, first, t, l0, logged + {b}, true)
      modifies `blocks, `logged
      ensures Written(sb, fs0, o0, View(), owner, i, off0, data + piece)
      ensures Logs(sb, fs0, o0, View(), owner, i, first, t, l0, logged, true)
    {
      WrittenOwned(sb, fs0, o0, View(), owner, i, off0, data);
      PatchStep(sb, fs0, o0, View(), owner, i, off0, data, piece, off, b);
      ghost var fs1 := View();
      blocks := blocks[b := Patched(blocks[b], off % BSIZE, piece)];
      logged := logged + {b};
      LogsPatched(sb, fs0, o0, fs1, owner, View(), i, first, t, l0, logged, off / BSIZE, b, blocks[b]);
    }

    /** One turn of writei's loop; piece is empty when the copy fails. */
    method WriteTurn(i: nat, off: nat, piece: seq<byte>, ghost fs0: Fs, ghost o0: map<nat, SlotId>, ghost off0: nat,
                     ghost data: seq<byte>, ghost data': seq<byte>, ghost l0: set<nat>, ghost first: nat, ghost t: nat,
                     ghost t': nat)
      returns (ok: bool)
      requires Written(sb, fs0, o0, View(), owner, i, off0, data)
      requires Logs(sb, fs0, o0, View(), owner, i, first, t, l0, logged, true) && off / BSIZE == first + t
      requires
        && t' == t + 1 && off == off0 + |data| < MAXFILE * BSIZE && off % BSIZE + |piece| <= BSIZE
        && data' == data + piece
      modifies `blocks, `logged, `inodes, `owner
      ensures ok ==> && Written(sb, fs0, o0, View(), owner, i, off0, data')
                     && Logs(sb, fs0, o0, View(), owner, i, first, t', l0, logged, piece != [])
      ensures !ok ==> Stuck(sb, fs0, o0, View(), owner, i, first, t)
    {
      var b := WriteMap(i, off, fs0, o0, off0, data, l0, first, t);
      ok := b != -1;
      if ok {
        if piece != [] {
          WritePatch(i, off, b, piece, fs0, o0, off0, data, l0, first, t + 1);
        } else {
          LogsLess(sb, fs0, o0, View(), owner, i, first, t + 1, l0, logged, b);
          assert data + piece == data;
        }
      }
    }

    /** The body of writei's loop: Turn bytes of src from tot on, or none if src is
        too short for them. */
    method WriteOnce(i: nat, off0: nat, n: nat, src: seq<byte>, tot: nat, ghost fs0: Fs, ghost o0: map<nat, SlotId>,
                     ghost l0: set<nat>, ghost first: nat, ghost t: nat)
      returns (ok: bool, tot': nat, ghost t': nat)
      requires
        && first == off0 / BSIZE && tot <= |src| <= n && tot < n && off0 + n <= MAXFILE * BSIZE
        && AtTurn(off0, n, tot, t)
      requires Looping(sb, fs0, o0, View(), owner, i, off0, first, src, tot, l0, logged, t, true)
      modifies `blocks, `logged, `inodes, `owner
      ensures var m := Turn(off0 + tot, n - tot);
        0 < m && tot' == tot + (if tot + m > |src| then 0 else m)
      ensures ok ==> Looping(sb, fs0, o0, View(), owner, i, off0, first, src, tot', l0, logged, t', tot' != tot)
      ensures t' == t + 1 <= BlockCount(off0, n) && (tot' != tot ==> AtTurn(off0, n, tot', t'))
      ensures !ok ==> Stuck(sb, fs0, o0, View(), owner, i, first, t)
    {
      LoopFacts(sb, fs0, o0, View(), owner, i, off0, first, src, tot, l0, logged, t, true);
      var off, m := off0 + tot, Turn(off0 + tot, n - tot);
      NextTurn(off0, n, tot, t);
      var piece := Copied(src, tot, m);
      tot', t' := tot + |piece|, t + 1;
      ghost var whole := tot' != tot;
      assert whole == (piece != []);
      ok := WriteTurn(i, off, piece, fs0, o0, off0, src[..tot], src[..tot'], l0, first, t, t');
      if ok {
        LoopsOn(sb, fs0, o0, View(), owner, i, off0, first, src, tot', l0, logged, t', whole);
      }
    }

    /** writei's loop. src holds the bytes that can be copied in: a turn that needs
        more ends it. false is a panic in bmap; t is the number of turns. */
    method WriteLoop(i: nat, off0: nat, n: nat, src: seq<byte>, ghost first: nat)
      returns (ok: bool, tot: nat, ghost t: nat)
      requires off0 + n <= MAXFILE * BSIZE && |src| <= n && first == off0 / BSIZE
      requires Looping(sb, View(), owner, View(), owner, i, off0, first, src, 0, logged, logged, 0, true)
      modifies `blocks, `logged, `inodes, `owner
      ensures ok ==> && tot <= |src| && t <= BlockCount(off0, n) && (0 < tot == n ==> t == BlockCount(off0, n))
                     && Looping(sb, old(View()), old(owner), View(), owner, i, off0,
                                first, src, tot, old(logged), logged, t, tot == n)
                     && (tot < n ==> tot + Turn(off0 + tot, n - tot) > |src|)
      ensures !ok ==> t < BlockCount(off0, n) && Stuck(sb, old(View()), old(owner), View(), owner, i, first, t)
    {
      ghost var fs0, o0, l0 := View(), owner, logged;
      tot, ok, t := 0, true, 0;
      while tot < n
        invariant tot <= |src| && AtTurn(off0, n, tot, t)
        invariant Looping(sb, fs0, o0, View(), owner, i, off0, first, src, tot, l0, logged, t, true)
        decreases n - tot
      {
        var was := tot;
        ghost var t0 := t;
        ok, tot, t := WriteOnce(i, off0, n, src, tot, fs0, o0, l0, first, t);
        if !ok {
          t := t0;
          return;
        }
        if tot == was {
          break;
        }
      }
    }

    /** The end of writei: the size grows to end, and the inode goes to its disk block. */
    method GrowTo(i: nat, end: nat)
      requires i < |inodes| && |dinodes| == |inodes|
      modifies `inodes, `dinodes, `logged
      ensures View() == Resized(old(View()), i, end) && |inodes| == old(|inodes|)
      ensures dinodes == old(dinodes)[i := inodes[i]] && logged == old(logged) + {sb.Iblock(i)}
    {
      if end > inodes[i].size {
        inodes := inodes[i := inodes[i].(size := end)];
      }
      dinodes := dinodes[i := inodes[i]];
      logged := logged + {sb.Iblock(i)};
    }

    /** writei after its checks. */
    method WriteChecked(i: nat, src: seq<byte>, off: nat, n: nat) returns (ok: bool, tot: nat, ghost t: nat)
      requires Valid() && i < sb.ninodes && |src| <= n && |dinodes| == sb.ninodes
      requires off <= inodes[i].size && off + n <= MAXFILE * BSIZE
      modifies `blocks, `logged, `inodes, `dinodes, `owner
      ensures ok ==> && Valid() && dinodes == old(dinodes)[i := inodes[i]]
                     && tot <= |src| && (tot < n ==> tot + Turn(off + tot, n - tot) > |src|)
                     && OthersKept(old(View()), View(), old(owner), owner, i)
                     && (0 < tot == n ==> Logged(sb, old(View()), old(owner),
                                                 View(), owner, i, off / BSIZE, BlockCount(off, n),
                                                 old(logged), logged))
      ensures ok && old(NoHole(View(), i)) ==>
        && NoHole(View(), i) && File(View(), i) == Overlay(old(File(View(), i)), off, src[..tot])
        && (n <= CHUNK ==> |logged - old(logged)| <= MAXOPBLOCKS)
      ensures !ok ==> t < BlockCount(off, n) && Stuck(sb, old(View()), old(owner), View(), owner, i, off / BSIZE, t)
    {
      ghost var fs0, o0, l0, first := View(), owner, logged, off / BSIZE;
      LoopStarts(sb, fs0, o0, i, off, first, src, l0);
      ok, tot, t := WriteLoop(i, off, n, src, first);
      if ok {
        var end := off + tot;
        ghost var fs1, l1 := View(), logged;
        LoopFacts(sb, fs0, o0, fs1, owner, i, off, first, src, tot, l0, l1, t, tot == n);
        GrowTo(i, end);
        WrittenOthers(sb, fs0, o0, fs1, owner, i, off, src[..tot], end, View());
        if 0 < tot == n {
          LoggedAll(sb, fs0, o0, fs1, owner, View(), i, first, t, l0, l1, end);
        }
        if NoHole(fs0, i) {
          WrittenFile(sb, fs0, o0, fs1, owner, i, off, src[..tot], end, View());
          if n <= CHUNK {
            BudgetHolds(sb, fs0, o0, fs1, owner, i, off, n, t, l0, l1, tot == n, first);
          }
        }
      }
    }

    /** writei: r bytes of src written at off, fewer than n only if src is too short.
        r == -1 is the refusal of an offset past the end or of too large a file. A write that
        runs out of blocks panics, after t turns. */
    method Writei(i: nat, src: seq<byte>, off: nat, n: nat) returns (panicked: bool, r: int, ghost t: nat)
      requires Valid() && i < sb.ninodes && off < UINT && n < UINT && |src| <= n && |dinodes| == sb.ninodes
      modifies `blocks, `logged, `inodes, `dinodes, `owner
      ensures r == -1 <==> off > old(inodes[i].size) || off + n >= UINT || off + n > MAXFILE * BSIZE
      ensures r == -1 ==>
          View() == old(View()) && dinodes == old(dinodes) && owner == old(owner) && logged == old(logged) && !panicked
      ensures !panicked && r != -1 ==>
        && Valid() && dinodes == old(dinodes)[i := inodes[i]]
        && 0 <= r <= |src| && (r < n ==> r + Turn(off + r, n - r) > |src|)
        && OthersKept(old(View()), View(), old(owner), owner, i)
        && (0 < r == n ==> Logged(sb, old(View()), old(owner), View(), owner, i,
                                  off / BSIZE, BlockCount(off, n), old(logged), logged))
      ensures !panicked && r != -1 && old(NoHole(View(), i)) ==>
        && NoHole(View(), i) && File(View(), i) == Overlay(old(File(View(), i)), off, src[..r])
        && (n <= CHUNK ==> |logged - old(logged)| <= MAXOPBLOCKS)
      ensures panicked ==>
          t < BlockCount(off, n) && Stuck(sb, old(View()), old(owner), View(), owner, i, off / BSIZE, t)
    {
      Wraps(off, n);
      if off > inodes[i].size || (off + n) % UINT < off || off + n > MAXFILE * BSIZE {
        return false, -1, 0;
      }
      var ok, tot;
      ok, tot, t := WriteChecked(i, src, off, n);
      return !ok, tot, t;
    }

    /** itrunc's first loop: every direct block is freed. */
    method FreeDirects(i: nat) returns (ok: bool)
      requires Valid() && i < sb.ninodes
      modifies `blocks, `logged, `inodes, `owner
      ensures ok && Cleared(sb, old(View()), old(owner), View(), owner, i, NDIRECT)
      ensures owner.Keys <= old(owner).Keys && Frees(sb, old(logged), logged, old(owner).Keys - owner.Keys)
    {
      ghost var fs0, o0, l0 := View(), owner, logged;
      var k := 0;
      ok := true;
      DirectsStart(sb, fs0, o0, i, l0);
      while k < NDIRECT
        invariant ok && 0 <= k <= NDIRECT && Formed(View(), i)
        invariant Directs(sb, fs0, o0, View(), owner, i, k, l0, logged)
      {
        var k' := k + 1;
        ok := FreeDirect(i, k, k', fs0, o0, l0);
        k := k';
      }
      assert Open(0);
    }

    /** One turn of that loop. */
    method FreeDirect(i: nat, k: nat, k': nat, ghost fs0: Fs, ghost o0: map<nat, SlotId>, ghost l0: set<nat>)
      returns (ok: bool)
      requires Formed(View(), i) && k < NDIRECT && k' == k + 1 && Directs(sb, fs0, o0, View(), owner, i, k, l0, logged)
      modifies `blocks, `logged, `inodes, `owner
      ensures ok && Formed(View(), i) && Directs(sb, fs0, o0, View(), owner, i, k', l0, logged)
    {
      var b := inodes[i].addrs[k];
      DirectsNext(sb, fs0, o0, View(), owner, i, k, l0, logged, b, k');
      ok := true;
      if b != 0 {
        ok := Bfree(b);
        inodes := inodes[i := inodes[i].(addrs := inodes[i].addrs[k := 0])];
        owner := owner - {b};
      }
    }

    /** One turn of itrunc's second loop: the block of entry j, if any, is freed. */
    method FreeEntry(i: nat, j: nat, j': nat, b: nat, ghost fs0: Fs, ghost l0: set<nat>) returns (ok: bool)
      requires Formed(fs0, i) && j < NINDIRECT && j' == j + 1 && b == Entry(fs0, i, j)
      requires Listings(sb, fs0, owner, View(), i, j, l0, logged)
      modifies `blocks, `logged
      ensures ok && Listings(sb, fs0, owner, View(), i, j', l0, logged)
    {
      ListingsNext(sb, fs0, owner, View(), i, j, l0, logged, b, j');
      ok := true;
      if b != 0 {
        ok := Bfree(b);
      }
    }

    /** itrunc's second loop: every block listed in the indirect block is freed. */
    method FreeEntries(i: nat) returns (ok: bool)
      requires Valid() && i < sb.ninodes && inodes[i].addrs[INDIRECT] != 0
      modifies `blocks, `logged
      ensures ok && inodes[i].addrs[INDIRECT] < sb.size && Listing(sb, old(View()), owner, View(), i, NINDIRECT)
      ensures Frees(sb, old(logged), logged, Listed(old(View()), i, NINDIRECT))
    {
      ghost var fs0, l0 := View(), logged;
      IndirectInRange(sb, fs0, owner, i);
      ListingsStart(sb, fs0, owner, i, l0);
      var bp := blocks[inodes[i].addrs[INDIRECT]];
      ok := EntriesLoop(i, bp, fs0, l0);
      assert Open(0);
    }

    method EntriesLoop(i: nat, bp: Block, ghost fs0: Fs, ghost l0: set<nat>) returns (ok: bool)
      requires Formed(fs0, i) && Listings(sb, fs0, owner, View(), i, 0, l0, logged)
      requires forall j :: 0 <= j < NINDIRECT ==> Word(bp, j) == Entry(fs0, i, j)
      modifies `blocks, `logged
      ensures ok && Listings(sb, fs0, owner, View(), i, NINDIRECT, l0, logged)
    {
      var j := 0;
      ok := true;
      while j < NINDIRECT
        invariant ok && 0 <= j <= NINDIRECT && Listings(sb, fs0, owner, View(), i, j, l0, logged)
      {
        var j' := j + 1;
        ok := FreeEntry(i, j, j', Word(bp, j), fs0, l0);
        j := j';
      }
    }

    /** itrunc's handling of the indirect block. */
    method FreeIndirect(i: nat) returns (ok: bool)
      requires Valid() && i < sb.ninodes
      modifies `blocks, `logged, `inodes, `owner
      ensures ok && Valid() && OthersKept(old(View()), View(), old(owner), owner, i)
      ensures owner == old(owner) - IndirectBlocks(old(owner), i)
      ensures inodes[i] == old(inodes[i].(addrs := inodes[i].addrs[INDIRECT := 0]))
      ensures Frees(sb, old(logged), logged, IndirectBlocks(old(owner), i))
    {
      ghost var fs0, o0 := View(), owner;
      ghost var o2 := owner - IndirectBlocks(owner, i);
      ok := true;
      if inodes[i].addrs[INDIRECT] != 0 {
        ok := DropIndirect(i, o2);
      } else {
        NoIndirect(sb, fs0, o0, i);
        FreesNone(sb, logged);
        assert inodes[i].addrs[INDIRECT := 0] == inodes[i].addrs;
      }
      ghost var fs2 := View();
      owner := o2;
      assert View() == fs2;
    }

    /** The same, where there is an indirect block; o2 are the owners that are left. */
    method DropIndirect(i: nat, ghost o2: map<nat, SlotId>) returns (ok: bool)
      requires Valid() && i < sb.ninodes && inodes[i].addrs[INDIRECT] != 0 && o2 == owner - IndirectBlocks(owner, i)
      modifies `blocks, `logged, `inodes
      ensures ok && Owned(sb, View(), o2, {}) && OthersKept(old(View()), View(), owner, o2, i)
      ensures inodes[i] == old(inodes[i].(addrs := inodes[i].addrs[INDIRECT := 0]))
      ensures Frees(sb, old(logged), logged, IndirectBlocks(owner, i))
    {
      ghost var fs0 := View();
      ok := FreeEntries(i);
      var b := inodes[i].addrs[INDIRECT];
      ghost var fs1, l := View(), logged;
      ListingEnds(sb, fs0, owner, fs1, i, b);
      ok := Bfree(b);
      AllListed(sb, fs0, owner, i, b);
      FreesOne(sb, old(logged), l, Listed(fs0, i, NINDIRECT), b, logged, IndirectBlocks(owner, i));
      inodes := inodes[i := inodes[i].(addrs := inodes[i].addrs[INDIRECT := 0])];
      assert View() == SetAddr(Unmarked(sb, fs1, b), i, INDIRECT, 0);
    }

    /** itrunc: never meets a free block, empties file i and frees exactly its blocks. */
    method Itrunc(i: nat) returns (ok: bool)
      requires Valid() && i < sb.ninodes && |dinodes| == sb.ninodes
      modifies `blocks, `logged, `inodes, `dinodes, `owner
      ensures ok && Valid() && Emptied(old(owner), owner, i) && NoHole(View(), i)
      ensures inodes[i] == old(inodes[i]).(size := 0, addrs := inodes[i].addrs)
      ensures forall k :: 0 <= k < NSLOTS ==> Slot(View(), i, k) == 0
      ensures OthersKept(old(View()), View(), old(owner), owner, i)
      ensures dinodes == old(dinodes)[i := inodes[i]]
      ensures logged == old(logged) + MapBlocks(sb, old(owner).Keys - owner.Keys) + {sb.Iblock(i)}
      ensures forall b :: b in logged - old(logged) ==> b == sb.Iblock(i) || InBitmap(sb, b)
    {
      ghost var fs0, o0 := View(), owner;
      ok := FreeDirects(i);
      ghost var fs1, o1, l := View(), owner, logged;
      ok := FreeIndirect(i);
      ghost var fs2 := View();
      TruncLogs(sb, fs0, o0, o1, owner, i, old(logged), l, logged);
      inodes := inodes[i := inodes[i].(size := 0)];
      Truncated(sb, fs0, o0, fs1, o1, fs2, owner, i, View());
      dinodes := dinodes[i := inodes[i]];
      logged := logged + {sb.Iblock(i)};
    }

    /** The end of iput for an inode without links: itrunc, type 0, iupdate. */
    method FreeInode(i: nat) returns (ok: bool)
      requires Valid() && i < sb.ninodes && |dinodes| == sb.ninodes
      modifies `blocks, `logged, `inodes, `dinodes, `owner
      ensures ok && Valid() && Emptied(old(owner), owner, i) && NoHole(View(), i)
      ensures inodes[i] == old(inodes[i]).(typ := 0, size := 0, addrs := inodes[i].addrs)
      ensures forall k :: 0 <= k < NSLOTS ==> Slot(View(), i, k) == 0
      ensures OthersKept(old(View()), View(), old(owner), owner, i)
      ensures dinodes == old(dinodes)[i := inodes[i]]
      ensures logged == old(logged) + MapBlocks(sb, old(owner).Keys - owner.Keys) + {sb.Iblock(i)}
    {
      ghost var fs0, o0 := View(), owner;
      ok := Itrunc(i);
      ghost var fs1 := View();
      Restamped(sb, fs1, owner, i, inodes[i].(typ := 0));
      inodes := inodes[i := inodes[i].(typ := 0)];
      OthersKeptTwice(fs0, fs1, View(), o0, owner, owner, i);
      dinodes := dinodes[i := inodes[i]];
      logged := logged + {sb.Iblock(i)};
    }

    /** One transaction of filewrite: begin_op, writei, end_op. */
    method WriteChunk(i: nat, piece: seq<byte>, off: nat, n1: nat, ghost fs0: Fs, ghost o0: map<nat, SlotId>,
                      ghost off0: nat, ghost data: seq<byte>)
      returns (panicked: bool, r: int, ghost data': seq<byte>)
      requires Valid() && i < sb.ninodes && |piece| <= n1 <= CHUNK && |dinodes| == sb.ninodes && off < UINT
      requires FileWritten(fs0, o0, View(), owner, i, off0, data) && off == off0 + |data|
      modifies `blocks, `logged, `inodes, `dinodes, `owner
      ensures !panicked ==> && Valid() && |dinodes| == sb.ninodes && -1 <= r <= |piece| && |logged| <= MAXOPBLOCKS
                            && (r >= 0 ==> off + r < UINT) && data' == (if r >= 0 then data + piece[..r] else data)
                            && FileWritten(fs0, o0, View(), owner, i, off0, data')
      ensures panicked ==> DiskFull(sb, blocks)
      ensures !panicked && |piece| == n1 ==> (r == n1 <==> off <= old(inodes[i].size) && off + n1 <= MAXFILE * BSIZE)
    {
      logged := {};
      ghost var fs1, o1 := View(), owner;
      NoHolesYet(fs0, o0, fs1, o1, i, off0, data);
      ghost var t;
      panicked, r, t := Writei(i, piece, off, n1);
      if panicked {
        StuckFull(sb, fs1, o1, View(), owner, i, off / BSIZE, t);
      }
      data' := data;
      if !panicked && r >= 0 {
        assert logged - {} == logged;
        data' := data + piece[..r];
        ChunkWritten(fs0, o0, fs1, o1, View(), owner, i, off0, data, off, piece[..r], data');
      }
    }

    /** One turn of filewrite's loop, after done bytes: n1 more, in one transaction. */
    method WriteNext(i: nat, src: seq<byte>, done: nat, n1: nat, off: nat, ghost fs0: Fs, ghost o0: map<nat, SlotId>,
                     ghost off0: nat)
      returns (panicked: bool, r: int, ghost data: seq<byte>)
      requires Valid() && i < sb.ninodes && done <= |src| && n1 <= CHUNK && |dinodes| == sb.ninodes && off < UINT
      requires FileWritten(fs0, o0, View(), owner, i, off0, src[..done]) && off == off0 + done
      modifies `blocks, `logged, `inodes, `dinodes, `owner
      ensures panicked ==> DiskFull(sb, blocks)
      ensures !panicked ==>
        && Valid() && |dinodes| == sb.ninodes && -1 <= r <= n1 && (r >= 0 ==> done + r <= |src| && off + r < UINT)
        && data == src[..if r > 0 then done + r else done]
        && FileWritten(fs0, o0, View(), owner, i, off0, data)
      ensures !panicked && r == n1 ==> NoHole(fs0, i) && off0 <= fs0.inodes[i].size && off + n1 <= MAXFILE * BSIZE
      ensures
        (!panicked && done + n1 <= |src| && NoHole(fs0, i) && off0 <= fs0.inodes[i].size
         && off + n1 <= MAXFILE * BSIZE) ==>
          r == n1
    {
      var end := if done + n1 <= |src| then done + n1 else |src|;
      Reaches(fs0, o0, View(), owner, i, off0, src[..done], off);
      panicked, r, data := WriteChunk(i, src[done..end], off, n1, fs0, o0, off0, src[..done]);
      if !panicked {
        NextSlice(src, done, end, r);
      }
    }

    /** filewrite's loop over an inode: n bytes at offset off0, at most CHUNK of them in
        one transaction. src is what can be copied in. off is the new file offset. */
    method Filewrite(i: nat, src: seq<byte>, off0: nat, n: int)
      returns (panicked: bool, ret: int, off: nat, ghost data: seq<byte>)
      requires Valid() && i < sb.ninodes && NoHole(View(), i) && |dinodes| == sb.ninodes
      requires off0 < UINT && (n >= 0 ==> |src| <= n)
      modifies `blocks, `logged, `inodes, `dinodes, `owner
      ensures !panicked ==>
        && Valid() && off0 <= off <= off0 + |src| && ret in {n, -1} && (ret == n >= 0 ==> off == off0 + n)
        && data == src[..off - off0]
        && FileWritten(old(View()), old(owner), View(), owner, i, off0, data)
      ensures panicked ==> ret == -1 && DiskFull(sb, blocks)
      ensures !panicked && |src| == n > 0 ==> (ret == n <==> off0 <= old(inodes[i].size) && off0 + n <= MAXFILE * BSIZE)
    {
      ghost var fs0, o0 := View(), owner;
      ghost var size0 := inodes[i].size;
      ghost var fits := |src| == n && off0 <= size0 && off0 + n <= MAXFILE * BSIZE;
      var done := 0;
      off := off0;
      data := src[..0];
      FileUnwritten(fs0, o0, i, off0, data);
      panicked := false;
      while done < n
        invariant Valid() && |dinodes| == sb.ninodes && 0 <= done && off == off0 + done && off < UINT
        invariant done <= |src| && (n >= 0 ==> done <= n) && !panicked
        invariant data == src[..done] && FileWritten(fs0, o0, View(), owner, i, off0, data)
        invariant done > 0 ==> off0 <= size0 && off0 + done <= MAXFILE * BSIZE
        decreases n - done
      {
        var n1 := if n - done > CHUNK then CHUNK else n - done;
        var r;
        panicked, r, data := WriteNext(i, src, done, n1, off, fs0, o0, off0);
        if panicked {
          return true, -1, off, data;
        }
        if r > 0 {
          off := off + r;
        }
        assert data == src[..off - off0];
        if r != n1 {
          assert !fits;
          break;
        }
        done := done + r;
      }
      assert data == src[..off - off0];
      ret := if done == n then n else -1;
    }
  }
}
