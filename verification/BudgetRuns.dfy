/** The budget of a transaction, met exactly: writes that log MAXOPBLOCKS blocks, and writes
    that log one more because the file has a hole. */
module BudgetRuns {
  import opened Blocks
  import opened Common
  import opened Inodes
  import opened Files
  import opened Writing
  import opened Budget
  import FullDisk
  import FS = FileSystem

  /** writei of a chunk as long as filewrite makes them, from the middle of direct block 11 on,
      in a crowded file system: it succeeds, and logs MAXOPBLOCKS blocks if direct block 11 is
      mapped, as it is when the file has no hole, and one more if it is not. */
  method FullChunk(f: FS.FileSystem, i: nat, src: seq<byte>, off: nat, ghost free: seq<nat>) returns (r: int)
    requires f.Valid() && |f.dinodes| == f.sb.ninodes && f.logged == {} && Crowded(f.sb, f.View(), f.owner, i, free)
    requires off / BSIZE == 11 && off % BSIZE != 0 && off <= f.inodes[i].size && |src| == CHUNK
    modifies f
    ensures f.Valid() && r == CHUNK
    ensures |f.logged| == if old(Data(f.View(), i, 11)) != 0 then MAXOPBLOCKS else MAXOPBLOCKS + 1
  {
    ghost var fs0, o0, hole := f.View(), f.owner, Data(f.View(), i, 11) == 0;
    var panicked;
    ghost var t;
    panicked, r, t := f.Writei(i, src, off, CHUNK);
    assert BlockCount(off, CHUNK) == 4;
    if panicked {
      NeverStuck(f.sb, fs0, o0, f.View(), f.owner, i, t, free);
      assert false;
    } else {
      LoggedCount(f.sb, fs0, o0, f.View(), f.owner, i, free, hole, f.logged);
    }
  }

  lemma LoggedCount(sb: Super, fs0: Fs, o0: map<nat, SlotId>, fs: Fs, o: map<nat, SlotId>, i: nat, free: seq<nat>,
                    hole: bool, l: set<nat>)
    requires Crowded(sb, fs0, o0, i, free) && Owned(sb, fs, o, {}) && Logged(sb, fs0, o0, fs, o, i, 11, 4, {}, l)
    requires hole == (Data(fs0, i, 11) == 0)
    ensures |l| == if hole then MAXOPBLOCKS + 1 else MAXOPBLOCKS
  {
    assert Open(0);
    ExactCount(sb, fs0, o0, fs, o, i, free, hole);
    assert l == TurnLogs(sb, fs0, fs, i, 11, 4) + {sb.Iblock(i)};
  }

  /** There are such file systems: on the full disk, whose files have no holes unless one is
      made, the write logs exactly MAXOPBLOCKS blocks, and MAXOPBLOCKS + 1 with the hole. */
  method Witness(hole: bool, src: seq<byte>) returns (f: FS.FileSystem, r: int)
    requires |src| == CHUNK
    ensures NoHoles(FullDisk.Disk(hole)) <==> !hole
    ensures fresh(f) && f.Valid() && r == CHUNK && |f.logged| == if hole then MAXOPBLOCKS + 1 else MAXOPBLOCKS
  {
    FullDisk.DiskCrowded(hole);
    FullDisk.DiskHoles(hole);
    FullDisk.InodeIs(hole, 1, 0);
    var fs := FullDisk.Disk(hole);
    f := new FS.FileSystem(FullDisk.SB, fs.blocks, fs.inodes, FullDisk.Owners(hole));
    r := FullChunk(f, 1, src, 11 * BSIZE + 512, FullDisk.FreeBlocks());
  }
}
