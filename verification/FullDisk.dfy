/** A crowded disk: a layout as mkfs makes it, files that fill it but for one block under each
    bitmap block, and one file that ends in its last direct block. */
module FullDisk {
  import opened Blocks
  import opened Inodes
  import opened Files
  import opened Writing
  import opened Budget

  const NMETA := 48
  const FILLED := 60      // where the blocks of the other files start
  const SIZE := 41755
  const NINODES := 157
  const BMAP := 42
  const APART := 8339     // 31 files with 269 blocks each

  const SB := Super(SIZE, NMETA, NINODES, 32, BMAP)

  /** Blocks that no file has; with a hole also the one that was direct block 11 of file 1. */
  predicate Spare(hole: bool, b: nat) {
    b >= FILLED - 1 && (b - (FILLED - 1)) % APART == 0 && (hole || b >= FILLED)
  }

  /** The block in slot k of file j. */
  function SlotBlock(hole: bool, j: nat, k: nat): nat {
    if j == 0 then 0
    else if j == 1 then (if k < NDIRECT && !Spare(hole, NMETA + k) then NMETA + k else 0)
    else if Spare(hole, FILLED + NSLOTS * (j - 2) + k) then 0 else FILLED + NSLOTS * (j - 2) + k
  }

  function OwnerOf(b: nat): SlotId
    requires b >= NMETA
  {
    if b < FILLED then SlotId(1, b - NMETA) else SlotId((b - FILLED) / NSLOTS + 2, (b - FILLED) % NSLOTS)
  }

  /** A block whose words are the first n of the given slots. */
  function Words(hole: bool, j: nat, n: nat): Block
    requires n <= NINDIRECT
  {
    if n == 0 then ZeroBlock() else SetWord(Words(hole, j, n - 1), n - 1, SlotBlock(hole, j, INDIRECT + n))
  }

  function Ones(): Block { Block(seq(BSIZE, _ => 255)) }

  /** The bit of a spare block in the m-th bitmap block is clear, all others are set. */
  function BitmapBlock(hole: bool, m: nat): Block {
    SetBit(Ones(), (FILLED - 1 + APART * m) % BPB, m == 0 && !hole)
  }

  function BlockAt(hole: bool, b: nat): Block {
    if BMAP <= b < NMETA then BitmapBlock(hole, b - BMAP)
    else if b >= FILLED && (b - FILLED) % NSLOTS == INDIRECT then Words(hole, (b - FILLED) / NSLOTS + 2, NINDIRECT)
    else ZeroBlock()
  }

  function InodeAt(hole: bool, j: nat): Inode {
    Inode(if j == 0 then 0 else 2, 1, if j == 0 then 0 else if j == 1 then 11 * BSIZE + 512 else 267 * BSIZE,
          seq(NDIRECT + 1, k requires 0 <= k => SlotBlock(hole, j, k)))
  }

  function Disk(hole: bool): Fs {
    Fs(seq(SIZE, b requires 0 <= b => BlockAt(hole, b)), seq(NINODES, j requires 0 <= j => InodeAt(hole, j)))
  }

  ghost function Owners(hole: bool): map<nat, SlotId> {
    map b: nat | NMETA <= b < SIZE && !Spare(hole, b) :: OwnerOf(b)
  }

  // ---- its slots

  lemma {:induction false} WordsAt(hole: bool, j: nat, n: nat, e: nat)
    requires e < n <= NINDIRECT && j < NINODES
    ensures Word(Words(hole, j, n), e) == SlotBlock(hole, j, INDIRECT + 1 + e)
  {
    WordOfSetWord(Words(hole, j, n - 1), n - 1, SlotBlock(hole, j, INDIRECT + n), e);
    if e < n - 1 {
      WordsAt(hole, j, n - 1, e);
    }
  }

  lemma Place(j: nat, k: nat, b: nat)
    requires 2 <= j && k < NSLOTS && b == FILLED + NSLOTS * (j - 2) + k
    ensures (b - FILLED) / NSLOTS + 2 == j && (b - FILLED) % NSLOTS == k && (j < NINODES ==> b < SIZE)
  {
  }

  /** A spare block would have been the last of some file. */
  lemma SpareIsLast(hole: bool, j: nat, k: nat, b: nat)
    requires 2 <= j && k < NSLOTS && b == FILLED + NSLOTS * (j - 2) + k && Spare(hole, b)
    ensures k == NSLOTS - 1
  {
    var q := (b - (FILLED - 1)) / APART;
    assert NSLOTS * (j - 2) + k + 1 == NSLOTS * (31 * q);
    Multiple(31 * q - (j - 2), k + 1);
  }

  lemma Multiple(q: int, r: nat)
    requires r == NSLOTS * q && 0 < r <= NSLOTS
    ensures r == NSLOTS
  {
  }

  lemma InodeIs(hole: bool, j: nat, k: nat)
    requires j < NINODES && k <= INDIRECT
    ensures |Disk(hole).inodes| == NINODES && |Disk(hole).inodes[j].addrs| == NDIRECT + 1
    ensures Disk(hole).inodes[j].addrs[k] == SlotBlock(hole, j, k)
  {
  }

  lemma IndirectIs(hole: bool, j: nat, ind: nat)
    requires 2 <= j < NINODES && ind == FILLED + NSLOTS * (j - 2) + INDIRECT
    ensures ind < SIZE && SlotBlock(hole, j, INDIRECT) == ind && Disk(hole).blocks[ind] == Words(hole, j, NINDIRECT)
  {
    Place(j, INDIRECT, ind);
    if Spare(hole, ind) {
      SpareIsLast(hole, j, INDIRECT, ind);
    }
  }

  lemma SlotIs(hole: bool, j: nat, k: nat)
    requires j < NINODES && k < NSLOTS
    ensures |Disk(hole).inodes| == NINODES && |Disk(hole).inodes[j].addrs| == NDIRECT + 1
    ensures Slot(Disk(hole), j, k) == SlotBlock(hole, j, k)
  {
    InodeIs(hole, j, if k <= INDIRECT then k else INDIRECT);
    if k > INDIRECT && j >= 2 {
      IndirectIs(hole, j, FILLED + NSLOTS * (j - 2) + INDIRECT);
      WordsAt(hole, j, NINDIRECT, k - INDIRECT - 1);
    }
  }

  // ---- its bitmap

  lemma {:induction false} Positive(w: nat)
    ensures Pow2(w) >= 1
  {
    if w > 0 {
      Positive(w - 1);
    }
  }

  lemma {:induction false} OnesBit(w: nat, i: nat)
    requires i < w
    ensures Pow2(w) >= 1 && BitOf(Pow2(w) - 1, i)
  {
    Positive(w);
    if i > 0 {
      OnesBit(w - 1, i - 1);
      assert (Pow2(w) - 1) / 2 == Pow2(w - 1) - 1;
    }
  }

  lemma AllOnes(k: nat)
    requires k < BPB
    ensures Bit(Ones(), k)
  {
    assert Pow2(8) == 256;
    OnesBit(8, k % 8);
  }

  /** There is one spare block under each bitmap block. */
  lemma SpareAt(hole: bool, b: nat, m: nat)
    requires b < SIZE && m == b / BPB
    ensures Spare(hole, b) <==> b % BPB == (FILLED - 1 + APART * m) % BPB && !(m == 0 && !hole)
    ensures Spare(hole, b) ==> b == FILLED - 1 + APART * m
  {
    assert (FILLED - 1 + APART * m) % BPB == FILLED - 1 + 147 * m;
    if Spare(hole, b) {
      var q := (b - (FILLED - 1)) / APART;
      assert b == FILLED - 1 + APART * q;
      assert q == m;
    } else if b % BPB == FILLED - 1 + 147 * m {
      assert b == FILLED - 1 + APART * m;
      assert (APART * m) % APART == 0;
    }
  }

  lemma UsedIs(hole: bool, b: nat)
    requires b < SIZE
    ensures |Disk(hole).blocks| == SIZE && SB.Bblock(b) < NMETA
    ensures Used(SB, Disk(hole).blocks, b) <==> !Spare(hole, b)
  {
    var m := b / BPB;
    SpareAt(hole, b, m);
    MapBit(hole, m, b % BPB);
    MapBlockIs(hole, m);
  }

  lemma MapBlockIs(hole: bool, m: nat)
    requires m < 6
    ensures |Disk(hole).blocks| == SIZE && Disk(hole).blocks[BMAP + m] == BitmapBlock(hole, m)
  {
  }

  lemma MapBit(hole: bool, m: nat, k: nat)
    requires k < BPB
    ensures Bit(BitmapBlock(hole, m), k) == if k == (FILLED - 1 + APART * m) % BPB then m == 0 && !hole else true
  {
    AllOnes(k);
  }

  // ---- ownership

  lemma OwnerBack(hole: bool, b: nat)
    requires NMETA <= b < SIZE && !Spare(hole, b)
    ensures OwnerOf(b).i < NINODES && OwnerOf(b).k < NSLOTS && SlotBlock(hole, OwnerOf(b).i, OwnerOf(b).k) == b
  {
  }

  lemma SlotOwned(hole: bool, j: nat, k: nat)
    requires j < NINODES && k < NSLOTS && SlotBlock(hole, j, k) != 0
    ensures var b := SlotBlock(hole, j, k); NMETA <= b < SIZE && !Spare(hole, b) && OwnerOf(b) == SlotId(j, k)
  {
    if j >= 2 {
      Place(j, k, FILLED + NSLOTS * (j - 2) + k);
    }
  }

  lemma DiskOwned(hole: bool)
    ensures Owned(SB, Disk(hole), Owners(hole), {})
  {
    var fs, o := Disk(hole), Owners(hole);
    assert Shaped(SB, fs);
    forall j, k | 0 <= j < NINODES && 0 <= k < NSLOTS && Slot(fs, j, k) != 0
      ensures Slot(fs, j, k) in o && o[Slot(fs, j, k)] == SlotId(j, k)
    {
      SlotIs(hole, j, k);
      SlotOwned(hole, j, k);
    }
    forall b | b in o
      ensures o[b].i < NINODES && o[b].k < NSLOTS && Slot(fs, o[b].i, o[b].k) == b
    {
      OwnerBack(hole, b);
      SlotIs(hole, OwnerOf(b).i, OwnerOf(b).k);
    }
    forall b | 0 <= b < SIZE
      ensures SB.Bblock(b) < NMETA && (Used(SB, fs.blocks, b) <==> b < NMETA || b in o)
    {
      UsedIs(hole, b);
    }
  }

  // ---- a crowded file system

  function FreeBlocks(): seq<nat> {
    seq(5, j requires 0 <= j => FILLED - 1 + APART * (j + 1))
  }

  lemma FreeApart(hole: bool, b: nat, c: nat)
    requires IsFree(SB, Disk(hole).blocks, b) && IsFree(SB, Disk(hole).blocks, c) && b != c
    ensures SB.Bblock(b) != SB.Bblock(c)
  {
    FreeIs(hole, b, b / BPB);
    FreeIs(hole, c, c / BPB);
  }

  lemma FreeIs(hole: bool, b: nat, m: nat)
    requires IsFree(SB, Disk(hole).blocks, b) && m == b / BPB
    ensures b == FILLED - 1 + APART * m
  {
    UsedIs(hole, b);
    SpareAt(hole, b, m);
  }

  lemma FreeOne(hole: bool, j: nat)
    requires j < 5
    ensures |FreeBlocks()| == 5 && IsFree(SB, Disk(hole).blocks, FreeBlocks()[j])
  {
    var b := FILLED - 1 + APART * (j + 1);
    assert (APART * (j + 1)) % APART == 0;
    UsedIs(hole, b);
  }

  lemma DiskCrowded(hole: bool)
    ensures Crowded(SB, Disk(hole), Owners(hole), 1, FreeBlocks())
  {
    DiskOwned(hole);
    SlotIs(hole, 1, INDIRECT);
    forall b: nat, c: nat | IsFree(SB, Disk(hole).blocks, b) && IsFree(SB, Disk(hole).blocks, c) && b != c
      ensures SB.Bblock(b) != SB.Bblock(c)
    {
      FreeApart(hole, b, c);
    }
    forall j | 0 <= j < 5
      ensures IsFree(SB, Disk(hole).blocks, FreeBlocks()[j])
    {
      FreeOne(hole, j);
    }
  }

  lemma FileMapped(hole: bool, j: nat, n: nat)
    requires j < NINODES && n < MAXFILE && n * BSIZE < Disk(hole).inodes[j].size && (j == 1 ==> !hole)
    ensures Formed(Disk(hole), j) && Data(Disk(hole), j, n) != 0
  {
    SlotIs(hole, j, DataSlot(n));
    if j >= 2 && Spare(hole, FILLED + NSLOTS * (j - 2) + DataSlot(n)) {
      SpareIsLast(hole, j, DataSlot(n), FILLED + NSLOTS * (j - 2) + DataSlot(n));
    }
  }

  lemma FileWhole(hole: bool, j: nat)
    requires j < NINODES && (j == 1 ==> !hole)
    ensures NoHole(Disk(hole), j)
  {
    InodeIs(hole, j, 0);
    forall n | 0 <= n < MAXFILE && n * BSIZE < Disk(hole).inodes[j].size
      ensures Data(Disk(hole), j, n) != 0
    {
      FileMapped(hole, j, n);
    }
  }

  /** Without the hole, no file of the disk has one. */
  lemma DiskHoles(hole: bool)
    ensures NoHoles(Disk(hole)) <==> !hole
    ensures NoHole(Disk(hole), 1) <==> !hole
    ensures Formed(Disk(hole), 1) && (Data(Disk(hole), 1, 11) == 0 <==> hole)
  {
    SlotIs(hole, 1, 11);
    assert DataSlot(11) == 11 && 11 * BSIZE < Disk(hole).inodes[1].size;
    if !hole {
      forall j | 0 <= j < NINODES
        ensures NoHole(Disk(hole), j)
      {
        FileWhole(hole, j);
      }
    } else {
      assert !NoHole(Disk(hole), 1);
    }
  }
}
