/** Files as byte sequences, and what block allocation for one file keeps. */
module Files {
  import opened Blocks
  import opened Inodes

  /** The block that holds bytes n * BSIZE ... of file i; 0 if none is mapped. */
  function Data(fs: Fs, i: nat, n: nat): (b: nat)
    requires i < |fs.inodes| && |fs.inodes[i].addrs| == NDIRECT + 1 && n < MAXFILE
  {
    Slot(fs, i, DataSlot(n))
  }

  function ByteAt(fs: Fs, i: nat, p: nat): (x: byte)
    requires i < |fs.inodes| && |fs.inodes[i].addrs| == NDIRECT + 1 && p < MAXFILE * BSIZE
  {
    var b := Data(fs, i, p / BSIZE);
    if b < |fs.blocks| then fs.blocks[b].bytes[p % BSIZE] else 0
  }

  /** The contents of file i. */
  ghost function File(fs: Fs, i: nat): (f: seq<byte>)
    requires i < |fs.inodes| && |fs.inodes[i].addrs| == NDIRECT + 1 && fs.inodes[i].size <= MAXFILE * BSIZE
    ensures |f| == fs.inodes[i].size
    ensures forall p :: 0 <= p < |f| ==> f[p] == ByteAt(fs, i, p)
  {
    seq(fs.inodes[i].size, p requires 0 <= p < fs.inodes[i].size => ByteAt(fs, i, p))
  }

  /** Every block below the size of file i is mapped. */
  ghost predicate NoHole(fs: Fs, i: nat) {
    && i < |fs.inodes| && |fs.inodes[i].addrs| == NDIRECT + 1 && fs.inodes[i].size <= MAXFILE * BSIZE
    && forall n :: 0 <= n < MAXFILE && n * BSIZE < fs.inodes[i].size ==> Data(fs, i, n) != 0
  }

  ghost predicate NoHoles(fs: Fs) {
    forall i :: 0 <= i < |fs.inodes| ==> NoHole(fs, i)
  }

  /** Only file i got new blocks; nothing that any file held has changed. */
  ghost predicate Grown(fs: Fs, fs': Fs, owner: map<nat, SlotId>, owner': map<nat, SlotId>, i: nat) {
    && |fs'.blocks| == |fs.blocks| && |fs'.inodes| == |fs.inodes| && i < |fs.inodes|
    && (forall j :: 0 <= j < |fs.inodes| && j != i ==> fs'.inodes[j] == fs.inodes[j])
    && fs'.inodes[i] == fs.inodes[i].(addrs := fs'.inodes[i].addrs)
    && (forall b :: b in owner ==> b in owner' && owner'[b] == owner[b])
    && (forall b :: b in owner' && b !in owner ==> owner'[b].i == i)
    && (forall b :: b in owner && b < |fs.blocks| && owner[b] != SlotId(i, INDIRECT) ==> fs'.blocks[b] == fs.blocks[b])
  }

  lemma GrownTwice(fs: Fs, fs1: Fs, fs2: Fs, o: map<nat, SlotId>, o1: map<nat, SlotId>, o2: map<nat, SlotId>, i: nat)
    requires Grown(fs, fs1, o, o1, i) && Grown(fs1, fs2, o1, o2, i)
    ensures Grown(fs, fs2, o, o2, i)
  {
  }

  /** A filled slot keeps its block. */
  lemma GrownSlot(sb: Super, fs: Fs, fs': Fs, o: map<nat, SlotId>, o': map<nat, SlotId>, i: nat, j: nat, k: nat)
    requires Owned(sb, fs, o, {}) && Owned(sb, fs', o', {}) && Grown(fs, fs', o, o', i)
    requires j < sb.ninodes && k < NSLOTS
    ensures Slot(fs, j, k) != 0 ==> Slot(fs', j, k) == Slot(fs, j, k)
    ensures j != i ==> Slot(fs', j, k) == Slot(fs, j, k)
  {
    var b, b' := Slot(fs, j, k), Slot(fs', j, k);
    if b != 0 {
      assert b in o && o[b] == SlotId(j, k);
    } else if j != i && b' != 0 {
      assert false;
    }
  }

  /** Mapped bytes are unchanged, and so is every other file. */
  lemma GrownByte(sb: Super, fs: Fs, fs': Fs, o: map<nat, SlotId>, o': map<nat, SlotId>, i: nat, j: nat, p: nat)
    requires Owned(sb, fs, o, {}) && Owned(sb, fs', o', {}) && Grown(fs, fs', o, o', i)
    requires j < sb.ninodes && p < MAXFILE * BSIZE && Data(fs, j, p / BSIZE) != 0
    ensures Data(fs', j, p / BSIZE) == Data(fs, j, p / BSIZE) && ByteAt(fs', j, p) == ByteAt(fs, j, p)
  {
    var k := DataSlot(p / BSIZE);
    GrownSlot(sb, fs, fs', o, o', i, j, k);
    var b := Slot(fs, j, k);
    assert b in o && o[b] == SlotId(j, k);
  }

  /** The one block b changes: only the bytes of its owner's block do. */
  lemma StoredByte(sb: Super, fs: Fs, o: map<nat, SlotId>, b: nat, data: Block, i: nat, n: nat, j: nat, p: nat)
    requires Owned(sb, fs, o, {}) && i < sb.ninodes && n < MAXFILE && b == Data(fs, i, n) != 0
    requires j < sb.ninodes && p < MAXFILE * BSIZE
    ensures b < sb.size
    ensures var fs' := fs.(blocks := fs.blocks[b := data]);
      && Owned(sb, fs', o, {})
      && Data(fs', j, p / BSIZE) == Data(fs, j, p / BSIZE)
      && ByteAt(fs', j, p) == if j == i && p / BSIZE == n then data.bytes[p % BSIZE] else ByteAt(fs, j, p)
  {
    assert b in o && o[b] == SlotId(i, DataSlot(n));
    var fs' := fs.(blocks := fs.blocks[b := data]);
    StoreKeepsOwned(sb, fs, o, {}, b, data);
    var m := p / BSIZE;
    assert fs.inodes[j].addrs[INDIRECT] == Slot(fs, j, INDIRECT);
    SameSlots(sb, fs, fs', j);
    var c := Data(fs, j, m);
    if c == b {
      assert o[c] == SlotId(j, DataSlot(m));
    }
  }

  /** Files other than i kept their inodes, blocks and block contents. */
  ghost predicate OthersKept(fs: Fs, fs': Fs, o: map<nat, SlotId>, o': map<nat, SlotId>, i: nat) {
    && |fs'.blocks| == |fs.blocks| && |fs'.inodes| == |fs.inodes|
    && (forall j :: 0 <= j < |fs.inodes| && j != i ==> fs'.inodes[j] == fs.inodes[j])
    && (forall b :: b in o && o[b].i != i ==> b in o' && o'[b] == o[b])
    && (forall b :: b in o && o[b].i != i && b < |fs.blocks| ==> fs'.blocks[b] == fs.blocks[b])
    && (forall b :: b in o' && o'[b].i != i ==> b in o && o[b] == o'[b])
  }

  lemma OtherSlot(sb: Super, fs: Fs, fs': Fs, o: map<nat, SlotId>, o': map<nat, SlotId>, i: nat, j: nat, k: nat)
    requires Owned(sb, fs, o, {}) && Owned(sb, fs', o', {}) && OthersKept(fs, fs', o, o', i)
    requires j < sb.ninodes && j != i && k < NSLOTS
    ensures Slot(fs', j, k) == Slot(fs, j, k)
  {
    var b, b' := Slot(fs, j, k), Slot(fs', j, k);
    assert b != 0 ==> b in o && o[b] == SlotId(j, k);
    assert b' != 0 ==> b' in o' && o'[b'] == SlotId(j, k);
  }

  lemma OtherByte(sb: Super, fs: Fs, fs': Fs, o: map<nat, SlotId>, o': map<nat, SlotId>, i: nat, j: nat, p: nat)
    requires Owned(sb, fs, o, {}) && Owned(sb, fs', o', {}) && OthersKept(fs, fs', o, o', i)
    requires j < sb.ninodes && j != i && p < MAXFILE * BSIZE && Data(fs, j, p / BSIZE) != 0
    ensures ByteAt(fs', j, p) == ByteAt(fs, j, p)
  {
    OtherSlot(sb, fs, fs', o, o', i, j, DataSlot(p / BSIZE));
    var b := Data(fs, j, p / BSIZE);
    assert b in o && o[b].i == j;
  }

  lemma MappedBelow(fs: Fs, i: nat, p: nat)
    requires NoHole(fs, i) && p < fs.inodes[i].size
    ensures p / BSIZE < MAXFILE && Data(fs, i, p / BSIZE) != 0
  {
  }

  lemma OtherNoHole(sb: Super, fs: Fs, fs': Fs, o: map<nat, SlotId>, o': map<nat, SlotId>, i: nat, j: nat)
    requires Owned(sb, fs, o, {}) && Owned(sb, fs', o', {}) && OthersKept(fs, fs', o, o', i)
    requires j < sb.ninodes && j != i && NoHole(fs, j)
    ensures NoHole(fs', j)
  {
    forall n | 0 <= n < MAXFILE && n * BSIZE < fs'.inodes[j].size
      ensures Data(fs', j, n) != 0
    {
      OtherSlot(sb, fs, fs', o, o', i, j, DataSlot(n));
      assert Data(fs, j, n) != 0;
    }
  }

  /** A file that was not written reads the same. */
  lemma OtherFile(sb: Super, fs: Fs, fs': Fs, o: map<nat, SlotId>, o': map<nat, SlotId>, i: nat, j: nat)
    requires Owned(sb, fs, o, {}) && Owned(sb, fs', o', {}) && OthersKept(fs, fs', o, o', i)
    requires j < sb.ninodes && j != i && NoHole(fs, j)
    ensures NoHole(fs', j) && File(fs', j) == File(fs, j)
  {
    OtherNoHole(sb, fs, fs', o, o', i, j);
    var f, f' := File(fs, j), File(fs', j);
    forall p | 0 <= p < |f|
      ensures f'[p] == f[p]
    {
      MappedBelow(fs, j, p);
      OtherByte(sb, fs, fs', o, o', i, j, p);
    }
  }

  /** data now stands at offset off of file i; all other mapped bytes are unchanged. */
  ghost predicate Overlaid(fs: Fs, fs': Fs, i: nat, off: nat, data: seq<byte>) {
    && i < |fs.inodes| == |fs'.inodes| && |fs.inodes[i].addrs| == |fs'.inodes[i].addrs| == NDIRECT + 1
    && (forall p :: 0 <= p < MAXFILE * BSIZE && off <= p < off + |data| ==>
          Data(fs', i, p / BSIZE) != 0 && ByteAt(fs', i, p) == data[p - off])
    && (forall p :: 0 <= p < MAXFILE * BSIZE && !(off <= p < off + |data|) && Data(fs, i, p / BSIZE) != 0 ==>
          ByteAt(fs', i, p) == ByteAt(fs, i, p))
    && (forall n :: 0 <= n < MAXFILE && Data(fs, i, n) != 0 ==> Data(fs', i, n) == Data(fs, i, n))
  }

  lemma OverlaidTwice(fs: Fs, fs1: Fs, fs2: Fs, i: nat, off: nat, d1: seq<byte>, d2: seq<byte>)
    requires Overlaid(fs, fs1, i, off, d1) && Overlaid(fs1, fs2, i, off + |d1|, d2)
    requires off + |d1| + |d2| <= MAXFILE * BSIZE
    ensures Overlaid(fs, fs2, i, off, d1 + d2)
  {
    forall p | 0 <= p < MAXFILE * BSIZE && off <= p < off + |d1 + d2|
      ensures Data(fs2, i, p / BSIZE) != 0 && ByteAt(fs2, i, p) == (d1 + d2)[p - off]
    {
      if p < off + |d1| {
        assert ByteAt(fs1, i, p) == d1[p - off];
        assert ByteAt(fs2, i, p) == ByteAt(fs1, i, p);
      }
    }
    forall p | 0 <= p < MAXFILE * BSIZE && !(off <= p < off + |d1 + d2|) && Data(fs, i, p / BSIZE) != 0
      ensures ByteAt(fs2, i, p) == ByteAt(fs, i, p)
    {
      assert ByteAt(fs1, i, p) == ByteAt(fs, i, p);
    }
  }

  /** The bytes of block x with data placed at lo. */
  function Patched(x: Block, lo: nat, data: seq<byte>): (y: Block)
    requires lo + |data| <= BSIZE
  {
    Block(x.bytes[..lo] + data + x.bytes[lo + |data|..])
  }

  lemma PatchedByte(sb: Super, fs: Fs, o: map<nat, SlotId>, i: nat, off: nat, data: seq<byte>, b: nat, fs': Fs, p: nat)
    requires Owned(sb, fs, o, {}) && i < sb.ninodes && off < MAXFILE * BSIZE && off % BSIZE + |data| <= BSIZE
    requires b == Data(fs, i, off / BSIZE) != 0 && b < sb.size && p < MAXFILE * BSIZE
    requires fs' == fs.(blocks := fs.blocks[b := Patched(fs.blocks[b], off % BSIZE, data)])
    ensures Data(fs', i, p / BSIZE) == Data(fs, i, p / BSIZE)
    ensures off <= p < off + |data| ==> Data(fs', i, p / BSIZE) != 0 && ByteAt(fs', i, p) == data[p - off]
    ensures !(off <= p < off + |data|) ==> ByteAt(fs', i, p) == ByteAt(fs, i, p)
  {
    StoredByte(sb, fs, o, b, Patched(fs.blocks[b], off % BSIZE, data), i, off / BSIZE, i, p);
    WithinBlock(off, |data|, p);
  }

  /** writei's store into a mapped block. */
  lemma PatchOverlays(sb: Super, fs: Fs, o: map<nat, SlotId>, i: nat, off: nat, data: seq<byte>, b: nat, fs': Fs)
    requires Owned(sb, fs, o, {}) && i < sb.ninodes && off < MAXFILE * BSIZE && off % BSIZE + |data| <= BSIZE
    requires b == Data(fs, i, off / BSIZE) != 0 && b < sb.size
    requires fs' == fs.(blocks := fs.blocks[b := Patched(fs.blocks[b], off % BSIZE, data)])
    ensures Owned(sb, fs', o, {}) && Overlaid(fs, fs', i, off, data) && OthersKept(fs, fs', o, o, i)
  {
    assert b in o && o[b] == SlotId(i, DataSlot(off / BSIZE));
    StoreKeepsOwned(sb, fs, o, {}, b, fs'.blocks[b]);
    forall p | 0 <= p < MAXFILE * BSIZE
      ensures Data(fs', i, p / BSIZE) == Data(fs, i, p / BSIZE)
      ensures off <= p < off + |data| ==> Data(fs', i, p / BSIZE) != 0 && ByteAt(fs', i, p) == data[p - off]
      ensures !(off <= p < off + |data|) ==> ByteAt(fs', i, p) == ByteAt(fs, i, p)
    {
      PatchedByte(sb, fs, o, i, off, data, b, fs', p);
    }
    forall m | 0 <= m < MAXFILE
      ensures Data(fs', i, m) == Data(fs, i, m)
    {
      PatchedByte(sb, fs, o, i, off, data, b, fs', m * BSIZE);
    }
  }

  /** Mapping new blocks overlays nothing. */
  lemma GrownOverlays(sb: Super, fs: Fs, fs': Fs, o: map<nat, SlotId>, o': map<nat, SlotId>, i: nat, off: nat)
    requires Owned(sb, fs, o, {}) && Owned(sb, fs', o', {}) && Grown(fs, fs', o, o', i) && i < sb.ninodes
    ensures Overlaid(fs, fs', i, off, []) && OthersKept(fs, fs', o, o', i)
  {
    forall p | 0 <= p < MAXFILE * BSIZE && Data(fs, i, p / BSIZE) != 0
      ensures ByteAt(fs', i, p) == ByteAt(fs, i, p)
    {
      GrownByte(sb, fs, fs', o, o', i, i, p);
    }
    forall m | 0 <= m < MAXFILE && Data(fs, i, m) != 0
      ensures Data(fs', i, m) == Data(fs, i, m)
    {
      GrownSlot(sb, fs, fs', o, o', i, i, DataSlot(m));
    }
  }

  lemma OthersKeptTwice(fs: Fs, fs1: Fs, fs2: Fs, o: map<nat, SlotId>, o1: map<nat, SlotId>, o2: map<nat, SlotId>,
                        i: nat)
    requires OthersKept(fs, fs1, o, o1, i) && OthersKept(fs1, fs2, o1, o2, i)
    ensures OthersKept(fs, fs2, o, o2, i)
  {
  }

  lemma WithinBlock(off: nat, len: nat, p: nat)
    requires off % BSIZE + len <= BSIZE
    ensures off <= p < off + len <==> p / BSIZE == off / BSIZE && off % BSIZE <= p % BSIZE < off % BSIZE + len
  {
  }
}
