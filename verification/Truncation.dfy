/** What itrunc does to ownership: one slot, or the indirect block with all its
    entries, at a time. */
module Truncation {
  import opened Blocks
  import opened Common
  import opened Inodes
  import opened Files

  /** b is a block of the free bitmap. */
  predicate InBitmap(sb: Super, b: nat) {
    sb.bmapstart <= b <= sb.bmapstart + (sb.size - 1) / BPB
  }

  /** The bitmap blocks of the blocks in s. */
  ghost function MapBlocks(sb: Super, s: set<nat>): set<nat> {
    set b | b in s :: sb.Bblock(b)
  }

  /** Since l0 the bitmap blocks of the blocks in s have been logged, and no others; folded. */
  ghost predicate Frees(sb: Super, l0: set<nat>, l: set<nat>, s: set<nat>) {
    forall u {:trigger Open(u)} :: Open(u) ==> l == l0 + MapBlocks(sb, s)
  }

  lemma FreesNone(sb: Super, l: set<nat>)
    ensures Frees(sb, l, l, {})
  {
    assert MapBlocks(sb, {}) == {};
  }

  lemma FreesOne(sb: Super, l0: set<nat>, l: set<nat>, s: set<nat>, b: nat, l': set<nat>, s': set<nat>)
    requires Frees(sb, l0, l, s) && l' == l + {sb.Bblock(b)} && s' == s + {b}
    ensures Frees(sb, l0, l', s')
  {
    assert Open(0);
    assert MapBlocks(sb, s') == MapBlocks(sb, s) + {sb.Bblock(b)};
  }

  lemma FreesBoth(sb: Super, l0: set<nat>, l: set<nat>, s: set<nat>, l': set<nat>, r: set<nat>, s': set<nat>)
    requires Frees(sb, l0, l, s) && Frees(sb, l, l', r) && s' == s + r
    ensures Frees(sb, l0, l', s')
  {
    assert Open(0);
    assert MapBlocks(sb, s') == MapBlocks(sb, s) + MapBlocks(sb, r);
  }

  lemma MapsInBitmap(sb: Super, l0: set<nat>, l: set<nat>, s: set<nat>)
    requires Frees(sb, l0, l, s) && forall b :: b in s ==> b < sb.size
    ensures l == l0 + MapBlocks(sb, s) && forall b :: b in l - l0 ==> InBitmap(sb, b)
  {
    assert Open(0);
  }

  /** bfree's check passes on b, and its bit lies in the bitmap. */
  ghost predicate Freeable(sb: Super, fs: Fs, b: nat) {
    && b < |fs.blocks| && sb.Bblock(b) < |fs.blocks| && InBitmap(sb, sb.Bblock(b)) && sb.Bblock(b) < sb.nmeta
    && Used(sb, fs.blocks, b)
  }

  /** fs with b marked free. */
  function Unmarked(sb: Super, fs: Fs, b: nat): (r: Fs)
    requires b < |fs.blocks| && sb.Bblock(b) < |fs.blocks|
  {
    fs.(blocks := MarkBlock(sb, fs.blocks, b, false))
  }

  /** Freeing a loose block. */
  lemma LooseFreed(sb: Super, fs: Fs, o: map<nat, SlotId>, loose: set<nat>, b: nat, loose': set<nat>)
    requires Owned(sb, fs, o, loose) && b in loose && loose' == loose - {b}
    ensures Freeable(sb, fs, b) && Owned(sb, Unmarked(sb, fs, b), o, loose')
  {
    InMap(sb, b);
    MarkOwned(sb, fs, o, loose, b, false);
  }

  /** Since fs0 the first n direct slots of file i were emptied and their blocks freed. */
  ghost predicate Cleared(sb: Super, fs0: Fs, o0: map<nat, SlotId>, fs: Fs, o: map<nat, SlotId>, i: nat, n: nat) {
    && Owned(sb, fs, o, {}) && i < sb.ninodes && OthersKept(fs0, fs, o0, o, i)
    && |fs0.inodes[i].addrs| == NDIRECT + 1 && n <= NDIRECT
    && fs.inodes[i] == fs0.inodes[i].(addrs := fs.inodes[i].addrs)
    && (forall k :: 0 <= k <= NDIRECT ==> fs.inodes[i].addrs[k] == if k < n then 0 else fs0.inodes[i].addrs[k])
  }

  lemma DirectFreed(sb: Super, fs: Fs, o: map<nat, SlotId>, i: nat, k: nat, b: nat)
    requires Owned(sb, fs, o, {}) && i < sb.ninodes && k < NDIRECT && b == Slot(fs, i, k) != 0
    ensures Freeable(sb, fs, b) && Owned(sb, SetAddr(Unmarked(sb, fs, b), i, k, 0), o - {b}, {})
  {
    DetachDirect(sb, fs, o, {}, i, k, b);
    var fs1 := SetAddr(fs, i, k, 0);
    LooseFreed(sb, fs1, o - {b}, {} + {b}, b, {});
    assert SetAddr(Unmarked(sb, fs, b), i, k, 0) == Unmarked(sb, fs1, b);
  }

  lemma DirectOthers(sb: Super, fs: Fs, o: map<nat, SlotId>, i: nat, k: nat, b: nat)
    requires Owned(sb, fs, o, {}) && i < sb.ninodes && k < NDIRECT && b == Slot(fs, i, k) != 0 && Freeable(sb, fs, b)
    ensures OthersKept(fs, SetAddr(Unmarked(sb, fs, b), i, k, 0), o, o - {b}, i)
  {
    assert b in o && o[b] == SlotId(i, k);
  }

  lemma FreedDirect(sb: Super, fs0: Fs, o0: map<nat, SlotId>, fs: Fs, o: map<nat, SlotId>, i: nat, k: nat, b: nat)
    requires Cleared(sb, fs0, o0, fs, o, i, k) && k < NDIRECT && b == fs.inodes[i].addrs[k] != 0
    ensures Freeable(sb, fs, b) && Cleared(sb, fs0, o0, SetAddr(Unmarked(sb, fs, b), i, k, 0), o - {b}, i, k + 1)
  {
    assert b == Slot(fs, i, k);
    DirectFreed(sb, fs, o, i, k, b);
    DirectOthers(sb, fs, o, i, k, b);
    OthersKeptTwice(fs0, fs, SetAddr(Unmarked(sb, fs, b), i, k, 0), o0, o, o - {b}, i);
  }

  /** The same, with what was logged meanwhile; folded. */
  ghost predicate Directs(sb: Super, fs0: Fs, o0: map<nat, SlotId>, fs: Fs, o: map<nat, SlotId>, i: nat, n: nat,
                          l0: set<nat>, l: set<nat>) {
    forall u {:trigger Open(u)} :: Open(u) ==>
      Cleared(sb, fs0, o0, fs, o, i, n) && o.Keys <= o0.Keys && Frees(sb, l0, l, o0.Keys - o.Keys)
  }

  lemma DirectsStart(sb: Super, fs: Fs, o: map<nat, SlotId>, i: nat, l: set<nat>)
    requires Owned(sb, fs, o, {}) && i < sb.ninodes
    ensures Directs(sb, fs, o, fs, o, i, 0, l, l)
  {
    FreesNone(sb, l);
    assert o.Keys - o.Keys == {};
  }

  lemma DirectsNext(sb: Super, fs0: Fs, o0: map<nat, SlotId>, fs: Fs, o: map<nat, SlotId>, i: nat, k: nat,
                    l0: set<nat>, l: set<nat>, b: nat, k': nat)
    requires Directs(sb, fs0, o0, fs, o, i, k, l0, l) && k < NDIRECT && k' == k + 1
    requires i < |fs.inodes| && |fs.inodes[i].addrs| == NDIRECT + 1 && b == fs.inodes[i].addrs[k]
    ensures b == 0 ==> Directs(sb, fs0, o0, fs, o, i, k', l0, l)
    ensures b != 0 ==>
      && Freeable(sb, fs, b) && Shaped(sb, fs) && b < sb.size
      && Directs(sb, fs0, o0, SetAddr(Unmarked(sb, fs, b), i, k, 0), o - {b}, i, k', l0, l + {sb.Bblock(b)})
  {
    assert Open(0);
    if b != 0 {
      assert b == Slot(fs, i, k);
      FreedDirect(sb, fs0, o0, fs, o, i, k, b);
      GoneOne(o0, o, b);
      FreesOne(sb, l0, l, o0.Keys - o.Keys, b, l + {sb.Bblock(b)}, o0.Keys - (o - {b}).Keys);
    }
  }

  lemma GoneOne(o0: map<nat, SlotId>, o: map<nat, SlotId>, b: nat)
    requires o.Keys <= o0.Keys && b in o
    ensures o0.Keys - (o - {b}).Keys == (o0.Keys - o.Keys) + {b} && (o - {b}).Keys <= o0.Keys
  {
  }

  lemma GoneAll(o0: map<nat, SlotId>, o1: map<nat, SlotId>, s: set<nat>)
    requires o1.Keys <= o0.Keys && s <= o1.Keys
    ensures o0.Keys - (o1 - s).Keys == (o0.Keys - o1.Keys) + s
  {
  }

  lemma IndirectIn(o: map<nat, SlotId>, i: nat)
    ensures IndirectBlocks(o, i) <= o.Keys
  {
  }

  /** What itrunc logs, but for the inode. */
  lemma TruncLogs(sb: Super, fs: Fs, o0: map<nat, SlotId>, o1: map<nat, SlotId>, o2: map<nat, SlotId>, i: nat,
                  l0: set<nat>, l1: set<nat>, l2: set<nat>)
    requires o1.Keys <= o0.Keys && o2 == o1 - IndirectBlocks(o1, i) && Owned(sb, fs, o0, {})
    requires Frees(sb, l0, l1, o0.Keys - o1.Keys) && Frees(sb, l1, l2, IndirectBlocks(o1, i))
    ensures l2 == l0 + MapBlocks(sb, o0.Keys - o2.Keys) && forall b :: b in l2 - l0 ==> InBitmap(sb, b)
  {
    IndirectIn(o1, i);
    GoneAll(o0, o1, IndirectBlocks(o1, i));
    FreesBoth(sb, l0, l1, o0.Keys - o1.Keys, l2, IndirectBlocks(o1, i), o0.Keys - o2.Keys);
    MapsInBitmap(sb, l0, l2, o0.Keys - o2.Keys);
  }

  /** Entry e of the indirect block of file i. */
  function Entry(fs: Fs, i: nat, e: nat): (b: nat)
    requires i < |fs.inodes| && |fs.inodes[i].addrs| == NDIRECT + 1 && e < NINDIRECT
  {
    Slot(fs, i, INDIRECT + 1 + e)
  }

  /** The blocks that the first n entries of file i's indirect block list. */
  ghost function Listed(fs: Fs, i: nat, n: nat): set<nat>
    requires i < |fs.inodes| && |fs.inodes[i].addrs| == NDIRECT + 1 && n <= NINDIRECT
  {
    set e | 0 <= e < n && Entry(fs, i, e) != 0 :: Entry(fs, i, e)
  }

  /** Since fs0 the first n entries of file i's indirect block were freed; with the
      indirect block detached, what is left of it and its entries is loose. */
  ghost predicate Listing(sb: Super, fs0: Fs, o: map<nat, SlotId>, fs: Fs, i: nat, n: nat) {
    && Owned(sb, fs0, o, {}) && i < sb.ninodes && n <= NINDIRECT && fs.inodes == fs0.inodes
    && Owned(sb, SetAddr(fs, i, INDIRECT, 0), o - IndirectBlocks(o, i), IndirectBlocks(o, i) - Listed(fs0, i, n))
    && forall b :: sb.nmeta <= b < sb.size ==> fs.blocks[b] == fs0.blocks[b]
  }

  lemma ListingStarts(sb: Super, fs: Fs, o: map<nat, SlotId>, i: nat)
    requires Owned(sb, fs, o, {}) && i < sb.ninodes
    ensures Listing(sb, fs, o, fs, i, 0)
  {
    DetachIndirect(sb, fs, o, {}, i);
    assert {} + IndirectBlocks(o, i) == IndirectBlocks(o, i) - Listed(fs, i, 0);
  }

  lemma ListedOwner(sb: Super, fs: Fs, o: map<nat, SlotId>, i: nat, e: nat, b: nat)
    requires Owned(sb, fs, o, {}) && i < sb.ninodes && e < NINDIRECT && b == Entry(fs, i, e) != 0
    ensures b in IndirectBlocks(o, i) && b !in Listed(fs, i, e)
    ensures Listed(fs, i, e + 1) == Listed(fs, i, e) + {b}
  {
    assert b in o && o[b] == SlotId(i, INDIRECT + 1 + e);
    forall d | 0 <= d < e && Entry(fs, i, d) == b
      ensures false
    {
    }
  }

  /** The entries freed so far, with what was logged meanwhile; folded. */
  ghost predicate Listings(sb: Super, fs0: Fs, o: map<nat, SlotId>, fs: Fs, i: nat, n: nat, l0: set<nat>, l: set<nat>) {
    forall u {:trigger Open(u)} :: Open(u) ==>
      Listing(sb, fs0, o, fs, i, n) && Frees(sb, l0, l, Listed(fs0, i, n))
  }

  lemma ListingsStart(sb: Super, fs: Fs, o: map<nat, SlotId>, i: nat, l: set<nat>)
    requires Owned(sb, fs, o, {}) && i < sb.ninodes
    ensures Listings(sb, fs, o, fs, i, 0, l, l)
  {
    ListingStarts(sb, fs, o, i);
    FreesNone(sb, l);
    assert Listed(fs, i, 0) == {};
  }

  lemma ListingsNext(sb: Super, fs0: Fs, o: map<nat, SlotId>, fs: Fs, i: nat, j: nat, l0: set<nat>, l: set<nat>, b: nat,
                    j': nat)
    requires Listings(sb, fs0, o, fs, i, j, l0, l) && j < NINDIRECT && j' == j + 1
    requires i < |fs0.inodes| && |fs0.inodes[i].addrs| == NDIRECT + 1 && b == Entry(fs0, i, j)
    ensures b == 0 ==> Listings(sb, fs0, o, fs, i, j', l0, l)
    ensures b != 0 ==>
      && Freeable(sb, fs, b) && Shaped(sb, fs) && b < sb.size
      && Listings(sb, fs0, o, Unmarked(sb, fs, b), i, j', l0, l + {sb.Bblock(b)})
  {
    assert Open(0);
    ListingStep(sb, fs0, o, fs, i, j, b);
    ListedNext(sb, fs0, o, i, j, l0, l, if b == 0 then l else l + {sb.Bblock(b)});
    if b != 0 {
      assert b in o;
    }
  }

  lemma ListedNext(sb: Super, fs: Fs, o: map<nat, SlotId>, i: nat, j: nat, l0: set<nat>, l: set<nat>, l': set<nat>)
    requires Owned(sb, fs, o, {}) && i < sb.ninodes && j < NINDIRECT && Frees(sb, l0, l, Listed(fs, i, j))
    requires l' == if Entry(fs, i, j) == 0 then l else l + {sb.Bblock(Entry(fs, i, j))}
    ensures Frees(sb, l0, l', Listed(fs, i, j + 1))
  {
    var b := Entry(fs, i, j);
    if b == 0 {
      assert Listed(fs, i, j + 1) == Listed(fs, i, j);
    } else {
      ListedOwner(sb, fs, o, i, j, b);
      FreesOne(sb, l0, l, Listed(fs, i, j), b, l', Listed(fs, i, j + 1));
    }
  }

  lemma ListingStep(sb: Super, fs0: Fs, o: map<nat, SlotId>, fs: Fs, i: nat, j: nat, b: nat)
    requires Listing(sb, fs0, o, fs, i, j) && j < NINDIRECT && b == Entry(fs0, i, j)
    ensures b == 0 ==> Listing(sb, fs0, o, fs, i, j + 1)
    ensures b != 0 ==> Freeable(sb, fs, b) && Listing(sb, fs0, o, Unmarked(sb, fs, b), i, j + 1)
  {
    if b == 0 {
      assert Listed(fs0, i, j + 1) == Listed(fs0, i, j);
    } else {
      ListedOwner(sb, fs0, o, i, j, b);
      var gone := IndirectBlocks(o, i);
      LooseFreed(sb, SetAddr(fs, i, INDIRECT, 0), o - gone, gone - Listed(fs0, i, j), b, gone - Listed(fs0, i, j + 1));
      assert SetAddr(Unmarked(sb, fs, b), i, INDIRECT, 0) == Unmarked(sb, SetAddr(fs, i, INDIRECT, 0), b);
    }
  }

  /** The indirect block itself is what remains after its entries. */
  lemma AllListed(sb: Super, fs: Fs, o: map<nat, SlotId>, i: nat, b: nat)
    requires Owned(sb, fs, o, {}) && i < sb.ninodes && b == Slot(fs, i, INDIRECT) != 0
    ensures IndirectBlocks(o, i) - Listed(fs, i, NINDIRECT) == {b}
  {
    assert b in o && o[b] == SlotId(i, INDIRECT);
    forall x | x in IndirectBlocks(o, i) && x != b
      ensures x in Listed(fs, i, NINDIRECT)
    {
      assert Slot(fs, i, o[x].k) == x;
      assert x == Entry(fs, i, o[x].k - INDIRECT - 1);
    }
    forall e | 0 <= e < NINDIRECT && Entry(fs, i, e) == b
      ensures false
    {
    }
  }

  lemma ListingEnds(sb: Super, fs0: Fs, o: map<nat, SlotId>, fs: Fs, i: nat, b: nat)
    requires Listing(sb, fs0, o, fs, i, NINDIRECT) && b == Slot(fs0, i, INDIRECT) != 0
    ensures Freeable(sb, fs, b)
    ensures var fs' := SetAddr(Unmarked(sb, fs, b), i, INDIRECT, 0);
      var o' := o - IndirectBlocks(o, i);
      Owned(sb, fs', o', {}) && OthersKept(fs0, fs', o, o', i)
  {
    AllListed(sb, fs0, o, i, b);
    LooseFreed(sb, SetAddr(fs, i, INDIRECT, 0), o - IndirectBlocks(o, i), {b}, b, {});
    assert SetAddr(Unmarked(sb, fs, b), i, INDIRECT, 0) == Unmarked(sb, SetAddr(fs, i, INDIRECT, 0), b);
  }

  lemma NoIndirect(sb: Super, fs: Fs, o: map<nat, SlotId>, i: nat)
    requires Owned(sb, fs, o, {}) && i < sb.ninodes && Slot(fs, i, INDIRECT) == 0
    ensures IndirectBlocks(o, i) == {} && o - {} == o
  {
    assert forall b :: b in o ==> Slot(fs, o[b].i, o[b].k) == b;
  }

  /** The owners other than slots of i, and no more. */
  ghost predicate Emptied(o: map<nat, SlotId>, o': map<nat, SlotId>, i: nat) {
    && (forall b :: b in o' <==> b in o && o[b].i != i)
    && (forall b :: b in o' ==> o'[b] == o[b])
  }

  /** A file without blocks owns none. */
  lemma OwnsNone(sb: Super, fs0: Fs, o0: map<nat, SlotId>, fs: Fs, o: map<nat, SlotId>, i: nat)
    requires Owned(sb, fs, o, {}) && OthersKept(fs0, fs, o0, o, i) && i < sb.ninodes
    requires forall k :: 0 <= k <= INDIRECT ==> fs.inodes[i].addrs[k] == 0
    ensures Emptied(o0, o, i)
  {
    forall b | b in o
      ensures o[b].i != i
    {
      assert Slot(fs, o[b].i, o[b].k) == b;
    }
  }

  /** An inode changes, but not its addresses. */
  lemma Restamped(sb: Super, fs: Fs, o: map<nat, SlotId>, i: nat, x: Inode)
    requires Owned(sb, fs, o, {}) && i < sb.ninodes && x.addrs == fs.inodes[i].addrs
    ensures var fs' := fs.(inodes := fs.inodes[i := x]); Owned(sb, fs', o, {}) && OthersKept(fs, fs', o, o, i)
  {
    var fs' := fs.(inodes := fs.inodes[i := x]);
    forall j, k | 0 <= j < sb.ninodes && 0 <= k < NSLOTS
      ensures Slot(fs', j, k) == Slot(fs, j, k)
    {
    }
  }

  lemma Truncated(sb: Super, fs0: Fs, o0: map<nat, SlotId>, fs1: Fs, o1: map<nat, SlotId>, fs2: Fs,
                  o2: map<nat, SlotId>, i: nat, fs3: Fs)
    requires Cleared(sb, fs0, o0, fs1, o1, i, NDIRECT) && Owned(sb, fs2, o2, {}) && OthersKept(fs1, fs2, o1, o2, i)
    requires fs2.inodes[i] == fs1.inodes[i].(addrs := fs1.inodes[i].addrs[INDIRECT := 0])
    requires fs3 == fs2.(inodes := fs2.inodes[i := fs2.inodes[i].(size := 0)])
    ensures Owned(sb, fs3, o2, {}) && OthersKept(fs0, fs3, o0, o2, i) && Emptied(o0, o2, i)
    ensures forall k :: 0 <= k <= INDIRECT ==> fs3.inodes[i].addrs[k] == 0
  {
    Restamped(sb, fs2, o2, i, fs2.inodes[i].(size := 0));
    OthersKeptTwice(fs0, fs1, fs2, o0, o1, o2, i);
    OthersKeptTwice(fs0, fs2, fs3, o0, o2, o2, i);
    OwnsNone(sb, fs0, o0, fs3, o2, i);
  }
}
