/** Address spaces over the page allocator: the invariants that tie free list, tables and
    user pages together, and what each kind of change does to them. */
module Spaces {
  import opened Blocks
  import opened Common
  import opened PageTables

  /** The free list, from page p on through the pages themselves. */
  ghost predicate Chain(mem: Mem, p: nat, free: seq<nat>)
    decreases |free|
  {
    if free == [] then p == 0
    else p == free[0] && p != 0 && p in mem && mem[p].Free? && p !in free[1..] && Chain(mem, mem[p].next, free[1..])
  }

  /** Every page of memory is either on the free list, once, or allocated. */
  ghost predicate Pool(mem: Mem, head: nat, free: seq<nat>, owner: map<nat, Own>, lo: nat, hi: nat) {
    && 0 < lo && (forall p :: p in mem <==> lo <= p < hi) && Chain(mem, head, free)
    && (forall p :: p in free ==> lo <= p < hi && p !in owner)
    && (forall p :: p in owner ==> lo <= p < hi)
    && (forall p :: lo <= p < hi ==> p in free || p in owner)
  }

  lemma {:induction false} ChainFrame(mem: Mem, mem': Mem, p: nat, free: seq<nat>)
    requires Chain(mem, p, free) && forall x :: x in free ==> x in mem && x in mem' && mem'[x] == mem[x]
    ensures Chain(mem', p, free)
    decreases |free|
  {
    if free != [] {
      ChainFrame(mem, mem', mem[p].next, free[1..]);
    }
  }

  lemma PoolPop(mem: Mem, head: nat, free: seq<nat>, owner: map<nat, Own>, lo: nat, hi: nat, page: Page)
    requires Pool(mem, head, free, owner, lo, hi) && head != 0
    ensures free != [] && head in mem && mem[head].Free? && head !in owner
    ensures Pool(mem[head := page], mem[head].next, free[1..], owner[head := Kernel], lo, hi)
  {
    assert free == [head] + free[1..];
    forall x | x in free[1..]
      ensures x in mem && x != head
    {
      assert x in free;
    }
    ChainFrame(mem, mem[head := page], mem[head].next, free[1..]);
  }

  lemma PoolPush(mem: Mem, head: nat, free: seq<nat>, owner: map<nat, Own>, lo: nat, hi: nat, p: nat)
    requires Pool(mem, head, free, owner, lo, hi) && p in owner
    ensures Pool(mem[p := Free(head)], p, [p] + free, owner - {p}, lo, hi)
  {
    assert ([p] + free)[1..] == free;
    ChainFrame(mem, mem[p := Free(head)], head, free);
  }

  /** Pages that are not on the free list may change. */
  lemma PoolFrame(mem: Mem, mem': Mem, head: nat, free: seq<nat>, owner: map<nat, Own>, owner': map<nat, Own>, lo: nat,
                  hi: nat)
    requires Pool(mem, head, free, owner, lo, hi) && mem'.Keys == mem.Keys && owner'.Keys == owner.Keys
    requires forall p :: p in mem && p !in owner ==> mem'[p] == mem[p]
    ensures Pool(mem', head, free, owner', lo, hi)
  {
    ChainFrame(mem, mem', head, free);
  }

  lemma PoolStore(mem: Mem, head: nat, free: seq<nat>, owner: map<nat, Own>, owner': map<nat, Own>, lo: nat, hi: nat,
                  p: nat, page: Page)
    requires Pool(mem, head, free, owner, lo, hi) && p in owner && owner'.Keys == owner.Keys
    ensures Pool(mem[p := page], head, free, owner', lo, hi)
  {
    PoolFrame(mem, mem[p := page], head, free, owner, owner', lo, hi);
  }

  /** User pages and user entries belong together; every valid entry is a leaf. */
  ghost predicate Leaves(mem: Mem, owner: map<nat, Own>) {
    && (forall p :: p in owner && owner[p].User? ==> UserOk(mem, owner, p))
    && (forall r, x :: Live(owner, r) && 0 <= x < TOP ==> EntryOk(mem, owner, r, x))
  }

  ghost predicate UserOk(mem: Mem, owner: map<nat, Own>, p: nat)
    requires p in owner && owner[p].User?
  {
    var o := owner[p];
    && Live(owner, o.root) && o.vpn < MAXPAGE && Entry(mem, o.root, o.vpn).V() && Entry(mem, o.root, o.vpn).ppn == p
    && p in mem && mem[p].Data? && |mem[p].bytes| == PGSIZE
  }

  ghost predicate EntryOk(mem: Mem, owner: map<nat, Own>, r: nat, x: nat) {
    var e := Entry(mem, r, x);
    && (e.V() ==> e.Leaf() && x < MAXPAGE)
    && (e.U() ==> e.ppn in owner && owner[e.ppn] == User(r, x))
  }

  /** From one state to another only tables were added; the flat maps, the user pages and
      the kernel's pages are as they were. */
  ghost predicate Extended(mem: Mem, owner: map<nat, Own>, mem': Mem, owner': map<nat, Own>) {
    && mem'.Keys == mem.Keys
    && (forall p :: p in owner ==> p in owner' && owner'[p] == owner[p])
    && (forall p :: p in owner && !owner[p].Tab? && p in mem ==> mem'[p] == mem[p])
    && (forall p :: p in owner' && p !in owner ==> owner'[p].Tab? && owner'[p].level < 2)
    && (forall r, x :: Live(owner, r) && 0 <= x < TOP ==> Entry(mem', r, x) == Entry(mem, r, x))
  }

  lemma ExtendedTwice(mem: Mem, owner: map<nat, Own>, mem1: Mem, owner1: map<nat, Own>, mem2: Mem,
                      owner2: map<nat, Own>)
    requires Extended(mem, owner, mem1, owner1) && Extended(mem1, owner1, mem2, owner2)
    ensures Extended(mem, owner, mem2, owner2)
  {
  }

  lemma ExtendedLeaves(mem: Mem, owner: map<nat, Own>, mem': Mem, owner': map<nat, Own>)
    requires Leaves(mem, owner) && Extended(mem, owner, mem', owner')
    ensures Leaves(mem', owner')
  {
    forall p | p in owner' && owner'[p].User?
      ensures UserOk(mem', owner', p)
    {
      assert UserOk(mem, owner, p);
    }
    forall r, x | Live(owner', r) && 0 <= x < TOP
      ensures EntryOk(mem', owner', r, x)
    {
      assert Live(owner, r) && EntryOk(mem, owner, r, x);
    }
  }

  /** PX(level, va) chains: the prefix of the table for a virtual page at a level. */
  function Prefix(vpn: nat, level: nat): nat {
    if level == 0 then vpn / 512 else if level == 1 then vpn / 512 / 512 else 0
  }

  /** The number of pages that size > 0 bytes from va touch. */
  function Pages(va: nat, size: nat): int { (va + size - 1) / PGSIZE - va / PGSIZE + 1 }

  ghost predicate MappableAt(mem: Mem, owner: map<nat, Own>, root: nat, a: nat, ppn: nat, flags: nat, give: bool,
                             k: nat) {
    Mappable(mem, owner, root, a + k, Pte(ppn + k, WithV(flags)), give)
  }

  lemma PageOf(vpn: nat)
    requires vpn < MAXPAGE
    ensures vpn * PGSIZE < MAXVA && vpn * PGSIZE / PGSIZE == vpn
  {
  }

  lemma EntryIn(mem: Mem, owner: map<nat, Own>, root: nat, vpn: nat, t: nat)
    requires Linked(mem, owner) && Live(owner, root) && vpn < MAXPAGE && t == TableAt(mem, root, 0, vpn / 512) != 0
    ensures t in owner && owner[t].Tab? && t in mem && mem[t].Table? && |mem[t].ptes| == NPTE
    ensures Entry(mem, root, vpn) == if mem[t].ptes[vpn % 512].V() then mem[t].ptes[vpn % 512] else NOPTE
  {
    AtOwned(mem, owner, root, 0, vpn / 512);
    assert TableOk(mem, owner, t);
  }

  /** What is left of a range can still be mapped. */
  lemma MappableYet(mem: Mem, owner: map<nat, Own>, mem': Mem, owner': map<nat, Own>, root: nat, a: nat, m: nat,
                    ppn: nat, flags: nat, give: bool, b: nat, pa: nat)
    requires MappedRange(mem, owner, mem', owner', root, a, m, ppn, flags, give) && b == a + m && pa == ppn + m
    requires MappableAt(mem, owner, root, a, ppn, flags, give, m)
    ensures Mappable(mem', owner', root, b, Pte(pa, WithV(flags)), give)
    ensures Entry(mem', root, b) == Entry(mem, root, b)
  {
  }

  lemma MappedAfter(mem0: Mem, owner0: map<nat, Own>, mem1: Mem, owner1: map<nat, Own>, mem: Mem, owner: map<nat, Own>,
                    root: nat, a: nat, m: nat, ppn: nat, flags: nat, give: bool, b: nat, pa: nat, r: int, done: nat)
    requires MappedRange(mem0, owner0, mem1, owner1, root, a, m, ppn, flags, give) && b == a + m && pa == ppn + m
    requires done == if r == 0 then m + 1 else m
    requires if r == 0 then MappedRange(mem1, owner1, mem, owner, root, b, 1, pa, flags, give)
      else Extended(mem1, owner1, mem, owner)
    ensures MappedRange(mem0, owner0, mem, owner, root, a, done, ppn, flags, give)
  {
    if r == 0 {
      MappedMore(mem0, owner0, mem1, owner1, mem, owner, root, a, m, ppn, flags, give, 1);
    } else {
      MappedNone(mem1, owner1, mem, owner, root, b, pa, flags, give);
      MappedMore(mem0, owner0, mem1, owner1, mem, owner, root, a, m, ppn, flags, give, 0);
    }
  }

  lemma Below(mem: Mem, owner: map<nat, Own>, root: nat, vpn: nat, level: nat, q: nat, prefix: nat)
    requires Linked(mem, owner) && Live(owner, root) && 1 <= level <= 2 && vpn < MAXPAGE
    requires q == TableAt(mem, root, level, Prefix(vpn, level)) != 0 && prefix == Prefix(vpn, level - 1)
    ensures prefix < Places(level - 1) && prefix / 512 == Prefix(vpn, level)
    ensures q in mem && mem[q].Table? && |mem[q].ptes| == NPTE
    ensures TableAt(mem, root, level - 1, prefix) ==
      if mem[q].ptes[prefix % 512].V() then mem[q].ptes[prefix % 512].ppn else 0
    ensures mem[q].ptes[prefix % 512].V() ==> mem[q].ptes[prefix % 512].ppn != 0
  {
    AtOwned(mem, owner, root, level, Prefix(vpn, level));
    assert TableOk(mem, owner, q) && LinkOk(mem, owner, q, prefix % 512);
    if mem[q].ptes[prefix % 512].V() {
      assert TableOk(mem, owner, mem[q].ptes[prefix % 512].ppn);
    }
  }

  lemma NoTable(mem: Mem, root: nat, vpn: nat, level: nat)
    requires level <= 1 && TableAt(mem, root, level, Prefix(vpn, level)) == 0
    ensures TableAt(mem, root, 0, vpn / 512) == 0
  {
  }

  lemma TableAdded(mem0: Mem, mem1: Mem, owner0: map<nat, Own>, root: nat, level: nat, prefix: nat, q: nat, p: nat,
                   mem: Mem, owner: map<nat, Own>)
    requires Leaves(mem0, owner0) && Addable(mem0, owner0, root, level, prefix, q, p) && mem1 == mem0[p := Filled(5)]
    requires q in mem1 && mem1[q].Table? && |mem1[q].ptes| == NPTE && forall x :: x in owner0 ==> x in mem0
    requires mem == WithTable(mem1, q, prefix % 512, p) && owner == owner0[p := Tab(root, level, prefix)]
    ensures
      && Linked(mem, owner) && Leaves(mem, owner) && Extended(mem0, owner0, mem, owner)
      && TableAt(mem, root, level, prefix) == p
  {
    SameLinked(mem0, mem1, owner0);
    SameAt(mem0, mem1, owner0, root, level + 1, prefix / 512);
    SameAt(mem0, mem1, owner0, root, level, prefix);
    AddableParent(mem1, owner0, root, level, prefix, q, p);
    AddedLinked(mem1, owner0, root, level, prefix, q, p, mem, owner);
    AddedAt(mem1, owner0, root, level, prefix, q, p, mem, root, level, prefix);
    forall r, x | Live(owner0, r) && 0 <= x < TOP
      ensures Entry(mem, r, x) == Entry(mem0, r, x)
    {
      AddedEntry(mem1, owner0, root, level, prefix, q, p, mem, r, x);
      SameEntry(mem0, mem1, owner0, r, x);
    }
    ExtendedLeaves(mem0, owner0, mem, owner);
  }

  // ---- changing one entry

  /** Only the owners of pages that are not tables differ. */
  ghost predicate SameTabs(owner: map<nat, Own>, owner': map<nat, Own>) {
    && (forall p :: p in owner && owner[p].Tab? ==> p in owner' && owner'[p] == owner[p])
    && (forall p :: p in owner' && owner'[p].Tab? ==> p in owner && owner[p] == owner'[p])
  }

  lemma SameTabsLinked(mem: Mem, owner: map<nat, Own>, owner': map<nat, Own>)
    requires Linked(mem, owner) && SameTabs(owner, owner')
    ensures Linked(mem, owner')
  {
    forall p | p in owner' && owner'[p].Tab?
      ensures TableOk(mem, owner', p)
    {
      assert TableOk(mem, owner, p);
    }
    forall p, i | p in owner' && owner'[p].Tab? && 0 <= i < NPTE
      ensures LinkOk(mem, owner', p, i)
    {
      assert LinkOk(mem, owner, p, i);
    }
  }

  /** The flat maps agree but for one virtual page, which now has entry pte. */
  ghost predicate EntryBut(mem: Mem, owner: map<nat, Own>, mem': Mem, root: nat, vpn: nat, pte: Pte) {
    forall r, x :: Live(owner, r) && 0 <= x < TOP ==>
      Entry(mem', r, x) == if r == root && x == vpn then pte else Entry(mem, r, x)
  }

  lemma PteSet(mem: Mem, owner: map<nat, Own>, t: nat, root: nat, vpn: nat, pte: Pte, mem': Mem, owner': map<nat, Own>)
    requires Linked(mem, owner) && Live(owner, root) && vpn < MAXPAGE && t == TableAt(mem, root, 0, vpn / 512) != 0
    requires t in mem && mem[t].Table? && |mem[t].ptes| == NPTE && mem' == WithPte(mem, t, vpn % 512, pte)
    requires SameTabs(owner, owner')
    ensures Linked(mem', owner') && EntryBut(mem, owner, mem', root, vpn, if pte.V() then pte else NOPTE)
  {
    AtOwned(mem, owner, root, 0, vpn / 512);
    SetLinked(mem, owner, t, vpn % 512, pte, mem');
    SameTabsLinked(mem', owner, owner');
    forall r, x | Live(owner, r) && 0 <= x < TOP
      ensures Entry(mem', r, x) == if r == root && x == vpn then (if pte.V() then pte else NOPTE) else Entry(mem, r, x)
    {
      SetEntry(mem, owner, t, root, vpn, pte, mem', r, x);
    }
  }

  /** Owners once page p of user memory stands at vpn. */
  ghost function Given(owner: map<nat, Own>, give: bool, p: nat, root: nat, vpn: nat): map<nat, Own> {
    if give then owner[p := User(root, vpn)] else owner
  }

  ghost predicate Mappable(mem: Mem, owner: map<nat, Own>, root: nat, vpn: nat, pte: Pte, give: bool) {
    && Live(owner, root) && vpn < MAXPAGE && pte.V() && pte.Leaf() && (pte.U() ==> give)
    && (give ==> && pte.ppn in owner && owner[pte.ppn] == Kernel && pte.ppn in mem && mem[pte.ppn].Data?
                 && |mem[pte.ppn].bytes| == PGSIZE)
  }

  lemma MappedLeaves(mem: Mem, owner: map<nat, Own>, root: nat, vpn: nat, pte: Pte, give: bool, mem': Mem,
                     owner': map<nat, Own>)
    requires Leaves(mem, owner) && Mappable(mem, owner, root, vpn, pte, give) && !Entry(mem, root, vpn).V()
    requires owner' == Given(owner, give, pte.ppn, root, vpn) && EntryBut(mem, owner, mem', root, vpn, pte)
    requires mem'.Keys == mem.Keys && forall p :: p in owner && !owner[p].Tab? && p in mem ==> mem'[p] == mem[p]
    ensures Leaves(mem', owner')
  {
    forall p | p in owner' && owner'[p].User?
      ensures UserOk(mem', owner', p)
    {
      if p in owner && owner[p].User? {
        assert UserOk(mem, owner, p);
      }
    }
    forall r, x | Live(owner', r) && 0 <= x < TOP
      ensures EntryOk(mem', owner', r, x)
    {
      assert Live(owner, r) && EntryOk(mem, owner, r, x);
    }
  }

  // ---- pages of the kernel's own

  /** The same tables and user pages; pages of the kernel may come, go or change. */
  ghost predicate SameSpaces(mem: Mem, owner: map<nat, Own>, mem': Mem, owner': map<nat, Own>) {
    && mem'.Keys == mem.Keys
    && (forall p :: p in owner && !owner[p].Kernel? ==> p in owner' && owner'[p] == owner[p])
    && (forall p :: p in owner' && !owner'[p].Kernel? ==> p in owner && owner[p] == owner'[p])
    && (forall p :: p in owner && !owner[p].Kernel? && p in mem ==> mem'[p] == mem[p])
  }

  lemma SpacesKept(mem: Mem, owner: map<nat, Own>, mem': Mem, owner': map<nat, Own>)
    requires Linked(mem, owner) && Leaves(mem, owner) && SameSpaces(mem, owner, mem', owner')
    ensures Linked(mem', owner') && Leaves(mem', owner')
    ensures SameFlat(mem, owner, mem')
  {
    assert forall p :: p in owner && owner[p].Tab? ==> TableOk(mem, owner, p);
    SameLinked(mem, mem', owner);
    SameTabsLinked(mem', owner, owner');
    forall r, x | Live(owner, r) && 0 <= x < TOP
      ensures Entry(mem', r, x) == Entry(mem, r, x)
    {
      SameEntry(mem, mem', owner, r, x);
    }
    forall p | p in owner' && owner'[p].User?
      ensures UserOk(mem', owner', p)
    {
      assert UserOk(mem, owner, p);
    }
    forall r, x | Live(owner', r) && 0 <= x < TOP
      ensures EntryOk(mem', owner', r, x)
    {
      assert Live(owner, r) && EntryOk(mem, owner, r, x);
    }
  }

  // ---- ranges of entries

  /** Since the first state the n virtual pages from a on were mapped, to consecutive
      pages from ppn on; all else, but for new tables, is as it was. */
  ghost predicate MappedRange(mem: Mem, owner: map<nat, Own>, mem': Mem, owner': map<nat, Own>,
                              root: nat, a: nat, n: nat, ppn: nat, flags: nat, give: bool) {
    && mem'.Keys == mem.Keys
    && (forall p :: p in owner && !(give && ppn <= p < ppn + n) ==> p in owner' && owner'[p] == owner[p])
    && (give ==> forall p :: ppn <= p < ppn + n ==>
        p in owner && owner[p] == Kernel && p in owner' && owner'[p] == User(root, a + p - ppn))
    && (forall p :: p in owner && !owner[p].Tab? && p in mem ==> mem'[p] == mem[p])
    && (forall p :: p in owner' && p !in owner ==> owner'[p].Tab? && owner'[p].level < 2)
    && (forall r, x :: Live(owner, r) && 0 <= x < TOP ==>
          Entry(mem', r, x) == if r == root && a <= x < a + n then Pte(ppn + x - a, WithV(flags)) else Entry(mem, r, x))
  }

  lemma MappedOne(mem: Mem, owner: map<nat, Own>, mem1: Mem, owner1: map<nat, Own>, mem2: Mem, owner2: map<nat, Own>,
                  t: nat, root: nat, vpn: nat, ppn: nat, flags: nat, give: bool)
    requires Extended(mem, owner, mem1, owner1) && Linked(mem1, owner1) && Leaves(mem1, owner1)
    requires Mappable(mem, owner, root, vpn, Pte(ppn, WithV(flags)), give) && !Entry(mem1, root, vpn).V()
    requires t == TableAt(mem1, root, 0, vpn / 512) != 0 && t in mem1 && mem1[t].Table? && |mem1[t].ptes| == NPTE
    requires
      && mem2 == WithPte(mem1, t, vpn % 512, Pte(ppn, WithV(flags))) && owner2 == Given(owner1, give, ppn, root, vpn)
    ensures
      && Linked(mem2, owner2) && Leaves(mem2, owner2)
      && MappedRange(mem, owner, mem2, owner2, root, vpn, 1, ppn, flags, give)
    ensures t in owner1
  {
    EntryIn(mem1, owner1, root, vpn, t);
    var pte := Pte(ppn, WithV(flags));
    PteSet(mem1, owner1, t, root, vpn, pte, mem2, owner2);
    MappedLeaves(mem1, owner1, root, vpn, pte, give, mem2, owner2);
    MappedSince(mem, owner, mem1, owner1, mem2, owner2, root, vpn, ppn, flags, give);
  }

  /** A page pool with the address spaces on it, since the state (mem0, owner0); folded. */
  ghost predicate Settled(mem0: Mem, owner0: map<nat, Own>, mem: Mem, owner: map<nat, Own>, head: nat, free: seq<nat>,
                          lo: nat, hi: nat, root: nat, vpn: nat, ppn: nat, flags: nat, give: bool) {
    forall u {:trigger Open(u)} :: Open(u) ==>
      && Pool(mem, head, free, owner, lo, hi) && Linked(mem, owner) && Leaves(mem, owner)
      && MappedRange(mem0, owner0, mem, owner, root, vpn, 1, ppn, flags, give)
  }

  lemma LeafSet(mem0: Mem, owner0: map<nat, Own>, mem: Mem, owner: map<nat, Own>, owner': map<nat, Own>, head: nat,
                free: seq<nat>, lo: nat, hi: nat, t: nat, root: nat, vpn: nat, ppn: nat, flags: nat, give: bool)
    requires Pool(mem, head, free, owner, lo, hi) && Linked(mem, owner) && Leaves(mem, owner)
    requires Extended(mem0, owner0, mem, owner)
    requires Mappable(mem0, owner0, root, vpn, Pte(ppn, WithV(flags)), give) && !Entry(mem, root, vpn).V()
    requires t == TableAt(mem, root, 0, vpn / 512) != 0 && t in mem && mem[t].Table? && |mem[t].ptes| == NPTE
    requires owner' == Given(owner, give, ppn, root, vpn)
    ensures Settled(mem0, owner0, WithPte(mem, t, vpn % 512, Pte(ppn, WithV(flags))), owner', head, free, lo, hi,
                    root, vpn, ppn, flags, give)
  {
    var mem' := WithPte(mem, t, vpn % 512, Pte(ppn, WithV(flags)));
    MappedOne(mem0, owner0, mem, owner, mem', owner', t, root, vpn, ppn, flags, give);
    PoolStore(mem, head, free, owner, owner', lo, hi, t, mem'[t]);
  }

  lemma MappedSince(mem: Mem, owner: map<nat, Own>, mem1: Mem, owner1: map<nat, Own>, mem2: Mem, owner2: map<nat, Own>,
                    root: nat, vpn: nat, ppn: nat, flags: nat, give: bool)
    requires Extended(mem, owner, mem1, owner1) && Mappable(mem, owner, root, vpn, Pte(ppn, WithV(flags)), give)
    requires
      && EntryBut(mem1, owner1, mem2, root, vpn, Pte(ppn, WithV(flags)))
      && owner2 == Given(owner1, give, ppn, root, vpn)
    requires mem2.Keys == mem1.Keys && forall p :: p in owner1 && !owner1[p].Tab? && p in mem1 ==> mem2[p] == mem1[p]
    ensures MappedRange(mem, owner, mem2, owner2, root, vpn, 1, ppn, flags, give)
  {
  }

  lemma MappedMore(mem: Mem, owner: map<nat, Own>, mem1: Mem, owner1: map<nat, Own>, mem2: Mem, owner2: map<nat, Own>,
                   root: nat, a: nat, n: nat, ppn: nat, flags: nat, give: bool, m: nat)
    requires MappedRange(mem, owner, mem1, owner1, root, a, n, ppn, flags, give)
    requires MappedRange(mem1, owner1, mem2, owner2, root, a + n, m, ppn + n, flags, give)
    ensures MappedRange(mem, owner, mem2, owner2, root, a, n + m, ppn, flags, give)
  {
  }

  lemma MappedNone(mem: Mem, owner: map<nat, Own>, mem': Mem, owner': map<nat, Own>, root: nat, a: nat, ppn: nat,
                   flags: nat, give: bool)
    requires Extended(mem, owner, mem', owner')
    ensures MappedRange(mem, owner, mem', owner', root, a, 0, ppn, flags, give)
  {
  }

  // ---- removing entries

  /** A mapping that may be freed is user memory. */
  ghost predicate Freeable(mem: Mem, owner: map<nat, Own>, root: nat, vpn: nat) {
    vpn < MAXPAGE && Entry(mem, root, vpn).V() ==>
      Entry(mem, root, vpn).ppn in owner && owner[Entry(mem, root, vpn).ppn] == User(root, vpn)
  }

  ghost predicate AllFreeable(mem: Mem, owner: map<nat, Own>, root: nat, a: nat, b: nat) {
    forall x :: a <= x < b ==> Freeable(mem, owner, root, x)
  }

  ghost predicate NoneMapped(mem: Mem, root: nat, a: nat, b: nat) {
    forall x :: a <= x < b ==> Entry(mem, root, x) == NOPTE
  }

  lemma NoneBefore(mem: Mem, root: nat, a: nat, b: nat, c: nat)
    requires NoneMapped(mem, root, a, c) && a <= b <= c
    ensures NoneMapped(mem, root, a, b)
  {
  }

  ghost predicate AllMapped(mem: Mem, root: nat, a: nat, b: nat) {
    forall x :: a <= x < b ==> MappedAt(mem, root, x)
  }

  predicate MappedAt(mem: Mem, root: nat, x: nat) {
    x < MAXPAGE && Entry(mem, root, x).V()
  }

  lemma MappedUpTo(mem: Mem, root: nat, a: nat, b: nat, c: nat, d: nat)
    requires a <= b < c == b + 1 <= d && AllMapped(mem, root, a, b)
    ensures AllMapped(mem, root, a, c) <==> b < MAXPAGE && Entry(mem, root, b).V()
    ensures AllMapped(mem, root, a, d) ==> AllMapped(mem, root, a, c)
  {
    assert AllMapped(mem, root, a, c) ==> MappedAt(mem, root, b);
  }

  /** Owners once user page p of vpn went back to the kernel. */
  ghost function Taken(owner: map<nat, Own>, root: nat, vpn: nat, p: nat): map<nat, Own> {
    if p in owner && owner[p] == User(root, vpn) then owner[p := Kernel] else owner
  }

  predicate Within(o: Own, root: nat, a: nat, b: nat) {
    o.User? && o.root == root && a <= o.vpn < b
  }

  /** Since the first state the virtual pages from a up to b were unmapped and their
      user memory freed, or taken by the kernel. All else is as it was. */
  ghost predicate Dropped(mem: Mem, owner: map<nat, Own>, mem': Mem, owner': map<nat, Own>, root: nat, a: nat, b: nat,
                          doFree: bool) {
    && mem'.Keys == mem.Keys
    && (forall p :: p in owner && !Within(owner[p], root, a, b) ==>
          p in owner' && owner'[p] == owner[p] && (!owner[p].Tab? && p in mem ==> mem'[p] == mem[p]))
    && (forall p :: p in owner && Within(owner[p], root, a, b) ==>
        if doFree then p !in owner' else p in owner' && owner'[p] == Kernel)
    && (forall p :: p in owner' ==> p in owner)
    && (forall r, x :: Live(owner, r) && 0 <= x < TOP ==>
          Entry(mem', r, x) == if r == root && a <= x < b then NOPTE else Entry(mem, r, x))
  }

  lemma DroppedMore(mem: Mem, owner: map<nat, Own>, mem1: Mem, owner1: map<nat, Own>, mem2: Mem, owner2: map<nat, Own>,
                    root: nat, a: nat, b: nat, c: nat, doFree: bool)
    requires
      && Dropped(mem, owner, mem1, owner1, root, a, b, doFree)
      && Dropped(mem1, owner1, mem2, owner2, root, b, c, doFree) && a <= b <= c
    ensures Dropped(mem, owner, mem2, owner2, root, a, c, doFree)
  {
  }

  lemma FreeableYet(mem: Mem, owner: map<nat, Own>, mem': Mem, owner': map<nat, Own>, root: nat, a: nat, b: nat,
                    doFree: bool)
    requires
      && Dropped(mem, owner, mem', owner', root, a, b, doFree) && Live(owner, root)
      && (doFree ==> Freeable(mem, owner, root, b))
    ensures Live(owner', root) && (doFree ==> Freeable(mem', owner', root, b))
    ensures b < MAXPAGE ==> Entry(mem', root, b) == Entry(mem, root, b)
  {
  }

  lemma DroppedLeaves(mem: Mem, owner: map<nat, Own>, mem': Mem, owner': map<nat, Own>, root: nat, a: nat, b: nat,
                      doFree: bool)
    requires Leaves(mem, owner) && Dropped(mem, owner, mem', owner', root, a, b, doFree)
    ensures Leaves(mem', owner')
  {
    forall p | p in owner' && owner'[p].User?
      ensures UserOk(mem', owner', p)
    {
      assert UserOk(mem, owner, p);
    }
    forall r, x | Live(owner', r) && 0 <= x < TOP
      ensures EntryOk(mem', owner', r, x)
    {
      assert Live(owner, r) && EntryOk(mem, owner, r, x);
    }
  }

  lemma DroppedOne(mem: Mem, owner: map<nat, Own>, mem1: Mem, t: nat, root: nat, vpn: nat, ppn: nat, mem2: Mem,
                   owner2: map<nat, Own>, doFree: bool, page: Page, next: nat)
    requires Linked(mem, owner) && Leaves(mem, owner) && Live(owner, root) && vpn < MAXPAGE
    requires
      && Entry(mem, root, vpn).V() && Entry(mem, root, vpn).ppn == ppn && (doFree ==> Freeable(mem, owner, root, vpn))
    requires t == TableAt(mem, root, 0, vpn / 512) != 0 && t in mem && mem[t].Table? && |mem[t].ptes| == NPTE
    requires if doFree then ppn in mem && mem1 == mem[ppn := page] && owner2 == owner - {ppn}
      else mem1 == mem && owner2 == Taken(owner, root, vpn, ppn)
    requires t in mem1 && mem1[t] == mem[t] && mem2 == WithPte(mem1, t, vpn % 512, NOPTE)
    requires next == vpn + 1
    ensures Linked(mem2, owner2) && Leaves(mem2, owner2) && Dropped(mem, owner, mem2, owner2, root, vpn, next, doFree)
  {
    DroppedLinked(mem, owner, mem1, t, root, vpn, ppn, mem2, owner2, doFree, page);
    DroppedSince(mem, owner, root, vpn, ppn, mem2, owner2, doFree, next);
    DroppedLeaves(mem, owner, mem2, owner2, root, vpn, next, doFree);
  }

  lemma DroppedSince(mem: Mem, owner: map<nat, Own>, root: nat, vpn: nat, ppn: nat, mem2: Mem, owner2: map<nat, Own>,
                     doFree: bool, next: nat)
    requires Leaves(mem, owner) && Live(owner, root) && vpn < MAXPAGE && next == vpn + 1
    requires
      && Entry(mem, root, vpn).V() && Entry(mem, root, vpn).ppn == ppn && (doFree ==> Freeable(mem, owner, root, vpn))
    requires owner2 == if doFree then owner - {ppn} else Taken(owner, root, vpn, ppn)
    requires mem2.Keys == mem.Keys && EntryBut(mem, owner, mem2, root, vpn, NOPTE)
    requires forall p :: p in owner && !owner[p].Tab? && p in mem && (doFree ==> p != ppn) ==> mem2[p] == mem[p]
    ensures Dropped(mem, owner, mem2, owner2, root, vpn, next, doFree)
  {
    assert forall p :: p in owner && owner[p].User? ==> UserOk(mem, owner, p);
  }

  lemma DroppedLinked(mem: Mem, owner: map<nat, Own>, mem1: Mem, t: nat, root: nat, vpn: nat, ppn: nat, mem2: Mem,
                      owner2: map<nat, Own>, doFree: bool, page: Page)
    requires Linked(mem, owner) && Live(owner, root) && vpn < MAXPAGE
    requires
      && Entry(mem, root, vpn).V() && Entry(mem, root, vpn).ppn == ppn && (doFree ==> Freeable(mem, owner, root, vpn))
    requires t == TableAt(mem, root, 0, vpn / 512) != 0 && t in mem && mem[t].Table? && |mem[t].ptes| == NPTE
    requires if doFree then ppn in mem && mem1 == mem[ppn := page] && owner2 == owner - {ppn}
      else mem1 == mem && owner2 == Taken(owner, root, vpn, ppn)
    requires t in mem1 && mem1[t] == mem[t] && mem2 == WithPte(mem1, t, vpn % 512, NOPTE)
    ensures Linked(mem2, owner2) && EntryBut(mem, owner, mem2, root, vpn, NOPTE) && t in owner && owner[t].Tab?
  {
    EntryIn(mem, owner, root, vpn, t);
    assert forall p :: p in owner && owner[p].Tab? ==> TableOk(mem, owner, p);
    SameLinked(mem, mem1, owner);
    SameAt(mem, mem1, owner, root, 0, vpn / 512);
    PteSet(mem1, owner, t, root, vpn, NOPTE, mem2, owner2);
    forall r, x | Live(owner, r) && 0 <= x < TOP
      ensures Entry(mem1, r, x) == Entry(mem, r, x)
    {
      SameEntry(mem, mem1, owner, r, x);
    }
  }

  // ---- regions of fresh memory

  /** Since the first state the virtual pages from a up to b got fresh user memory; all
      else, but for new tables, is as it was. */
  ghost predicate Region(mem: Mem, owner: map<nat, Own>, mem': Mem, owner': map<nat, Own>, root: nat, a: nat, b: nat) {
    && mem'.Keys == mem.Keys
    && (forall p :: p in owner ==>
        p in owner' && owner'[p] == owner[p] && (!owner[p].Tab? && p in mem ==> mem'[p] == mem[p]))
    && (forall p :: p in owner' && p !in owner ==>
        (owner'[p].Tab? && owner'[p].level < 2) || Within(owner'[p], root, a, b))
    && (forall r, x :: Live(owner, r) && 0 <= x < TOP && !(r == root && a <= x < b) ==>
        Entry(mem', r, x) == Entry(mem, r, x))
    && (forall x :: a <= x < b && 0 <= x < TOP ==> FreshAt(owner, mem', owner', root, x))
  }

  ghost predicate FreshAt(owner: map<nat, Own>, mem': Mem, owner': map<nat, Own>, root: nat, x: nat) {
    var e := Entry(mem', root, x);
    e.V() && e.ppn !in owner && e.ppn in owner' && owner'[e.ppn] == User(root, x)
  }

  /** Where a region is to be made; folded. */
  ghost predicate Unmapped(mem: Mem, owner: map<nat, Own>, root: nat, a: nat, b: nat) {
    forall u {:trigger Open(u)} :: Open(u) ==> Live(owner, root) && Leaves(mem, owner) && NoneMapped(mem, root, a, b)
  }

  /** A region whose pages are all the same; folded. */
  ghost predicate Filling(mem0: Mem, owner0: map<nat, Own>, mem: Mem, owner: map<nat, Own>, root: nat, a: nat, b: nat,
                          page: Page, flags: nat) {
    forall u {:trigger Open(u)} :: Open(u) ==>
      Region(mem0, owner0, mem, owner, root, a, b) && AllHold(mem, root, a, b, page, flags)
  }

  /** The page after a region of unmapped pages is not mapped yet. */
  lemma NotYet(mem: Mem, owner: map<nat, Own>, mem': Mem, owner': map<nat, Own>, root: nat, a: nat, i: nat, b: nat)
    requires
      && Region(mem, owner, mem', owner', root, a, i) && NoneMapped(mem, root, a, b) && a <= i < b <= MAXPAGE
      && Live(owner, root)
    ensures !Entry(mem', root, i).V()
  {
  }

  lemma NoRegion(mem: Mem, owner: map<nat, Own>, mem': Mem, owner': map<nat, Own>, root: nat, a: nat)
    requires Extended(mem, owner, mem', owner')
    ensures Region(mem, owner, mem', owner', root, a, a)
  {
  }

  lemma RegionMore(mem: Mem, owner: map<nat, Own>, mem1: Mem, owner1: map<nat, Own>, mem2: Mem, owner2: map<nat, Own>,
                   root: nat, a: nat, b: nat, c: nat)
    requires
      && Region(mem, owner, mem1, owner1, root, a, b) && Region(mem1, owner1, mem2, owner2, root, b, c) && a <= b <= c
      && Live(owner, root)
    ensures Region(mem, owner, mem2, owner2, root, a, c)
  {
    forall x | a <= x < c && 0 <= x < TOP
      ensures FreshAt(owner, mem2, owner2, root, x)
    {
      if x < b {
        assert FreshAt(owner, mem1, owner1, root, x);
        assert Entry(mem2, root, x) == Entry(mem1, root, x);
      } else {
        assert FreshAt(owner1, mem2, owner2, root, x);
      }
    }
  }

  lemma RegionStays(mem: Mem, owner: map<nat, Own>, mem1: Mem, owner1: map<nat, Own>, mem2: Mem, owner2: map<nat, Own>,
                    root: nat, a: nat, b: nat)
    requires
      && Region(mem, owner, mem1, owner1, root, a, b) && Extended(mem1, owner1, mem2, owner2) && a <= b
      && Live(owner, root)
    ensures Region(mem, owner, mem2, owner2, root, a, b)
  {
    NoRegion(mem1, owner1, mem2, owner2, root, b);
    RegionMore(mem, owner, mem1, owner1, mem2, owner2, root, a, b, b);
  }

  /** Rolling back: a region that is unmapped and freed leaves nothing but tables. */
  lemma RegionDropped(mem: Mem, owner: map<nat, Own>, mem1: Mem, owner1: map<nat, Own>, mem2: Mem,
                      owner2: map<nat, Own>, root: nat, a: nat, b: nat)
    requires Region(mem, owner, mem1, owner1, root, a, b) && Dropped(mem1, owner1, mem2, owner2, root, a, b, true)
    requires Live(owner, root) && Leaves(mem, owner) && b <= MAXPAGE && NoneMapped(mem, root, a, b)
    ensures Extended(mem, owner, mem2, owner2)
  {
    assert forall p :: p in owner && owner[p].User? ==> UserOk(mem, owner, p);
  }

  lemma RegionFreeable(mem: Mem, owner: map<nat, Own>, mem': Mem, owner': map<nat, Own>, root: nat, a: nat, b: nat)
    requires Region(mem, owner, mem', owner', root, a, b) && a <= b <= MAXPAGE
    ensures AllFreeable(mem', owner', root, a, b) && AllMapped(mem', root, a, b)
  {
    forall x | a <= x < b
      ensures MappedAt(mem', root, x) && Freeable(mem', owner', root, x)
    {
      assert FreshAt(owner, mem', owner', root, x);
    }
  }

  ghost predicate SameFlat(mem: Mem, owner: map<nat, Own>, mem': Mem) {
    forall r, x :: Live(owner, r) && 0 <= x < TOP ==> Entry(mem', r, x) == Entry(mem, r, x)
  }

  /** The memory of virtual page vpn is page, mapped with flags. */
  ghost predicate Holds(mem: Mem, root: nat, vpn: nat, page: Page, flags: nat) {
    var e := Entry(mem, root, vpn);
    e.flags == WithV(flags) && e.ppn in mem && mem[e.ppn] == page
  }

  /** A page fresh from kalloc, filled and mapped. */
  lemma FreshMapped(mem: Mem, owner: map<nat, Own>, p: nat, page: Page, mem1: Mem, owner1: map<nat, Own>, mem2: Mem,
                    owner2: map<nat, Own>, root: nat, vpn: nat, flags: nat, next: nat)
    requires mem1 == mem[p := page] && owner1 == owner[p := Kernel] && p !in owner && p in mem && next == vpn + 1
    requires SameFlat(mem, owner, mem1)
    requires MappedRange(mem1, owner1, mem2, owner2, root, vpn, 1, p, flags, true) && Live(owner, root) && vpn < MAXPAGE
    ensures Region(mem, owner, mem2, owner2, root, vpn, next) && Holds(mem2, root, vpn, page, flags)
  {
    FreshEntry(mem, owner, p, page, mem1, owner1, mem2, owner2, root, vpn, flags);
  }

  lemma FreshEntry(mem: Mem, owner: map<nat, Own>, p: nat, page: Page, mem1: Mem, owner1: map<nat, Own>, mem2: Mem,
                   owner2: map<nat, Own>, root: nat, vpn: nat, flags: nat)
    requires mem1 == mem[p := page] && owner1 == owner[p := Kernel] && p !in owner && p in mem
    requires MappedRange(mem1, owner1, mem2, owner2, root, vpn, 1, p, flags, true) && Live(owner, root) && vpn < MAXPAGE
    ensures Holds(mem2, root, vpn, page, flags) && FreshAt(owner, mem2, owner2, root, vpn)
  {
    assert Live(owner1, root);
    assert Entry(mem2, root, vpn) == Pte(p, WithV(flags));
  }

  /** The same page when mapping it failed, and it was freed. */
  lemma FreshFreed(mem: Mem, owner: map<nat, Own>, p: nat, page: Page, mem1: Mem, owner1: map<nat, Own>, mem2: Mem,
                   owner2: map<nat, Own>, mem3: Mem, owner3: map<nat, Own>, x: Page)
    requires mem1 == mem[p := page] && owner1 == owner[p := Kernel] && p !in owner && p in mem
    requires SameFlat(mem, owner, mem1) && SameFlat(mem2, owner2, mem3)
    requires Extended(mem1, owner1, mem2, owner2) && mem3 == mem2[p := x] && owner3 == owner2 - {p}
    ensures Extended(mem, owner, mem3, owner3)
  {
  }

  /** The virtual pages from a up to b all hold page, mapped with flags. */
  ghost predicate AllHold(mem: Mem, root: nat, a: nat, b: nat, page: Page, flags: nat) {
    forall x :: a <= x < b ==> Holds(mem, root, x, page, flags)
  }

  /** Held memory stays while the region grows by a page. */
  lemma HoldMore(mem: Mem, owner: map<nat, Own>, mem': Mem, owner': map<nat, Own>, root: nat, a: nat, b: nat, c: nat,
                 page: Page, flags: nat)
    requires
      && Region(mem, owner, mem', owner', root, b, c) && AllHold(mem, root, a, b, page, flags) && Live(owner, root)
      && b <= MAXPAGE
    requires AllFreeable(mem, owner, root, a, b) && Holds(mem', root, b, page, flags) && c == b + 1
    ensures AllHold(mem', root, a, c, page, flags)
  {
    forall x | a <= x < c
      ensures Holds(mem', root, x, page, flags)
    {
      if x < b {
        assert Holds(mem, root, x, page, flags) && Freeable(mem, owner, root, x);
        assert Entry(mem', root, x) == Entry(mem, root, x);
      }
    }
  }

  /** PGROUNDUP in pages: the least number of pages that hold size bytes. */
  function PagesUp(size: nat): (n: nat)
    ensures size <= n * PGSIZE < size + PGSIZE
  {
    (size + PGSIZE - 1) / PGSIZE
  }

  // ---- copies of address spaces

  /** The memory of virtual page x. */
  function PageAt(mem: Mem, root: nat, x: nat): Page {
    var p := Entry(mem, root, x).ppn;
    if p in mem then mem[p] else Filled(0)
  }

  /** The first n pages of space b are as those of a were in mem0: bytes and flags. */
  ghost predicate Copied(mem0: Mem, a: nat, mem: Mem, b: nat, n: nat) {
    forall x :: 0 <= x < n ==> Holds(mem, b, x, PageAt(mem0, a, x), Entry(mem0, a, x).flags)
  }

  lemma CopiedMore(mem0: Mem, mem: Mem, owner: map<nat, Own>, mem': Mem, owner': map<nat, Own>, a: nat, b: nat, n: nat,
                   next: nat)
    requires
      && Region(mem, owner, mem', owner', b, n, next) && Copied(mem0, a, mem, b, n) && Live(owner, b) && n < MAXPAGE
      && next == n + 1
    requires AllFreeable(mem, owner, b, 0, n) && AllMapped(mem, b, 0, n)
    requires Holds(mem', b, n, PageAt(mem0, a, n), Entry(mem0, a, n).flags)
    ensures Copied(mem0, a, mem', b, next)
  {
    forall x | 0 <= x < next
      ensures Holds(mem', b, x, PageAt(mem0, a, x), Entry(mem0, a, x).flags)
    {
      if x < n {
        assert Holds(mem, b, x, PageAt(mem0, a, x), Entry(mem0, a, x).flags) && Freeable(mem, owner, b, x);
        assert Entry(mem', b, x) == Entry(mem, b, x);
      }
    }
  }

  /** While the copy grows, the original stays. */
  lemma OriginalStays(mem0: Mem, owner0: map<nat, Own>, mem: Mem, owner: map<nat, Own>, a: nat, b: nat, n: nat, x: nat)
    requires
      && Region(mem0, owner0, mem, owner, b, 0, n) && Leaves(mem0, owner0) && Live(owner0, a) && a != b && x < MAXPAGE
    requires Entry(mem0, a, x).V() && Freeable(mem0, owner0, a, x)
    ensures Live(owner, a) && Entry(mem, a, x) == Entry(mem0, a, x) && PageAt(mem, a, x) == PageAt(mem0, a, x)
    ensures PageAt(mem, a, x).Data? && |PageAt(mem, a, x).bytes| == PGSIZE && Entry(mem, a, x).Leaf()
  {
    assert UserOk(mem0, owner0, Entry(mem0, a, x).ppn) && EntryOk(mem0, owner0, a, x);
  }

  // ---- freeing a tree

  /** The prefix of a table's place, k levels up. */
  function Up(prefix: nat, k: nat): nat {
    if k == 0 then prefix else if k == 1 then prefix / 512 else prefix / 512 / 512
  }

  /** The table hangs at or under a place. */
  predicate Under(o: Own, root: nat, level: nat, prefix: nat) {
    o.Tab? && o.root == root && o.level <= level && Up(o.prefix, level - o.level) == prefix
  }

  /** The table hangs under one of the first n entries of the table at a place. */
  predicate UnderFirst(o: Own, root: nat, level: nat, prefix: nat, n: nat) {
    && o.Tab? && o.root == root && o.level < level && Up(o.prefix, level - 1 - o.level) / 512 == prefix
    && Up(o.prefix, level - 1 - o.level) % 512 < n
  }

  lemma UnderNext(o: Own, root: nat, level: nat, prefix: nat, n: nat)
    requires n < 512 && 0 < level <= 2
    ensures UnderFirst(o, root, level, prefix, n + 1) <==>
              UnderFirst(o, root, level, prefix, n) || Under(o, root, level - 1, prefix * 512 + n)
  {
  }

  lemma UnderAll(o: Own, root: nat, level: nat, prefix: nat)
    requires level <= 2
    ensures Under(o, root, level, prefix) <==> UnderFirst(o, root, level, prefix, 512) || o == Tab(root, level, prefix)
  {
  }

  /** No page is mapped. */
  ghost predicate NoEntries(mem: Mem, root: nat) {
    NoneMapped(mem, root, 0, TOP)
  }

  /** Tables as of the first state, without those under the first n entries of p. */
  ghost predicate Pruned(mem0: Mem, owner0: map<nat, Own>, mem: Mem, owner: map<nat, Own>, p: nat, o: Own, n: nat) {
    && o.Tab? && p in owner0 && owner0[p] == o && mem.Keys == mem0.Keys && n <= NPTE
    && (forall x :: x in owner <==> x in owner0 && !UnderFirst(owner0[x], o.root, o.level, o.prefix, n))
    && (forall x :: x in owner ==> owner[x] == owner0[x] && (x != p && x in mem0 ==> mem[x] == mem0[x]))
    && p in mem0 && mem0[p].Table? && p in mem && mem[p].Table? && |mem0[p].ptes| == |mem[p].ptes| == NPTE
    && (forall k :: 0 <= k < n ==> !mem[p].ptes[k].V())
    && (forall k :: n <= k < NPTE ==> mem[p].ptes[k] == mem0[p].ptes[k])
    && SameFlat(mem0, owner, mem)
  }

  /** Tables as of the first state, without those at or under the place of o. */
  ghost predicate Felled(mem0: Mem, owner0: map<nat, Own>, mem: Mem, owner: map<nat, Own>, o: Own) {
    && o.Tab? && mem.Keys == mem0.Keys
    && (forall x :: x in owner <==> x in owner0 && !Under(owner0[x], o.root, o.level, o.prefix))
    && (forall x :: x in owner ==> owner[x] == owner0[x] && (x in mem0 ==> mem[x] == mem0[x]))
  }

  lemma PrunedStart(mem: Mem, owner: map<nat, Own>, p: nat, o: Own)
    requires Linked(mem, owner) && p in owner && owner[p] == o && o.Tab?
    ensures Pruned(mem, owner, mem, owner, p, o, 0)
  {
    assert TableOk(mem, owner, p);
  }

  lemma PrunedLive(mem0: Mem, owner0: map<nat, Own>, mem: Mem, owner: map<nat, Own>, p: nat, o: Own, n: nat)
    requires Pruned(mem0, owner0, mem, owner, p, o, n) && Live(owner0, o.root) && o.level <= 2
    ensures p in owner && owner[p] == o && Live(owner, o.root)
  {
  }

  lemma PrunedSkip(mem0: Mem, owner0: map<nat, Own>, mem: Mem, owner: map<nat, Own>, p: nat, o: Own, n: nat, next: nat)
    requires
      && Pruned(mem0, owner0, mem, owner, p, o, n) && Linked(mem, owner) && n < NPTE && !mem[p].ptes[n].V()
      && next == n + 1 && p in owner
    ensures Pruned(mem0, owner0, mem, owner, p, o, next)
  {
    assert TableOk(mem, owner, p);
    forall x | x in owner
      ensures !UnderFirst(owner[x], o.root, o.level, o.prefix, next)
    {
      if UnderFirst(owner[x], o.root, o.level, o.prefix, next) {
        UnderNext(owner[x], o.root, o.level, o.prefix, n);
        NotHere(mem, owner, p, o, n, x);
      }
    }
  }

  /** Nothing hangs under an entry that is not valid. */
  lemma NotHere(mem: Mem, owner: map<nat, Own>, p: nat, o: Own, n: nat, x: nat)
    requires Linked(mem, owner) && p in owner && owner[p] == o && o.Tab? && o.level > 0 && n < NPTE && x in owner
    requires p in mem && mem[p].Table? && |mem[p].ptes| == NPTE && !mem[p].ptes[n].V()
    ensures !Under(owner[x], o.root, o.level - 1, o.prefix * 512 + n)
  {
    assert TableOk(mem, owner, p);
    assert TableAt(mem, o.root, o.level - 1, o.prefix * 512 + n) == 0;
    if owner[x].Tab? {
      assert TableOk(mem, owner, x);
    }
  }

  /** The tables under entry n were felled, and the entry cleared. */
  lemma PrunedMore(mem0: Mem, owner0: map<nat, Own>, mem: Mem, owner: map<nat, Own>, p: nat, o: Own, n: nat, next: nat,
                   mem1: Mem, owner1: map<nat, Own>, mem2: Mem)
    requires
      && Pruned(mem0, owner0, mem, owner, p, o, n) && n < NPTE && next == n + 1 && 0 < o.level <= 2 && p in owner
      && p != 0
    requires Felled(mem, owner, mem1, owner1, Tab(o.root, o.level - 1, o.prefix * 512 + n))
    requires mem2 == Unlinked(mem1, p, n) && SameFlat(mem, owner1, mem2)
    ensures Pruned(mem0, owner0, mem2, owner1, p, o, next) && p in owner1
  {
    forall x | x in owner0
      ensures UnderFirst(owner0[x], o.root, o.level, o.prefix, next) <==>
                UnderFirst(owner0[x], o.root, o.level, o.prefix, n)
                  || Under(owner0[x], o.root, o.level - 1, o.prefix * 512 + n)
    {
      UnderNext(owner0[x], o.root, o.level, o.prefix, n);
    }
  }

  /** The table itself goes last. */
  lemma FelledLast(mem0: Mem, owner0: map<nat, Own>, mem: Mem, owner: map<nat, Own>, p: nat, o: Own, q: nat, j: nat,
                   page: Page, mem1: Mem, owner1: map<nat, Own>)
    requires Linked(mem0, owner0) && Pruned(mem0, owner0, mem, owner, p, o, NPTE) && Removable(mem, owner, p, q, j)
    requires mem1 == mem[p := page] && owner1 == owner - {p}
    ensures
      && Felled(mem0, owner0, mem1, owner1, o) && Linked(Unlinked(mem1, q, j), owner1)
      && SameFlat(mem0, owner1, Unlinked(mem1, q, j))
  {
    assert TableOk(mem0, owner0, p);
    RemovedLinked(mem, owner, p, q, j, page, Unlinked(mem1, q, j), owner1);
    forall x | x in owner0
      ensures Under(owner0[x], o.root, o.level, o.prefix) <==>
        UnderFirst(owner0[x], o.root, o.level, o.prefix, NPTE) || x == p
    {
      UnderAll(owner0[x], o.root, o.level, o.prefix);
      if owner0[x].Tab? {
        assert TableOk(mem0, owner0, x);
      }
    }
    forall r, x | Live(owner1, r) && 0 <= x < TOP
      ensures Entry(Unlinked(mem1, q, j), r, x) == Entry(mem0, r, x)
    {
      RemovedEntry(mem, owner, p, q, j, page, Unlinked(mem1, q, j), r, x);
    }
  }

  /** A valid entry of a table of an empty space points to a table. */
  lemma ValidIsTable(mem: Mem, owner: map<nat, Own>, p: nat, o: Own, i: nat)
    requires Linked(mem, owner) && p in owner && owner[p] == o && o.Tab? && i < NPTE && NoEntries(mem, o.root)
    requires p in mem && mem[p].Table? && |mem[p].ptes| == NPTE && mem[p].ptes[i].V()
    ensures o.level > 0 && !mem[p].ptes[i].Leaf()
    ensures mem[p].ptes[i].ppn in owner && owner[mem[p].ptes[i].ppn] == Tab(o.root, o.level - 1, o.prefix * 512 + i)
  {
    assert TableOk(mem, owner, p) && LinkOk(mem, owner, p, i);
    LastDigit(o.prefix, i);
    var x := o.prefix * 512 + i;
    assert o.level == 0 ==> Entry(mem, o.root, x) != NOPTE;
  }

  lemma LastDigit(prefix: nat, i: nat)
    requires i < 512
    ensures (prefix * 512 + i) / 512 == prefix && (prefix * 512 + i) % 512 == i
  {
  }

  lemma StillEmpty(mem0: Mem, owner: map<nat, Own>, mem: Mem, root: nat)
    requires NoEntries(mem0, root) && SameFlat(mem0, owner, mem) && Live(owner, root)
    ensures NoEntries(mem, root)
  {
    forall x | 0 <= x < TOP
      ensures Entry(mem, root, x) == NOPTE
    {
      assert Entry(mem0, root, x) == NOPTE;
    }
  }

  /** Once the tables of an empty space are gone, nothing of it is left. */
  lemma LeavesFelled(mem: Mem, owner: map<nat, Own>, mem': Mem, owner': map<nat, Own>, root: nat)
    requires Linked(mem, owner) && Leaves(mem, owner) && NoEntries(mem, root)
    requires Felled(mem, owner, mem', owner', Tab(root, 2, 0)) && SameFlat(mem, owner', mem')
    ensures Leaves(mem', owner') && forall p :: p in owner' && !owner'[p].Kernel? ==> owner'[p].root != root
  {
    forall p | p in owner' && owner'[p].User?
      ensures UserOk(mem', owner', p) && owner'[p].root != root
    {
      assert UserOk(mem, owner, p);
    }
    forall p | p in owner' && owner'[p].Tab?
      ensures owner'[p].root != root
    {
      assert TableOk(mem, owner, p);
    }
    forall r, x | Live(owner', r) && 0 <= x < TOP
      ensures EntryOk(mem', owner', r, x)
    {
      assert Live(owner, r) && EntryOk(mem, owner, r, x);
    }
  }

  /** Nothing of a space is left, and all else is as it was. */
  ghost predicate Vanished(mem: Mem, owner: map<nat, Own>, mem': Mem, owner': map<nat, Own>, root: nat) {
    && mem'.Keys == mem.Keys
    && (forall p :: p in owner' <==> p in owner && (owner[p].Kernel? || owner[p].root != root))
    && (forall p :: p in owner' ==> owner'[p] == owner[p] && (p in mem && !owner[p].Tab? ==> mem'[p] == mem[p]))
    && SameFlat(mem, owner', mem')
  }

  lemma Emptied(mem: Mem, owner: map<nat, Own>, mem': Mem, owner': map<nat, Own>, root: nat, n: nat)
    requires if n > 0 then Dropped(mem, owner, mem', owner', root, 0, n, true) else mem' == mem && owner' == owner
    requires Live(owner, root) && NoneMapped(mem, root, n, TOP)
    ensures NoEntries(mem', root) && Live(owner', root)
  {
  }

  lemma VanishedAfter(mem: Mem, owner: map<nat, Own>, mem1: Mem, owner1: map<nat, Own>, mem2: Mem,
                      owner2: map<nat, Own>, root: nat, n: nat)
    requires if n > 0 then Dropped(mem, owner, mem1, owner1, root, 0, n, true) else mem1 == mem && owner1 == owner
    requires Felled(mem1, owner1, mem2, owner2, Tab(root, 2, 0)) && SameFlat(mem1, owner2, mem2)
    requires forall p :: p in owner2 && !owner2[p].Kernel? ==> owner2[p].root != root
    ensures Vanished(mem, owner, mem2, owner2, root)
  {
  }

  // ---- a new space

  lemma NewRoot(mem: Mem, owner: map<nat, Own>, p: nat, mem': Mem, owner': map<nat, Own>)
    requires
      && Linked(mem, owner) && Leaves(mem, owner) && p != 0 && p in mem && p !in owner
      && forall x :: x in owner ==> x in mem
    requires mem' == mem[p := ZeroTable()] && owner' == owner[p := Tab(p, 2, 0)]
    ensures Linked(mem', owner') && Leaves(mem', owner') && NoEntries(mem', p) && SameFlat(mem, owner, mem')
  {
    SameLinked(mem, mem', owner);
    forall x | x in owner' && owner'[x].Tab?
      ensures TableOk(mem', owner', x)
    {
      if x != p {
        assert TableOk(mem', owner, x);
      }
    }
    forall x, i | x in owner' && owner'[x].Tab? && 0 <= i < NPTE
      ensures LinkOk(mem', owner', x, i)
    {
      if x != p {
        assert LinkOk(mem', owner, x, i);
      }
    }
    NewRootEmpty(mem', p);
    NewRootLeaves(mem, owner, p, mem', owner');
  }

  lemma NewRootEmpty(mem: Mem, p: nat)
    requires p in mem && mem[p] == ZeroTable()
    ensures NoEntries(mem, p)
  {
    forall x | 0 <= x < TOP
      ensures Entry(mem, p, x) == NOPTE
    {
      assert TableAt(mem, p, 1, x / 512 / 512) == 0;
    }
  }

  lemma NewRootLeaves(mem: Mem, owner: map<nat, Own>, p: nat, mem': Mem, owner': map<nat, Own>)
    requires
      && Linked(mem, owner) && Leaves(mem, owner) && p != 0 && p in mem && p !in owner
      && forall x :: x in owner ==> x in mem
    requires mem' == mem[p := ZeroTable()] && owner' == owner[p := Tab(p, 2, 0)] && NoEntries(mem', p)
    ensures Leaves(mem', owner') && SameFlat(mem, owner, mem')
  {
    forall r, x | Live(owner, r) && 0 <= x < TOP
      ensures Entry(mem', r, x) == Entry(mem, r, x)
    {
      SameEntry(mem, mem', owner, r, x);
    }
    forall x | x in owner' && owner'[x].User?
      ensures UserOk(mem', owner', x)
    {
      assert UserOk(mem, owner, x);
    }
    forall r, x | Live(owner', r) && 0 <= x < TOP
      ensures EntryOk(mem', owner', r, x)
    {
      if r != p {
        assert EntryOk(mem, owner, r, x);
      }
    }
  }

  // ---- user memory as bytes

  /** walkaddr: the page of a user address; 0 if it has none. */
  function UserPage(mem: Mem, root: nat, vpn: nat): nat {
    var e := Entry(mem, root, vpn);
    if vpn < MAXPAGE && e.V() && e.U() then e.ppn else 0
  }

  function UserByte(mem: Mem, root: nat, va: nat): byte {
    var p := UserPage(mem, root, va / PGSIZE);
    if p in mem && mem[p].Data? && |mem[p].bytes| == PGSIZE then mem[p].bytes[va % PGSIZE] else 0
  }

  ghost predicate UserMapped(mem: Mem, root: nat, a: nat, b: nat) {
    forall v :: a <= v < b ==> UserAt(mem, root, v)
  }

  predicate UserAt(mem: Mem, root: nat, va: nat) {
    UserPage(mem, root, va / PGSIZE) != 0
  }

  /** A user page is memory of its own. */
  lemma UserPageOk(mem: Mem, owner: map<nat, Own>, root: nat, vpn: nat)
    requires Leaves(mem, owner) && Live(owner, root) && UserPage(mem, root, vpn) != 0
    ensures var p := UserPage(mem, root, vpn);
      p in owner && owner[p] == User(root, vpn) && p in mem && mem[p].Data? && |mem[p].bytes| == PGSIZE
  {
    assert EntryOk(mem, owner, root, vpn);
    assert UserOk(mem, owner, UserPage(mem, root, vpn));
  }

  /** Bytes within one page are mapped together. */
  lemma OnePage(mem: Mem, root: nat, a: nat, n: nat)
    requires 0 < n && a % PGSIZE + n <= PGSIZE
    ensures UserMapped(mem, root, a, a + n) <==> UserAt(mem, root, a)
  {
    forall v | a <= v < a + n
      ensures v / PGSIZE == a / PGSIZE
    {
    }
    if UserMapped(mem, root, a, a + n) {
      assert UserAt(mem, root, a);
    }
  }

  lemma MappedSplit(mem: Mem, root: nat, a: nat, b: nat, c: nat)
    requires a <= b <= c
    ensures UserMapped(mem, root, a, c) <==> UserMapped(mem, root, a, b) && UserMapped(mem, root, b, c)
  {
  }

  /** A range that is mapped up to va is mapped up to next, in the same page, if va is; and
      the whole range is mapped only then. */
  lemma MappedOn(mem: Mem, root: nat, a: nat, va: nat, next: nat, end: nat)
    requires a <= va < next <= end && va % PGSIZE + (next - va) <= PGSIZE && UserMapped(mem, root, a, va)
    ensures UserMapped(mem, root, a, next) <==> UserAt(mem, root, va)
    ensures UserMapped(mem, root, a, end) ==> UserMapped(mem, root, a, next)
  {
    OnePage(mem, root, va, next - va);
    MappedSplit(mem, root, a, va, next);
    MappedSplit(mem, root, a, next, end);
  }

  /** The user bytes from a up to b. */
  function UserBytes(mem: Mem, root: nat, a: nat, b: nat): (s: seq<byte>)
    ensures a <= b ==> |s| == b - a
  {
    if b <= a then [] else UserBytes(mem, root, a, b - 1) + [UserByte(mem, root, b - 1)]
  }

  lemma {:induction false} BytesMore(mem: Mem, root: nat, a: nat, b: nat, c: nat)
    requires a <= b <= c
    ensures UserBytes(mem, root, a, c) == UserBytes(mem, root, a, b) + UserBytes(mem, root, b, c)
  {
    if b < c {
      BytesMore(mem, root, a, b, c - 1);
    }
  }

  lemma {:induction false} BytesAt(mem: Mem, root: nat, a: nat, b: nat, v: nat)
    requires a <= v < b
    ensures UserBytes(mem, root, a, b)[v - a] == UserByte(mem, root, v)
  {
    if v < b - 1 {
      BytesAt(mem, root, a, b - 1, v);
    }
  }

  /** Page p of virtual page vpn gets new bytes. */
  lemma PageWritten(mem: Mem, owner: map<nat, Own>, root: nat, vpn: nat, p: nat, bytes: seq<byte>, mem': Mem)
    requires
      && Linked(mem, owner) && Leaves(mem, owner) && Live(owner, root) && p == UserPage(mem, root, vpn) != 0
      && |bytes| == PGSIZE
    requires mem' == mem[p := Data(bytes)] && forall x :: x in owner ==> x in mem
    ensures Linked(mem', owner) && Leaves(mem', owner) && SameFlat(mem, owner, mem')
  {
    UserPageOk(mem, owner, root, vpn);
    SameLinked(mem, mem', owner);
    forall r, x | Live(owner, r) && 0 <= x < TOP
      ensures Entry(mem', r, x) == Entry(mem, r, x)
    {
      SameEntry(mem, mem', owner, r, x);
    }
    forall x | x in owner && owner[x].User?
      ensures UserOk(mem', owner, x)
    {
      assert UserOk(mem, owner, x);
    }
    forall r, x | Live(owner, r) && 0 <= x < TOP
      ensures EntryOk(mem', owner, r, x)
    {
      assert EntryOk(mem, owner, r, x);
    }
  }

  /** Since the first state data was written at user address a of a space; no other user
      byte of any space, and no mapping, has changed. */
  ghost predicate UserWritten(mem: Mem, mem': Mem, owner: map<nat, Own>, root: nat, a: nat, data: seq<byte>) {
    && mem'.Keys == mem.Keys && SameFlat(mem, owner, mem')
    && (forall p :: p in mem && (p !in owner || !owner[p].User?) ==> mem'[p] == mem[p])
    && (forall r, v :: Live(owner, r) && 0 <= v < MAXVA && UserAt(mem, r, v) ==>
          UserByte(mem', r, v) == if r == root && a <= v < a + |data| then data[v - a] else UserByte(mem, r, v))
  }

  lemma UserWrittenMore(mem: Mem, mem1: Mem, mem2: Mem, owner: map<nat, Own>, root: nat, a: nat, d1: seq<byte>, b: nat,
                        d2: seq<byte>, d: seq<byte>)
    requires
      && UserWritten(mem, mem1, owner, root, a, d1) && UserWritten(mem1, mem2, owner, root, b, d2) && b == a + |d1|
      && d == d1 + d2
    ensures UserWritten(mem, mem2, owner, root, a, d)
  {
    forall r, v | Live(owner, r) && 0 <= v < MAXVA && UserAt(mem, r, v)
      ensures UserByte(mem2, r, v) == if r == root && a <= v < a + |d| then d[v - a] else UserByte(mem, r, v)
    {
      assert UserAt(mem1, r, v);
    }
  }

  lemma PieceWritten(mem: Mem, owner: map<nat, Own>, root: nat, a: nat, p: nat, piece: seq<byte>, bytes: seq<byte>,
                     mem': Mem)
    requires Linked(mem, owner) && Leaves(mem, owner) && Live(owner, root) && p == UserPage(mem, root, a / PGSIZE) != 0
    requires
      && a % PGSIZE + |piece| <= PGSIZE && p in mem && mem[p].Data? && |mem[p].bytes| == PGSIZE
      && forall x :: x in owner ==> x in mem
    requires
      && bytes == mem[p].bytes[..a % PGSIZE] + piece + mem[p].bytes[a % PGSIZE + |piece|..]
      && mem' == mem[p := Data(bytes)]
    ensures Linked(mem', owner) && Leaves(mem', owner) && UserWritten(mem, mem', owner, root, a, piece)
  {
    PageWritten(mem, owner, root, a / PGSIZE, p, bytes, mem');
    UserPageOk(mem, owner, root, a / PGSIZE);
    forall r, v | Live(owner, r) && 0 <= v < MAXVA && UserAt(mem, r, v)
      ensures UserByte(mem', r, v) == if r == root && a <= v < a + |piece| then piece[v - a] else UserByte(mem, r, v)
    {
      UserPageOk(mem, owner, r, v / PGSIZE);
      PieceByte(mem, owner, root, a, p, piece, bytes, r, v);
    }
  }

  lemma PieceByte(mem: Mem, owner: map<nat, Own>, root: nat, a: nat, p: nat, piece: seq<byte>, bytes: seq<byte>, r: nat,
                  v: nat)
    requires
      && p in owner && owner[p] == User(root, a / PGSIZE) && p == UserPage(mem, root, a / PGSIZE)
      && UserPage(mem, r, v / PGSIZE) in owner
    requires owner[UserPage(mem, r, v / PGSIZE)] == User(r, v / PGSIZE)
    requires a % PGSIZE + |piece| <= PGSIZE && p in mem && mem[p].Data? && |mem[p].bytes| == PGSIZE
    requires bytes == mem[p].bytes[..a % PGSIZE] + piece + mem[p].bytes[a % PGSIZE + |piece|..]
    ensures UserPage(mem, r, v / PGSIZE) == p ==>
              bytes[v % PGSIZE] == if r == root && a <= v < a + |piece| then piece[v - a] else UserByte(mem, r, v)
    ensures UserPage(mem, r, v / PGSIZE) != p ==> !(r == root && a <= v < a + |piece|)
  {
    if a <= v < a + |piece| {
      assert v / PGSIZE == a / PGSIZE && v % PGSIZE == a % PGSIZE + (v - a);
    }
  }

  /** How many of n bytes from va on lie in its page. */
  function InPage(va: nat, n: nat): (m: nat)
    ensures m <= n && va % PGSIZE + m <= PGSIZE && (n > 0 ==> m > 0)
  {
    if n < PGSIZE - va % PGSIZE then n else PGSIZE - va % PGSIZE
  }

  lemma PieceRead(mem: Mem, root: nat, va: nat, m: nat, p: nat, piece: seq<byte>, next: nat)
    requires
      && va % PGSIZE + m <= PGSIZE && p == UserPage(mem, root, va / PGSIZE) && p in mem && mem[p].Data?
      && |mem[p].bytes| == PGSIZE
    requires piece == mem[p].bytes[va % PGSIZE..va % PGSIZE + m] && next == va + m
    ensures piece == UserBytes(mem, root, va, next)
  {
    var bytes := UserBytes(mem, root, va, next);
    forall k | 0 <= k < m
      ensures piece[k] == bytes[k]
    {
      assert (va + k) / PGSIZE == va / PGSIZE && (va + k) % PGSIZE == va % PGSIZE + k;
      BytesAt(mem, root, va, next, va + k);
    }
  }

  lemma Slice(src: seq<byte>, n: nat, k: nat)
    requires n + k <= |src|
    ensures src[..n + k] == src[..n] + src[n..n + k]
  {
  }

  /** Memory that uvmalloc has mapped is zero, and the user's. */
  ghost predicate UserZero(mem: Mem, root: nat, a: nat, b: nat) {
    forall va :: a <= va < b ==> UserAt(mem, root, va) && UserByte(mem, root, va) == 0
  }

  lemma HeldUser(mem: Mem, root: nat, oldsz: nat, newsz: nat)
    requires 0 !in mem && AllHold(mem, root, PagesUp(oldsz), PagesUp(newsz), Filled(0), RWXU) && newsz <= MAXVA
    ensures UserZero(mem, root, PagesUp(oldsz) * PGSIZE, newsz)
  {
    forall va | PagesUp(oldsz) * PGSIZE <= va < newsz
      ensures UserAt(mem, root, va) && UserByte(mem, root, va) == 0
    {
      var x := va / PGSIZE;
      assert PagesUp(oldsz) <= x < PagesUp(newsz);
      assert Holds(mem, root, x, Filled(0), RWXU);
    }
  }

  /** What the user sees of a copy below sz is what the user sees of the original. */
  ghost predicate SameView(mem0: Mem, a: nat, mem: Mem, b: nat, sz: nat) {
    forall va :: 0 <= va < sz ==>
      UserAt(mem, b, va) == UserAt(mem0, a, va) && UserByte(mem, b, va) == UserByte(mem0, a, va)
  }

  lemma CopiedView(mem0: Mem, owner0: map<nat, Own>, a: nat, mem: Mem, b: nat, sz: nat)
    requires 0 !in mem && 0 !in mem0 && sz <= MAXVA && Copied(mem0, a, mem, b, PagesUp(sz)) && Live(owner0, a)
    requires Leaves(mem0, owner0) && AllMapped(mem0, a, 0, PagesUp(sz)) && AllFreeable(mem0, owner0, a, 0, PagesUp(sz))
    ensures SameView(mem0, a, mem, b, sz)
  {
    forall va | 0 <= va < sz
      ensures UserAt(mem, b, va) == UserAt(mem0, a, va) && UserByte(mem, b, va) == UserByte(mem0, a, va)
    {
      var x := va / PGSIZE;
      assert x < PagesUp(sz);
      assert MappedAt(mem0, a, x) && Freeable(mem0, owner0, a, x);
      assert UserOk(mem0, owner0, Entry(mem0, a, x).ppn);
      assert Holds(mem, b, x, PageAt(mem0, a, x), Entry(mem0, a, x).flags);
    }
  }

  lemma SameUser(mem: Mem, mem': Mem, owner: map<nat, Own>, root: nat, va: nat)
    requires SameFlat(mem, owner, mem') && Live(owner, root)
    ensures UserAt(mem', root, va) == UserAt(mem, root, va)
  {
    if va / PGSIZE < MAXPAGE {
      assert Entry(mem', root, va / PGSIZE) == Entry(mem, root, va / PGSIZE);
    }
  }

  /** Two virtual pages never share an entry. */
  lemma OwnCell(mem: Mem, owner: map<nat, Own>, r: nat, x: nat, r': nat, x': nat)
    requires Linked(mem, owner) && Live(owner, r) && Live(owner, r') && x < TOP && x' < TOP
    requires TableAt(mem, r, 0, x / 512) == TableAt(mem, r', 0, x' / 512) != 0 && x % 512 == x' % 512
    ensures r == r' && x == x'
  {
    AtOwned(mem, owner, r, 0, x / 512);
    AtOwned(mem, owner, r', 0, x' / 512);
  }

  // ---- the bits of section 4.4 of the privileged architecture

  /** PX(level, va). */
  function Px(level: nat, va: nat): nat
    requires level <= 2
  {
    va / (if level == 0 then 0x1000 else if level == 1 then 0x20_0000 else 0x4000_0000) % 512
  }

  /** walk's index is the last digit of the prefix of the table below. */
  lemma PxDigits(level: nat, va: nat)
    requires level <= 2
    ensures Px(level, va) == (if level == 0 then va / PGSIZE else Prefix(va / PGSIZE, level - 1)) % 512
  {
  }

  function Pa2Pte(pa: nat): nat { pa / 0x1000 * 0x400 }
  function Pte2Pa(pte: nat): nat { pte / 0x400 * 0x1000 }
  function PteFlags(pte: nat): nat { pte % 0x400 }

  /** An entry gives back the page and the flags it was made of. */
  lemma PteRoundTrip(pa: nat, flags: nat)
    requires pa % PGSIZE == 0 && flags < 0x400
    ensures Pte2Pa(Pa2Pte(pa) + flags) == pa && PteFlags(Pa2Pte(pa) + flags) == flags
  {
  }
}
