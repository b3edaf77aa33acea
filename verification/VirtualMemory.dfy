/** kernel/kalloc.c and kernel/vm.c: the page allocator and user address spaces. */
module VirtualMemory {
  import opened Blocks
  import opened Common
  import opened PageTables
  import opened Spaces

  class Vm {
    const lo: nat
    const hi: nat
    var mem: Mem
    var freelist: nat
    ghost var free: seq<nat>
    ghost var owner: map<nat, Own>

    /** kinit: freerange(start, end) frees every whole page in between. */
    constructor (start: nat, end: nat, ram: Mem)
      requires start > 0 && forall p :: p in ram <==> PagesUp(start) <= p < end / PGSIZE
      ensures Valid() && lo == PagesUp(start) && hi == end / PGSIZE && owner == map[]
      ensures forall p :: p in ram ==> p in free
    {
      lo, hi := PagesUp(start), end / PGSIZE;
      mem := ram;
      freelist, free := 0, [];
      owner := map p | p in ram :: Kernel;
      new;
      var p := lo;
      while (p + 1) * PGSIZE <= end
        invariant Paged() && lo <= p && (lo <= hi ==> p <= hi) && forall x :: x in owner <==> p <= x < hi
        invariant forall x :: x in owner ==> owner[x] == Kernel
        decreases end - p * PGSIZE
      {
        var ok := Kfree(p);
        p := p + 1;
      }
    }

    ghost predicate Paged()
      reads this
    {
      Pool(mem, freelist, free, owner, lo, hi)
    }

    ghost predicate Valid()
      reads this
    {
      Paged() && Linked(mem, owner) && Leaves(mem, owner)
    }

    /** kalloc: the first free page, or 0. */
    method Kalloc() returns (p: nat)
      requires Paged()
      modifies `mem, `freelist, `free, `owner
      ensures Paged() && (p == 0 <==> old(free) == [])
      ensures p == 0 ==> mem == old(mem) && owner == old(owner) && free == old(free)
      ensures p != 0 ==> && p in old(mem) && p !in old(owner) && free == old(free)[1..]
                         && mem == old(mem)[p := Filled(5)] && owner == old(owner)[p := Kernel]
    {
      p := freelist;
      if p != 0 {
        PoolPop(mem, freelist, free, owner, lo, hi, Filled(5));
        freelist := mem[p].next;
        mem := mem[p := Filled(5)];
        free := free[1..];
        owner := owner[p := Kernel];
      }
    }

    /** kfree: false is its panic. */
    method Kfree(p: nat) returns (ok: bool)
      requires Paged() && (lo <= p < hi ==> p in owner)
      modifies `mem, `freelist, `free, `owner
      ensures ok == (lo <= p < hi)
      ensures ok ==> && Paged() && free == [p] + old(free) && owner == old(owner) - {p}
                     && mem == old(mem)[p := Free(old(freelist))]
      ensures !ok ==> mem == old(mem) && owner == old(owner) && free == old(free) && freelist == old(freelist)
    {
      if p < lo || p >= hi {
        return false;
      }
      PoolPush(mem, freelist, free, owner, lo, hi, p);
      mem := mem[p := Free(freelist)];
      freelist := p;
      free := [p] + free;
      owner := owner - {p};
      return true;
    }

    /** One missing table on walk's way: allocate, clear, link. */
    method AddTable(root: nat, ghost level: nat, ghost prefix: nat, q: nat, i: nat) returns (p: nat)
      requires Valid() && Live(owner, root) && level <= 1 && prefix < Places(level) && i == prefix % 512
      requires q != 0 && q == TableAt(mem, root, level + 1, prefix / 512) && TableAt(mem, root, level, prefix) == 0
      modifies `mem, `freelist, `free, `owner
      ensures Valid() && Extended(old(mem), old(owner), mem, owner) && p == TableAt(mem, root, level, prefix)
      ensures p == 0 ==> free == []
      ensures |free| + 1 >= old(|free|) && (p == 0 ==> old(free) == [])
    {
      ghost var mem0, owner0 := mem, owner;
      AtOwned(mem, owner, root, level + 1, prefix / 512);
      assert TableOk(mem, owner, q);
      p := Kalloc();
      if p != 0 {
        ghost var mem1 := mem;
        mem := mem[p := ZeroTable()];
        mem := mem[q := Table(mem[q].ptes[i := Pte(p, V)])];
        owner := owner[p := Tab(root, level, prefix)];
        TableAdded(mem0, mem1, owner0, root, level, prefix, q, p, mem, owner);
        PoolStore(mem1, freelist, free, owner0[p := Kernel], owner, lo, hi, p, ZeroTable());
        PoolStore(mem1[p := ZeroTable()], freelist, free, owner, owner, lo, hi, q, mem[q]);
      }
    }

    /** One turn of walk's loop: from the table at a level to the one below. */
    method WalkStep(root: nat, vpn: nat, level: nat, q: nat, alloc: bool, below: nat) returns (t: nat)
      requires Valid() && Live(owner, root) && 1 <= level <= 2 && vpn < MAXPAGE && below == level - 1
      requires q == TableAt(mem, root, level, Prefix(vpn, level)) && q != 0
      modifies `mem, `freelist, `free, `owner
      ensures
        && Valid() && Extended(old(mem), old(owner), mem, owner) && t == TableAt(mem, root, below, Prefix(vpn, below))
      ensures !alloc ==> mem == old(mem) && owner == old(owner) && free == old(free) && freelist == old(freelist)
      ensures alloc && t == 0 ==> free == []
      ensures |free| + 1 >= old(|free|) && (alloc && t == 0 ==> old(free) == [])
    {
      var prefix := Prefix(vpn, below);
      var i := prefix % 512;
      Below(mem, owner, root, vpn, level, q, prefix);
      if mem[q].ptes[i].V() {
        t := mem[q].ptes[i].ppn;
      } else if alloc {
        t := AddTable(root, below, prefix, q, i);
      } else {
        t := 0;
      }
    }

    /** walk's loop. */
    method WalkLoop(root: nat, vpn: nat, alloc: bool) returns (t: nat)
      requires Valid() && Live(owner, root) && vpn < MAXPAGE
      modifies `mem, `freelist, `free, `owner
      ensures Valid() && Extended(old(mem), old(owner), mem, owner) && t == TableAt(mem, root, 0, vpn / 512)
      ensures !alloc ==> mem == old(mem) && owner == old(owner) && free == old(free) && freelist == old(freelist)
      ensures alloc && t == 0 ==> free == []
      ensures |free| + 2 >= old(|free|) && (alloc && t == 0 ==> old(|free|) <= 1)
    {
      ghost var mem0, owner0 := mem, owner;
      t := root;
      var level := 2;
      assert TableOk(mem, owner, root);
      while level > 0
        invariant 0 <= level <= 2 && Valid() && Extended(mem0, owner0, mem, owner)
        invariant t == TableAt(mem, root, level, Prefix(vpn, level)) && t != 0
        invariant |free| + 2 - level >= old(|free|)
        invariant !alloc ==> mem == old(mem) && owner == old(owner) && free == old(free) && freelist == old(freelist)
      {
        ghost var mem1, owner1 := mem, owner;
        var below := level - 1;
        t := WalkStep(root, vpn, level, t, alloc, below);
        ExtendedTwice(mem0, owner0, mem1, owner1, mem, owner);
        if t == 0 {
          NoTable(mem, root, vpn, below);
          return;
        }
        level := below;
      }
    }

    /** walk: the level 0 table with the entry for va, 0 if there is none; new tables are
        made if alloc. */
    method Walk(root: nat, va: nat, alloc: bool) returns (panicked: bool, t: nat)
      requires Valid() && Live(owner, root)
      modifies `mem, `freelist, `free, `owner
      ensures panicked == (va >= MAXVA) && Valid() && Extended(old(mem), old(owner), mem, owner)
      ensures panicked || !alloc ==>
        mem == old(mem) && owner == old(owner) && free == old(free) && freelist == old(freelist)
      ensures !panicked ==> t == TableAt(mem, root, 0, va / PGSIZE / 512)
      ensures !panicked && alloc && t == 0 ==> free == []
      ensures |free| + 2 >= old(|free|) && (!panicked && alloc && t == 0 ==> old(|free|) <= 1)
    {
      if va >= MAXVA {
        return true, 0;
      }
      t := WalkLoop(root, va / PGSIZE, alloc);
      return false, t;
    }

    /** Entry vpn of table t is set; the page becomes user memory if give. */
    method SetLeaf(root: nat, t: nat, vpn: nat, ppn: nat, flags: nat, ghost give: bool, ghost mem0: Mem,
                   ghost owner0: map<nat, Own>)
      requires Valid() && Extended(mem0, owner0, mem, owner)
      requires Mappable(mem0, owner0, root, vpn, Pte(ppn, WithV(flags)), give) && !Entry(mem, root, vpn).V()
      requires t == TableAt(mem, root, 0, vpn / 512) && t != 0 && t in mem && mem[t].Table? && |mem[t].ptes| == NPTE
      modifies `mem, `owner
      ensures Valid() && MappedRange(mem0, owner0, mem, owner, root, vpn, 1, ppn, flags, give)
    {
      ghost var owner' := Given(owner, give, ppn, root, vpn);
      LeafSet(mem0, owner0, mem, owner, owner', freelist, free, lo, hi, t, root, vpn, ppn, flags, give);
      StoreEntry(t, vpn % 512, Pte(ppn, WithV(flags)), owner');
      assert Open(0);
    }

    /** The store itself. */
    method StoreEntry(t: nat, i: nat, pte: Pte, ghost owner': map<nat, Own>)
      requires t in mem && mem[t].Table? && i < |mem[t].ptes|
      modifies `mem, `owner
      ensures mem == WithPte(old(mem), t, i, pte) && owner == owner'
    {
      mem := mem[t := Table(mem[t].ptes[i := pte])];
      owner := owner';
    }

    /** One turn of mappages' loop: 0 done, -1 no memory for a table, -2 remap panic. */
    method MapOne(root: nat, vpn: nat, ppn: nat, flags: nat, ghost give: bool) returns (r: int)
      requires Valid() && Mappable(mem, owner, root, vpn, Pte(ppn, WithV(flags)), give)
      modifies `mem, `freelist, `free, `owner
      ensures r in {0, -1, -2} && Valid()
      ensures r == 0 ==> MappedRange(old(mem), old(owner), mem, owner, root, vpn, 1, ppn, flags, give)
      ensures r != 0 ==> Extended(old(mem), old(owner), mem, owner)
      ensures r == -1 ==> free == []
      ensures r == -2 <==> old(Entry(mem, root, vpn)).V() && r != -1
      ensures |free| + 2 >= old(|free|) && (r == -1 ==> old(|free|) <= 1)
    {
      ghost var mem0, owner0 := mem, owner;
      PageOf(vpn);
      var _, t := Walk(root, vpn * PGSIZE, true);
      if t == 0 {
        return -1;
      }
      EntryIn(mem, owner, root, vpn, t);
      if mem[t].ptes[vpn % 512].V() {
        return -2;
      }
      SetLeaf(root, t, vpn, ppn, flags, give, mem0, owner0);
      return 0;
    }

    /** mappages: size > 0 bytes from va; -3 is walk's panic. Unless it is 0, the first m pages
        are mapped. */
    method Mappages(root: nat, va: nat, size: nat, ppn: nat, flags: nat, ghost give: bool)
      returns (r: int, ghost m: nat, ghost at: nat)
      requires Valid() && Live(owner, root) && size > 0
      requires forall k :: 0 <= k < Pages(va, size) && va / PGSIZE + k < MAXPAGE ==>
                 MappableAt(mem, owner, root, va / PGSIZE, ppn, flags, give, k)
      modifies `mem, `freelist, `free, `owner
      ensures r in {0, -1, -2, -3} && Valid()
      ensures MappedRange(old(mem), old(owner), mem, owner, root, va / PGSIZE, m, ppn, flags, give)
      ensures if r == 0 then m == Pages(va, size) else m < Pages(va, size)
      ensures r == -1 ==> free == []
      ensures r == -2 ==> at == va / PGSIZE + m && old(Entry(mem, root, at)).V()
      ensures if r == -3 then va / PGSIZE + m >= MAXPAGE else r == 0 ==> va / PGSIZE + m <= MAXPAGE
    {
      ghost var mem0, owner0 := mem, owner;
      var a, last, pa := va / PGSIZE, (va + size - 1) / PGSIZE, ppn;
      ghost var first := a;
      m := 0;
      MappedNone(mem0, owner0, mem, owner, root, a, ppn, flags, give);
      while true
        invariant Valid() && first <= a <= last && m == a - first && pa == ppn + m
        invariant MappedRange(mem0, owner0, mem, owner, root, first, m, ppn, flags, give)
        decreases last - a
      {
        assert a < MAXPAGE ==> MappableAt(mem0, owner0, root, first, ppn, flags, give, m);
        ghost var done;
        r, done := MapTurn(root, a, pa, flags, give, mem0, owner0, first, m, ppn);
        m, at := done, a;
        if r != 0 || a == last {
          return;
        }
        a, pa := a + 1, pa + 1;
      }
    }

    /** One turn of mappages' loop, after m pages; done is how many there are then. */
    method MapTurn(root: nat, a: nat, pa: nat, flags: nat, ghost give: bool, ghost mem0: Mem,
                   ghost owner0: map<nat, Own>, ghost first: nat, ghost m: nat, ghost ppn: nat)
      returns (r: int, ghost done: nat)
      requires Valid() && MappedRange(mem0, owner0, mem, owner, root, first, m, ppn, flags, give)
      requires a == first + m && pa == ppn + m
      requires a < MAXPAGE ==> MappableAt(mem0, owner0, root, first, ppn, flags, give, m)
      modifies `mem, `freelist, `free, `owner
      ensures r in {0, -1, -2, -3} && Valid() && done == (if r == 0 then m + 1 else m)
      ensures MappedRange(mem0, owner0, mem, owner, root, first, done, ppn, flags, give)
      ensures (r == -1 ==> free == []) && (r == -2 ==> Entry(mem0, root, a).V()) && (r == -3 <==> a >= MAXPAGE)
    {
      done := m;
      if a * PGSIZE >= MAXVA {
        return -3, m;
      }
      ghost var mem1, owner1 := mem, owner;
      MappableYet(mem0, owner0, mem, owner, root, first, m, ppn, flags, give, a, pa);
      r := MapOne(root, a, pa, flags, give);
      done := if r == 0 then m + 1 else m;
      MappedAfter(mem0, owner0, mem1, owner1, mem, owner, root, first, m, ppn, flags, give, a, pa, r, done);
    }

    /** One turn of uvmunmap's loop; false is a panic: no such mapping. */
    method UnmapOne(root: nat, vpn: nat, doFree: bool, ghost next: nat) returns (ok: bool)
      requires Valid() && Live(owner, root) && (doFree ==> Freeable(mem, owner, root, vpn)) && next == vpn + 1
      modifies `mem, `freelist, `free, `owner
      ensures Valid() && ok == (vpn < MAXPAGE && old(Entry(mem, root, vpn)).V())
      ensures if ok then Dropped(old(mem), old(owner), mem, owner, root, vpn, next, doFree)
        else mem == old(mem) && owner == old(owner)
    {
      if vpn >= MAXPAGE {
        return false;
      }
      PageOf(vpn);
      var _, t := Walk(root, vpn * PGSIZE, false);
      if t == 0 {
        return false;
      }
      EntryIn(mem, owner, root, vpn, t);
      var pte := mem[t].ptes[vpn % 512];
      if !pte.V() {
        return false;
      }
      assert EntryOk(mem, owner, root, vpn);
      if pte.flags == V {
        return false;
      }
      ClearLeaf(root, t, vpn, pte, doFree, next);
      return true;
    }

    /** The page of entry pte is freed if doFree, and the entry is cleared. */
    method ClearLeaf(root: nat, t: nat, vpn: nat, pte: Pte, doFree: bool, ghost next: nat)
      requires Valid() && Live(owner, root) && vpn < MAXPAGE && (doFree ==> Freeable(mem, owner, root, vpn))
      requires t == TableAt(mem, root, 0, vpn / 512) && t != 0 && t in mem && mem[t].Table? && |mem[t].ptes| == NPTE
      requires pte == Entry(mem, root, vpn) && pte.V() && next == vpn + 1
      modifies `mem, `freelist, `free, `owner
      ensures Valid() && Dropped(old(mem), old(owner), mem, owner, root, vpn, next, doFree)
    {
      ghost var mem0, owner0, head := mem, owner, freelist;
      EntryIn(mem, owner, root, vpn, t);
      if doFree {
        var ok := Kfree(pte.ppn);
      } else {
        owner := Taken(owner, root, vpn, pte.ppn);
        PoolStore(mem, freelist, free, owner0, owner, lo, hi, t, mem[t]);
        assert mem[t := mem[t]] == mem;
      }
      ghost var mem1, owner1 := mem, owner;
      mem := mem[t := Table(mem[t].ptes[vpn % 512 := NOPTE])];
      DroppedOne(mem0, owner0, mem1, t, root, vpn, pte.ppn, mem, owner, doFree, Free(head), next);
      PoolStore(mem1, freelist, free, owner1, owner, lo, hi, t, mem[t]);
    }

    /** uvmunmap's loop. */
    method UnmapLoop(root: nat, first: nat, end: nat, doFree: bool) returns (ok: bool)
      requires Valid() && Live(owner, root) && first <= end && (doFree ==> AllFreeable(mem, owner, root, first, end))
      modifies `mem, `freelist, `free, `owner
      ensures Valid() && (ok <==> AllMapped(old(mem), root, first, end))
      ensures ok ==> Dropped(old(mem), old(owner), mem, owner, root, first, end, doFree)
    {
      ghost var mem0, owner0 := mem, owner;
      var a := first;
      while a < end
        invariant first <= a <= end && Valid() && Dropped(mem0, owner0, mem, owner, root, first, a, doFree)
        invariant AllMapped(mem0, root, first, a)
      {
        ghost var mem1, owner1 := mem, owner;
        FreeableYet(mem0, owner0, mem, owner, root, first, a, doFree);
        var next := a + 1;
        ok := UnmapOne(root, a, doFree, next);
        MappedUpTo(mem0, root, first, a, next, end);
        if !ok {
          return;
        }
        DroppedMore(mem0, owner0, mem1, owner1, mem, owner, root, first, a, next, doFree);
        a := next;
      }
      return true;
    }

    /** uvmunmap: npages pages from va; false is a panic. */
    method Uvmunmap(root: nat, va: nat, npages: nat, doFree: bool) returns (ok: bool)
      requires Valid() && Live(owner, root)
      requires doFree ==> AllFreeable(mem, owner, root, va / PGSIZE, va / PGSIZE + npages)
      modifies `mem, `freelist, `free, `owner
      ensures Valid() && (ok <==> va % PGSIZE == 0 && AllMapped(old(mem), root, va / PGSIZE, va / PGSIZE + npages))
      ensures ok ==> Dropped(old(mem), old(owner), mem, owner, root, va / PGSIZE, va / PGSIZE + npages, doFree)
    {
      if va % PGSIZE != 0 {
        return false;
      }
      ok := UnmapLoop(root, va / PGSIZE, va / PGSIZE + npages, doFree);
    }

    /** kalloc and a fill. */
    method TakePage(page: Page) returns (p: nat)
      requires Valid()
      modifies `mem, `freelist, `free, `owner
      ensures Valid()
      ensures p == 0 ==> mem == old(mem) && owner == old(owner)
      ensures p != 0 ==>
        && p in old(mem) && p !in old(owner) && mem == old(mem)[p := page] && owner == old(owner)[p := Kernel]
        && SameSpaces(old(mem), old(owner), mem, owner) && SameFlat(old(mem), old(owner), mem)
      ensures |free| + 1 >= old(|free|) && (p == 0 ==> old(free) == [])
    {
      p := Kalloc();
      if p != 0 {
        ghost var mem1 := mem;
        mem := mem[p := page];
        SpacesKept(old(mem), old(owner), mem, owner);
        PoolStore(mem1, freelist, free, owner, owner, lo, hi, p, page);
      }
    }

    /** kfree of a page of the kernel's own. */
    method GivePage(p: nat)
      requires Valid() && p in owner && owner[p] == Kernel
      modifies `mem, `freelist, `free, `owner
      ensures
        && Valid() && mem == old(mem)[p := Free(old(freelist))] && owner == old(owner) - {p}
        && SameFlat(old(mem), old(owner), mem)
      ensures |free| == old(|free|) + 1
    {
      var ok := Kfree(p);
      SpacesKept(old(mem), old(owner), mem, owner);
    }

    /** What uvmalloc and uvmcopy do for each page: allocate, fill, map; -1 if there is no
        memory, -2 is the remap panic. */
    method AllocOne(root: nat, vpn: nat, page: Page, flags: nat, ghost next: nat) returns (r: int)
      requires Valid() && Live(owner, root) && vpn < MAXPAGE && Pte(0, WithV(flags)).Leaf() && next == vpn + 1
      requires page.Data? && |page.bytes| == PGSIZE
      modifies `mem, `freelist, `free, `owner
      ensures r in {0, -1, -2} && Valid()
      ensures r == 0 ==> && Region(old(mem), old(owner), mem, owner, root, vpn, next)
                         && Holds(mem, root, vpn, page, flags)
      ensures r != 0 ==> Extended(old(mem), old(owner), mem, owner)
      ensures r == -2 ==> old(Entry(mem, root, vpn)).V()
      ensures |free| + 3 >= old(|free|) && (r == -1 ==> old(|free|) <= 2)
    {
      ghost var mem0, owner0 := mem, owner;
      var p := TakePage(page);
      if p == 0 {
        return -1;
      }
      ghost var mem1, owner1 := mem, owner;
      r := MapOne(root, vpn, p, flags, true);
      if r == 0 {
        FreshMapped(mem0, owner0, p, page, mem1, owner1, mem, owner, root, vpn, flags, next);
      } else {
        ghost var mem2, owner2, head := mem, owner, freelist;
        GivePage(p);
        FreshFreed(mem0, owner0, p, page, mem1, owner1, mem2, owner2, mem, owner, Free(head));
      }
    }

    /** uvmdealloc: the pages between the rounded sizes are unmapped and freed. */
    method Uvmdealloc(root: nat, oldsz: nat, newsz: nat) returns (ok: bool, sz: nat)
      requires Valid() && Live(owner, root) && AllFreeable(mem, owner, root, PagesUp(newsz), PagesUp(oldsz))
      modifies `mem, `freelist, `free, `owner
      ensures Valid() && sz == (if newsz >= oldsz then oldsz else newsz)
      ensures ok <==> newsz >= oldsz || AllMapped(old(mem), root, PagesUp(newsz), PagesUp(oldsz))
      ensures newsz >= oldsz ==> mem == old(mem) && owner == old(owner)
      ensures ok && newsz < oldsz ==>
          Dropped(old(mem), old(owner), mem, owner, root, PagesUp(newsz), PagesUp(oldsz), true)
    {
      if newsz >= oldsz {
        return true, oldsz;
      }
      ok := true;
      if PagesUp(newsz) < PagesUp(oldsz) {
        ok := UnmapLoop(root, PagesUp(newsz), PagesUp(oldsz), true);
      }
      sz := newsz;
    }

    /** Undoing a region, as uvmalloc and uvmcopy do when they run out of memory. */
    method RollBack(root: nat, a: nat, b: nat, ghost mem0: Mem, ghost owner0: map<nat, Own>) returns (ok: bool)
      requires
        && Valid() && Region(mem0, owner0, mem, owner, root, a, b) && Live(owner0, root) && Leaves(mem0, owner0)
        && a <= b <= MAXPAGE
      requires NoneMapped(mem0, root, a, b)
      modifies `mem, `freelist, `free, `owner
      ensures ok && Valid() && Extended(mem0, owner0, mem, owner)
    {
      ghost var mem1, owner1 := mem, owner;
      RegionFreeable(mem0, owner0, mem, owner, root, a, b);
      ok := UnmapLoop(root, a, b, true);
      RegionDropped(mem0, owner0, mem1, owner1, mem, owner, root, a, b);
    }

    /** One turn of uvmalloc's loop; it undoes all turns if there is no memory. */
    method AllocTurn(root: nat, a: nat, b: nat, i: nat, next: nat, page: Page, flags: nat, ghost mem0: Mem,
                     ghost owner0: map<nat, Own>) returns (ok: bool)
      requires
        && Valid() && Unmapped(mem0, owner0, root, a, b) && Filling(mem0, owner0, mem, owner, root, a, i, page, flags)
      requires a <= i < b <= MAXPAGE && next == i + 1
      requires page.Data? && |page.bytes| == PGSIZE && Pte(0, WithV(flags)).Leaf()
      modifies `mem, `freelist, `free, `owner
      ensures Valid() && if ok then Filling(mem0, owner0, mem, owner, root, a, next, page, flags)
                         else Extended(mem0, owner0, mem, owner)
      ensures if ok then |free| + 3 >= old(|free|) else old(|free|) <= 2
    {
      assert Open(0);
      ghost var mem1, owner1 := mem, owner;
      RegionFreeable(mem0, owner0, mem, owner, root, a, i);
      NotYet(mem0, owner0, mem, owner, root, a, i, b);
      var r := AllocOne(root, i, page, flags, next);
      if r == 0 {
        HoldMore(mem1, owner1, mem, owner, root, a, i, next, page, flags);
        RegionMore(mem0, owner0, mem1, owner1, mem, owner, root, a, i, next);
        ok := true;
      } else {
        RegionStays(mem0, owner0, mem1, owner1, mem, owner, root, a, i);
        NoneBefore(mem0, root, a, i, b);
        var undone := RollBack(root, a, i, mem0, owner0);
        ok := false;
      }
    }

    /** uvmalloc's loop: fresh zeroed pages from a up to b, or none if memory runs out. */
    method AllocLoop(root: nat, a: nat, b: nat) returns (ok: bool)
      requires Valid() && Live(owner, root) && a <= b <= MAXPAGE
      requires NoneMapped(mem, root, a, b)
      modifies `mem, `freelist, `free, `owner
      ensures Valid()
      ensures ok ==> Region(old(mem), old(owner), mem, owner, root, a, b) && AllHold(mem, root, a, b, Filled(0), RWXU)
      ensures !ok ==> Extended(old(mem), old(owner), mem, owner)
      ensures !ok ==> old(|free|) < 3 * (b - a)
    {
      ghost var mem0, owner0 := mem, owner;
      ghost var f0, c := |free|, 0;
      var i := a;
      NoRegion(mem0, owner0, mem, owner, root, a);
      assert Unmapped(mem0, owner0, root, a, b) && Filling(mem0, owner0, mem, owner, root, a, a, Filled(0), RWXU);
      while i < b
        invariant a <= i <= b && Valid() && Filling(mem0, owner0, mem, owner, root, a, i, Filled(0), RWXU)
        invariant |free| + c >= f0 && c == 3 * (i - a)
      {
        var next := i + 1;
        ok := AllocTurn(root, a, b, i, next, Filled(0), RWXU, mem0, owner0);
        if !ok {
          return;
        }
        i, c := next, c + 3;
      }
      assert Open(0);
      return true;
    }

    /** uvmalloc: grow from oldsz to newsz. 0 when there is not enough memory, and then no
        mapping has changed. */
    method Uvmalloc(root: nat, oldsz: nat, newsz: nat) returns (sz: nat, ghost ok: bool)
      requires Valid() && Live(owner, root) && newsz <= MAXVA
      requires NoneMapped(mem, root, PagesUp(oldsz), PagesUp(newsz))
      modifies `mem, `freelist, `free, `owner
      ensures Valid() && sz == if newsz < oldsz then oldsz else if ok then newsz else 0
      ensures newsz < oldsz ==> mem == old(mem) && owner == old(owner)
      ensures newsz >= oldsz && ok ==> && Region(old(mem), old(owner), mem, owner, root, PagesUp(oldsz), PagesUp(newsz))
                                       && AllHold(mem, root, PagesUp(oldsz), PagesUp(newsz), Filled(0), RWXU)
                                       && UserZero(mem, root, PagesUp(oldsz) * PGSIZE, newsz)
      ensures newsz >= oldsz && !ok ==> Extended(old(mem), old(owner), mem, owner)
      ensures !ok ==> old(|free|) < 3 * (PagesUp(newsz) - PagesUp(oldsz))
    {
      if newsz < oldsz {
        return oldsz, true;
      }
      var done := AllocLoop(root, PagesUp(oldsz), PagesUp(newsz));
      if done {
        HeldUser(mem, root, oldsz, newsz);
      }
      return if done then newsz else 0, done;
    }

    /** The entry of virtual page vpn, found by walk; NOPTE if it is not valid. */
    method Lookup(root: nat, vpn: nat) returns (pte: Pte)
      requires Valid() && Live(owner, root) && vpn < MAXPAGE
      modifies `mem, `freelist, `free, `owner
      ensures mem == old(mem) && owner == old(owner) && free == old(free) && freelist == old(freelist)
      ensures pte == Entry(mem, root, vpn)
    {
      PageOf(vpn);
      var _, t := Walk(root, vpn * PGSIZE, false);
      pte := NOPTE;
      if t != 0 {
        EntryIn(mem, owner, root, vpn, t);
        if mem[t].ptes[vpn % 512].V() {
          pte := mem[t].ptes[vpn % 512];
        }
      }
    }

    /** One turn of uvmcopy's loop; it undoes all turns if there is no memory. */
    method CopyTurn(from: nat, to: nat, n: nat, i: nat, next: nat, ghost mem0: Mem, ghost owner0: map<nat, Own>)
      returns (ok: bool)
      requires
        && Valid() && Region(mem0, owner0, mem, owner, to, 0, i) && Live(owner0, to) && Live(owner0, from) && from != to
      requires Leaves(mem0, owner0) && i < MAXPAGE && next == i + 1 && Copied(mem0, from, mem, to, i)
      requires
        && NoneMapped(mem0, to, 0, n) && i < n <= MAXPAGE && Entry(mem0, from, i).V() && Freeable(mem0, owner0, from, i)
      modifies `mem, `freelist, `free, `owner
      ensures Valid() && if ok then Region(mem0, owner0, mem, owner, to, 0, next) && Copied(mem0, from, mem, to, next)
                         else Extended(mem0, owner0, mem, owner)
      ensures if ok then |free| + 3 >= old(|free|) else old(|free|) <= 2
    {
      ghost var mem1, owner1 := mem, owner;
      OriginalStays(mem0, owner0, mem, owner, from, to, i, i);
      RegionFreeable(mem0, owner0, mem, owner, to, 0, i);
      NotYet(mem0, owner0, mem, owner, to, 0, i, n);
      var pte := Lookup(from, i);
      var r := AllocOne(to, i, mem[pte.ppn], pte.flags, next);
      if r == 0 {
        CopiedMore(mem0, mem1, owner1, mem, owner, from, to, i, next);
        RegionMore(mem0, owner0, mem1, owner1, mem, owner, to, 0, i, next);
        ok := true;
      } else {
        RegionStays(mem0, owner0, mem1, owner1, mem, owner, to, 0, i);
        NoneBefore(mem0, to, 0, i, n);
        var undone := RollBack(to, 0, i, mem0, owner0);
        ok := false;
      }
    }

    /** uvmcopy's loop. */
    method CopyLoop(from: nat, to: nat, n: nat) returns (ok: bool)
      requires Valid() && Live(owner, from) && Live(owner, to) && from != to && n <= MAXPAGE
      requires AllMapped(mem, from, 0, n) && AllFreeable(mem, owner, from, 0, n)
      requires NoneMapped(mem, to, 0, n)
      modifies `mem, `freelist, `free, `owner
      ensures Valid()
      ensures ok ==> Region(old(mem), old(owner), mem, owner, to, 0, n) && Copied(old(mem), from, mem, to, n)
      ensures !ok ==> Extended(old(mem), old(owner), mem, owner)
      ensures !ok ==> old(|free|) < 3 * n
    {
      ghost var mem0, owner0 := mem, owner;
      ghost var f0, c := |free|, 0;
      var i := 0;
      NoRegion(mem0, owner0, mem, owner, to, 0);
      while i < n
        invariant |free| + c >= f0 && c == 3 * i
        invariant 0 <= i <= n && Valid() && Region(mem0, owner0, mem, owner, to, 0, i) && Copied(mem0, from, mem, to, i)
      {
        var next := i + 1;
        assert Freeable(mem0, owner0, from, i) && MappedAt(mem0, from, i);
        ok := CopyTurn(from, to, n, i, next, mem0, owner0);
        if !ok {
          return;
        }
        i, c := next, c + 3;
      }
      return true;
    }

    /** uvmcopy: the first sz bytes of space from, on fresh pages of space to. -1 when there
        is not enough memory, and then no mapping has changed. */
    method Uvmcopy(from: nat, to: nat, sz: nat) returns (r: int)
      requires Valid() && Live(owner, from) && Live(owner, to) && from != to && sz <= MAXVA
      requires AllMapped(mem, from, 0, PagesUp(sz)) && AllFreeable(mem, owner, from, 0, PagesUp(sz))
      requires NoneMapped(mem, to, 0, PagesUp(sz))
      modifies `mem, `freelist, `free, `owner
      ensures Valid() && r in {0, -1}
      ensures r == 0 ==> && Region(old(mem), old(owner), mem, owner, to, 0, PagesUp(sz))
                         && Copied(old(mem), from, mem, to, PagesUp(sz)) && SameView(old(mem), from, mem, to, sz)
      ensures r == -1 ==> Extended(old(mem), old(owner), mem, owner)
      ensures r == -1 ==> old(|free|) < 3 * PagesUp(sz)
    {
      ghost var mem0, owner0 := mem, owner;
      var ok := CopyLoop(from, to, PagesUp(sz));
      if ok {
        CopiedView(mem0, owner0, from, mem, to, sz);
      }
      return if ok then 0 else -1;
    }

    /** The turn of freewalk's loop for an entry that points to a table. */
    method FreeChild(p: nat, ghost o: Own, i: nat, pte: Pte, ghost next: nat, ghost mem0: Mem,
                     ghost owner0: map<nat, Own>) returns (ok: bool)
      requires
        && Paged() && Linked(mem, owner) && Pruned(mem0, owner0, mem, owner, p, o, i) && p in owner && p != 0
        && NoEntries(mem, o.root)
      requires 0 < o.level <= 2 && i < NPTE && next == i + 1 && pte == mem[p].ptes[i]
      requires pte.ppn in owner && owner[pte.ppn] == Tab(o.root, o.level - 1, o.prefix * 512 + i)
      modifies `mem, `freelist, `free, `owner
      ensures ok && Paged() && Linked(mem, owner) && Pruned(mem0, owner0, mem, owner, p, o, next)
      decreases o.level, 0
    {
      ghost var mem1, owner1 := mem, owner;
      ok := Freewalk(pte.ppn, owner[pte.ppn], p, i);
      ghost var mem2 := mem;
      mem := mem[p := Table(mem[p].ptes[i := NOPTE])];
      PrunedMore(mem0, owner0, mem1, owner1, p, o, i, next, mem2, owner, mem);
      PoolStore(mem2, freelist, free, owner, owner, lo, hi, p, mem[p]);
    }

    /** freewalk: frees table p and all tables below it. Entry j of table q points to p;
        its caller clears it afterwards. */
    method Freewalk(p: nat, ghost o: Own, ghost q: nat, ghost j: nat) returns (ok: bool)
      requires Paged() && Linked(mem, owner) && p in owner && owner[p] == o && o.Tab? && NoEntries(mem, o.root)
      requires if o.level == 2 then q == 0
        else q in owner && owner[q] == Tab(o.root, o.level + 1, o.prefix / 512) && j == o.prefix % 512
      modifies `mem, `freelist, `free, `owner
      ensures ok && Paged() && Felled(old(mem), old(owner), mem, owner, o)
      ensures Linked(Unlinked(mem, q, j), owner) && SameFlat(old(mem), owner, Unlinked(mem, q, j))
      decreases o.level, 1
    {
      ghost var mem0, owner0 := mem, owner;
      assert TableOk(mem, owner, p);
      PrunedStart(mem, owner, p, o);
      var i := 0;
      while i < NPTE
        invariant 0 <= i <= NPTE && Paged() && Linked(mem, owner) && Pruned(mem0, owner0, mem, owner, p, o, i)
      {
        var pte := mem[p].ptes[i];
        var next := i + 1;
        PrunedLive(mem0, owner0, mem, owner, p, o, i);
        StillEmpty(mem0, owner, mem, o.root);
        if pte.V() {
          ValidIsTable(mem, owner, p, o, i);
        }
        if pte.V() && !pte.Leaf() {
          ok := FreeChild(p, o, i, pte, next, mem0, owner0);
        } else if pte.V() {
          return false;
        } else {
          PrunedSkip(mem0, owner0, mem, owner, p, o, i, next);
        }
        i := next;
      }
      PrunedLive(mem0, owner0, mem, owner, p, o, i);
      ok := FreeTable(p, o, q, j, mem0, owner0);
    }

    /** The end of freewalk: a table without valid entries is freed. */
    method FreeTable(p: nat, ghost o: Own, ghost q: nat, ghost j: nat, ghost mem0: Mem, ghost owner0: map<nat, Own>)
      returns (ok: bool)
      requires
        && Paged() && Linked(mem, owner) && Linked(mem0, owner0) && Pruned(mem0, owner0, mem, owner, p, o, NPTE)
        && p in owner
      requires if o.level == 2 then q == 0
        else q in owner0 && owner0[q] == Tab(o.root, o.level + 1, o.prefix / 512) && j == o.prefix % 512
      modifies `mem, `freelist, `free, `owner
      ensures ok && Paged() && Felled(mem0, owner0, mem, owner, o)
      ensures Linked(Unlinked(mem, q, j), owner) && SameFlat(mem0, owner, Unlinked(mem, q, j))
    {
      ghost var mem1, owner1, head := mem, owner, freelist;
      ok := Kfree(p);
      FelledLast(mem0, owner0, mem1, owner1, p, o, q, j, Free(head), mem, owner);
    }

    /** uvmfree: the user memory of a space goes, then its tables. */
    method Uvmfree(root: nat, sz: nat) returns (ok: bool)
      requires Valid() && Live(owner, root) && sz <= MAXVA
      requires AllMapped(mem, root, 0, PagesUp(sz)) && AllFreeable(mem, owner, root, 0, PagesUp(sz))
      requires NoneMapped(mem, root, PagesUp(sz), TOP)
      modifies `mem, `freelist, `free, `owner
      ensures ok && Valid() && Vanished(old(mem), old(owner), mem, owner, root)
    {
      ghost var mem0, owner0 := mem, owner;
      ok := true;
      if sz > 0 {
        ok := UnmapLoop(root, 0, PagesUp(sz), true);
      }
      ghost var mem1, owner1 := mem, owner;
      Emptied(mem0, owner0, mem1, owner1, root, PagesUp(sz));
      ok := Freewalk(root, Tab(root, 2, 0), 0, 0);
      LeavesFelled(mem1, owner1, mem, owner, root);
      VanishedAfter(mem0, owner0, mem1, owner1, mem, owner, root, PagesUp(sz));
    }

    /** uvmcreate: the root of a new, empty space; 0 if there is no memory. */
    method Uvmcreate() returns (root: nat)
      requires Valid()
      modifies `mem, `freelist, `free, `owner
      ensures Valid()
      ensures root == 0 ==> mem == old(mem) && owner == old(owner)
      ensures root != 0 ==>
        && root !in old(owner) && owner == old(owner)[root := Tab(root, 2, 0)] && NoEntries(mem, root)
        && SameFlat(old(mem), old(owner), mem)
    {
      ghost var mem0, owner0 := mem, owner;
      root := Kalloc();
      if root != 0 {
        ghost var mem1, owner1 := mem, owner;
        mem := mem[root := ZeroTable()];
        owner := owner[root := Tab(root, 2, 0)];
        NewRoot(mem0, owner0, root, mem, owner);
        PoolStore(mem1, freelist, free, owner1, owner, lo, hi, root, ZeroTable());
      }
    }

    /** walkaddr: the page of a user address, or 0. */
    method Walkaddr(root: nat, va: nat) returns (p: nat)
      requires Valid() && Live(owner, root)
      modifies `mem, `freelist, `free, `owner
      ensures mem == old(mem) && owner == old(owner) && free == old(free) && freelist == old(freelist)
      ensures p == UserPage(mem, root, va / PGSIZE)
      // valid, and accessible to the user
      ensures p != 0 ==> var e := Entry(mem, root, va / PGSIZE);
        va < MAXVA && p == e.ppn && e.flags % 2 == 1 && e.flags / 16 % 2 == 1
      ensures p == 0 && va < MAXVA ==> var e := Entry(mem, root, va / PGSIZE);
        e.flags % 2 == 0 || e.flags / 16 % 2 == 0 || e.ppn == 0
    {
      if va >= MAXVA {
        return 0;
      }
      var pte := Lookup(root, va / PGSIZE);
      if !pte.V() || !pte.U() {
        return 0;
      }
      return pte.ppn;
    }

    /** copyin: len bytes from user address a; fails exactly if one of them is not mapped. */
    method Copyin(root: nat, a: nat, len: nat) returns (r: int, dst: seq<byte>)
      requires Valid() && Live(owner, root)
      modifies `mem, `freelist, `free, `owner
      ensures mem == old(mem) && owner == old(owner) && free == old(free) && freelist == old(freelist)
      ensures r == (if UserMapped(mem, root, a, a + len) then 0 else -1)
      ensures r == 0 ==> dst == UserBytes(mem, root, a, a + len)
    {
      dst := [];
      var n, va, end := 0, a, a + len;
      while n < len
        invariant mem == old(mem) && owner == old(owner) && free == old(free) && freelist == old(freelist)
        invariant 0 <= n <= len && va == a + n && dst == UserBytes(mem, root, a, va) && UserMapped(mem, root, a, va)
      {
        var m := InPage(va, len - n);
        var next := va + m;
        MappedOn(mem, root, a, va, next, end);
        var p := Walkaddr(root, va);
        if p == 0 {
          return -1, dst;
        }
        UserPageOk(mem, owner, root, va / PGSIZE);
        var piece := mem[p].bytes[va % PGSIZE..va % PGSIZE + m];
        PieceRead(mem, root, va, m, p, piece, next);
        BytesMore(mem, root, a, va, next);
        dst := dst + piece;
        n, va := n + m, next;
      }
      return 0, dst;
    }

    /** copyout: src to user address a; fails exactly if one of the bytes is not mapped, with
        the first m written. */
    method Copyout(root: nat, a: nat, src: seq<byte>) returns (r: int, ghost m: nat)
      requires Valid() && Live(owner, root)
      modifies `mem, `freelist, `free, `owner
      ensures Valid() && owner == old(owner) && m <= |src| && UserWritten(old(mem), mem, owner, root, a, src[..m])
      ensures r == if UserMapped(old(mem), root, a, a + |src|) then 0 else -1
      ensures r == 0 ==> m == |src|
    {
      ghost var mem0, data := mem, src[..0];
      var n, va := 0, a;
      m := 0;
      r := 0;
      while n < |src|
        invariant Valid() && owner == old(owner) && 0 <= n <= |src| && va == a + n && m == n && data == src[..n]
        invariant UserWritten(mem0, mem, owner, root, a, data) && UserMapped(mem0, root, a, va)
      {
        var k := InPage(va, |src| - n);
        ghost var mem1 := mem;
        MappedOn(mem0, root, a, va, va + k, a + |src|);
        var ok := CopyPiece(root, va, src[n..n + k]);
        SameUser(mem0, mem1, owner, root, va);
        if !ok {
          return -1, m;
        }
        Slice(src, n, k);
        UserWrittenMore(mem0, mem1, mem, owner, root, a, data, va, src[n..n + k], src[..n + k]);
        data := src[..n + k];
        n, va := n + k, va + k;
        m := n;
      }
    }

    /** The part of copyout within one page. */
    method CopyPiece(root: nat, va: nat, piece: seq<byte>) returns (ok: bool)
      requires Valid() && Live(owner, root) && va % PGSIZE + |piece| <= PGSIZE
      modifies `mem, `freelist, `free, `owner
      ensures Valid() && owner == old(owner) && ok == UserAt(old(mem), root, va)
      ensures if ok then UserWritten(old(mem), mem, owner, root, va, piece) else mem == old(mem)
    {
      var p := Walkaddr(root, va);
      if p == 0 {
        return false;
      }
      UserPageOk(mem, owner, root, va / PGSIZE);
      ghost var mem0 := mem;
      var bytes := mem[p].bytes[..va % PGSIZE] + piece + mem[p].bytes[va % PGSIZE + |piece|..];
      mem := mem[p := Data(bytes)];
      PieceWritten(mem0, owner, root, va, p, piece, bytes, mem);
      PoolStore(mem0, freelist, free, owner, owner, lo, hi, p, Data(bytes));
      return true;
    }
  }
}
