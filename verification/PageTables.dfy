/** Sv39 page tables in physical memory: trees of page-table pages, the flat map they
    stand for, and which page belongs to what. Pages are named by page number. */
module PageTables {
  import opened Blocks

  const PGSIZE := 4096
  const NPTE := 512
  const MAXVA := 0x40_0000_0000
  const MAXPAGE := MAXVA / PGSIZE
  // the virtual pages that three levels of tables could hold; half of them are never used
  const TOP := NPTE * NPTE * NPTE

  /** A page-table entry: a page number and ten flag bits. */
  datatype Pte = Pte(ppn: nat, flags: nat) {
    predicate V() { flags % 2 == 1 }
    /** Some of R, W, X. */
    predicate Leaf() { flags / 2 % 8 != 0 }
    predicate U() { flags / 16 % 2 == 1 }
  }
  const NOPTE := Pte(0, 0)
  const V := 1
  // PTE_R | PTE_W | PTE_X | PTE_U
  const RWXU := 2 + 4 + 8 + 16

  /** flags | PTE_V. */
  function WithV(flags: nat): nat { if flags % 2 == 1 then flags else flags + 1 }

  /** A physical page: on the free list, a page table, or bytes. */
  datatype Page = Free(next: nat) | Table(ptes: seq<Pte>) | Data(bytes: seq<byte>)
  type Mem = map<nat, Page>

  function ZeroTable(): (t: Page)
    ensures t.Table? && |t.ptes| == NPTE && forall i :: 0 <= i < NPTE ==> t.ptes[i] == NOPTE
  {
    Table(seq(NPTE, _ => NOPTE))
  }

  function Filled(x: byte): (d: Page)
    ensures d.Data? && |d.bytes| == PGSIZE && forall i :: 0 <= i < PGSIZE ==> d.bytes[i] == x
  {
    Data(seq(PGSIZE, _ => x))
  }

  /** What an allocated page is: a table of some tree, the user memory of a virtual page,
      or the kernel's. A table at a level covers the virtual pages whose number divided
      by 512^(level + 1) is its prefix. */
  datatype Own = Tab(root: nat, level: nat, prefix: nat) | User(root: nat, vpn: nat) | Kernel

  /** How many tables a tree can have at a level. */
  function Places(level: nat): nat {
    if level == 2 then 1 else if level == 1 then 512 else 512 * 512
  }

  /** The page that entry i of table p points to; 0 is none. */
  function Child(mem: Mem, p: nat, i: nat): nat {
    if p in mem && mem[p].Table? && i < |mem[p].ptes| && mem[p].ptes[i].V() then mem[p].ptes[i].ppn else 0
  }

  /** The table of a tree at a level for a prefix; 0 if there is none. */
  function TableAt(mem: Mem, root: nat, level: nat, prefix: nat): nat
    decreases 2 - level
  {
    if level >= 2 then root
    else
      var q := TableAt(mem, root, level + 1, prefix / 512);
      if q == 0 then 0 else Child(mem, q, prefix % 512)
  }

  /** The flat map: the entry of virtual page vpn, NOPTE if it is not valid. */
  function Entry(mem: Mem, root: nat, vpn: nat): Pte {
    var t := TableAt(mem, root, 0, vpn / 512);
    if t != 0 && t in mem && mem[t].Table? && |mem[t].ptes| == NPTE && mem[t].ptes[vpn % 512].V()
    then mem[t].ptes[vpn % 512] else NOPTE
  }

  predicate Live(owner: map<nat, Own>, root: nat) {
    root in owner && owner[root] == Tab(root, 2, 0)
  }

  ghost predicate TableOk(mem: Mem, owner: map<nat, Own>, p: nat)
    requires p in owner && owner[p].Tab?
  {
    var o := owner[p];
    && p != 0 && p in mem && mem[p].Table? && |mem[p].ptes| == NPTE
    && o.level <= 2 && Live(owner, o.root)
    && (o.level == 2 ==> o.root == p) && o.prefix < Places(o.level)
    && TableAt(mem, o.root, o.level, o.prefix) == p
  }

  /** Entry i of a table above level 0 points to a table of the level below. */
  ghost predicate LinkOk(mem: Mem, owner: map<nat, Own>, p: nat, i: nat)
    requires p in owner && owner[p].Tab?
  {
    var o := owner[p];
    var c := Child(mem, p, i);
    o.level > 0 && p in mem && mem[p].Table? && i < |mem[p].ptes| && mem[p].ptes[i].V() ==>
      c in owner && owner[c] == Tab(o.root, o.level - 1, o.prefix * 512 + i) && !mem[p].ptes[i].Leaf()
  }

  /** Table pages form trees: every table hangs in its own place. */
  ghost predicate Linked(mem: Mem, owner: map<nat, Own>) {
    && (forall p :: p in owner && owner[p].Tab? ==> TableOk(mem, owner, p))
    && (forall p, i :: p in owner && owner[p].Tab? && 0 <= i < NPTE ==> LinkOk(mem, owner, p, i))
  }

  lemma AtLevel1(mem: Mem, owner: map<nat, Own>, root: nat, prefix: nat)
    requires Linked(mem, owner) && Live(owner, root) && prefix < 512
    ensures var t := TableAt(mem, root, 1, prefix);
      t == Child(mem, root, prefix) && (t != 0 ==> t in owner && owner[t] == Tab(root, 1, prefix))
  {
    assert TableOk(mem, owner, root) && LinkOk(mem, owner, root, prefix);
    assert TableAt(mem, root, 2, 0) == root;
  }

  lemma AtLevel0(mem: Mem, owner: map<nat, Own>, root: nat, prefix: nat)
    requires Linked(mem, owner) && Live(owner, root) && prefix < 512 * 512
    ensures var t := TableAt(mem, root, 0, prefix); t != 0 ==> t in owner && owner[t] == Tab(root, 0, prefix)
  {
    AtLevel1(mem, owner, root, prefix / 512);
    var q := TableAt(mem, root, 1, prefix / 512);
    if q != 0 {
      assert TableOk(mem, owner, q) && LinkOk(mem, owner, q, prefix % 512);
    }
  }

  /** A table found by its place is the one owned by that place. */
  lemma AtOwned(mem: Mem, owner: map<nat, Own>, root: nat, level: nat, prefix: nat)
    requires Linked(mem, owner) && Live(owner, root) && level <= 2
    requires prefix < Places(level)
    ensures var t := TableAt(mem, root, level, prefix); t != 0 ==> t in owner && owner[t] == Tab(root, level, prefix)
  {
    if level == 1 {
      AtLevel1(mem, owner, root, prefix);
    } else if level == 0 {
      AtLevel0(mem, owner, root, prefix);
    }
  }

  /** Memory that agrees on all tables gives the same tables and the same map. */
  ghost predicate SameTables(mem: Mem, mem': Mem, owner: map<nat, Own>) {
    forall p :: p in owner && owner[p].Tab? ==> p in mem && p in mem' && mem'[p] == mem[p]
  }

  lemma SameAt(mem: Mem, mem': Mem, owner: map<nat, Own>, root: nat, level: nat, prefix: nat)
    requires Linked(mem, owner) && SameTables(mem, mem', owner) && Live(owner, root) && level <= 2
    requires prefix < Places(level)
    ensures TableAt(mem', root, level, prefix) == TableAt(mem, root, level, prefix)
    decreases 2 - level
  {
    if level < 2 {
      SameAt(mem, mem', owner, root, level + 1, prefix / 512);
      AtOwned(mem, owner, root, level + 1, prefix / 512);
    }
  }

  lemma SameEntry(mem: Mem, mem': Mem, owner: map<nat, Own>, root: nat, vpn: nat)
    requires Linked(mem, owner) && SameTables(mem, mem', owner) && Live(owner, root) && vpn < TOP
    ensures Entry(mem', root, vpn) == Entry(mem, root, vpn)
  {
    SameAt(mem, mem', owner, root, 0, vpn / 512);
    AtOwned(mem, owner, root, 0, vpn / 512);
  }

  lemma SameLinked(mem: Mem, mem': Mem, owner: map<nat, Own>)
    requires Linked(mem, owner) && SameTables(mem, mem', owner)
    ensures Linked(mem', owner)
  {
    forall p | p in owner && owner[p].Tab?
      ensures TableOk(mem', owner, p)
    {
      assert TableOk(mem, owner, p);
      SameAt(mem, mem', owner, owner[p].root, owner[p].level, owner[p].prefix);
    }
    forall p, i | p in owner && owner[p].Tab? && 0 <= i < NPTE
      ensures LinkOk(mem', owner, p, i)
    {
      assert LinkOk(mem, owner, p, i);
    }
  }

  // ---- adding a table

  /** mem with table p, so far free, as entry i of table q. */
  function WithTable(mem: Mem, q: nat, i: nat, p: nat): (mem': Mem)
    requires q in mem && mem[q].Table? && i < |mem[q].ptes|
  {
    mem[p := ZeroTable()][q := Table(mem[q].ptes[i := Pte(p, V)])]
  }

  ghost predicate Addable(mem: Mem, owner: map<nat, Own>, root: nat, level: nat, prefix: nat, q: nat, p: nat) {
    && Linked(mem, owner) && Live(owner, root) && level <= 1 && prefix < Places(level)
    && q != 0 && q == TableAt(mem, root, level + 1, prefix / 512) && TableAt(mem, root, level, prefix) == 0
    && p != 0 && p in mem && p !in owner
  }

  lemma AddableParent(mem: Mem, owner: map<nat, Own>, root: nat, level: nat, prefix: nat, q: nat, p: nat)
    requires Addable(mem, owner, root, level, prefix, q, p)
    ensures q in owner && owner[q] == Tab(root, level + 1, prefix / 512) && TableOk(mem, owner, q) && q != p
  {
    AtOwned(mem, owner, root, level + 1, prefix / 512);
  }

  lemma AddedAt(mem: Mem, owner: map<nat, Own>, root: nat, level: nat, prefix: nat, q: nat, p: nat, mem': Mem, r: nat,
                l: nat, pf: nat)
    requires Addable(mem, owner, root, level, prefix, q, p) && q in mem && mem[q].Table? && |mem[q].ptes| == NPTE
    requires mem' == WithTable(mem, q, prefix % 512, p)
    requires Live(owner, r) && l <= 2 && pf < Places(l)
    ensures TableAt(mem', r, l, pf) == if r == root && l == level && pf == prefix then p else TableAt(mem, r, l, pf)
    decreases 2 - l
  {
    AddableParent(mem, owner, root, level, prefix, q, p);
    if l < 2 {
      AddedAt(mem, owner, root, level, prefix, q, p, mem', r, l + 1, pf / 512);
      AtOwned(mem, owner, r, l + 1, pf / 512);
    }
  }

  lemma AddedEntry(mem: Mem, owner: map<nat, Own>, root: nat, level: nat, prefix: nat, q: nat, p: nat, mem': Mem,
                   r: nat, vpn: nat)
    requires Addable(mem, owner, root, level, prefix, q, p) && q in mem && mem[q].Table? && |mem[q].ptes| == NPTE
    requires mem' == WithTable(mem, q, prefix % 512, p) && Live(owner, r) && vpn < TOP
    ensures Entry(mem', r, vpn) == Entry(mem, r, vpn)
  {
    AddableParent(mem, owner, root, level, prefix, q, p);
    AddedAt(mem, owner, root, level, prefix, q, p, mem', r, 0, vpn / 512);
    AtOwned(mem, owner, r, 0, vpn / 512);
  }

  lemma AddedTable(mem: Mem, owner: map<nat, Own>, root: nat, level: nat, prefix: nat, q: nat, p: nat, mem': Mem,
                   owner': map<nat, Own>, x: nat)
    requires Addable(mem, owner, root, level, prefix, q, p) && q in mem && mem[q].Table? && |mem[q].ptes| == NPTE
    requires mem' == WithTable(mem, q, prefix % 512, p) && owner' == owner[p := Tab(root, level, prefix)]
    requires x in owner' && owner'[x].Tab?
    ensures TableOk(mem', owner', x)
  {
    AddableParent(mem, owner, root, level, prefix, q, p);
    if x == p {
      AddedAt(mem, owner, root, level, prefix, q, p, mem', root, level, prefix);
    } else {
      var o := owner[x];
      assert TableOk(mem, owner, x);
      AddedAt(mem, owner, root, level, prefix, q, p, mem', o.root, o.level, o.prefix);
    }
  }

  lemma AddedLink(mem: Mem, owner: map<nat, Own>, root: nat, level: nat, prefix: nat, q: nat, p: nat, mem': Mem,
                  owner': map<nat, Own>, x: nat, i: nat)
    requires Addable(mem, owner, root, level, prefix, q, p) && q in mem && mem[q].Table? && |mem[q].ptes| == NPTE
    requires mem' == WithTable(mem, q, prefix % 512, p) && owner' == owner[p := Tab(root, level, prefix)]
    requires x in owner' && owner'[x].Tab? && i < NPTE
    ensures LinkOk(mem', owner', x, i)
  {
    AddableParent(mem, owner, root, level, prefix, q, p);
    if x != p {
      assert LinkOk(mem, owner, x, i);
      if x == q && i == prefix % 512 {
        assert Child(mem', q, i) == p;
      } else {
        assert Child(mem', x, i) == Child(mem, x, i);
      }
    }
  }

  lemma AddedLinked(mem: Mem, owner: map<nat, Own>, root: nat, level: nat, prefix: nat, q: nat, p: nat, mem': Mem,
                    owner': map<nat, Own>)
    requires Addable(mem, owner, root, level, prefix, q, p) && q in mem && mem[q].Table? && |mem[q].ptes| == NPTE
    requires mem' == WithTable(mem, q, prefix % 512, p) && owner' == owner[p := Tab(root, level, prefix)]
    ensures Linked(mem', owner')
  {
    forall x | x in owner' && owner'[x].Tab?
      ensures TableOk(mem', owner', x)
    {
      AddedTable(mem, owner, root, level, prefix, q, p, mem', owner', x);
    }
    forall x, i | x in owner' && owner'[x].Tab? && 0 <= i < NPTE
      ensures LinkOk(mem', owner', x, i)
    {
      AddedLink(mem, owner, root, level, prefix, q, p, mem', owner', x, i);
    }
  }

  // ---- setting an entry of a level 0 table

  function WithPte(mem: Mem, t: nat, i: nat, pte: Pte): (mem': Mem)
    requires t in mem && mem[t].Table? && i < |mem[t].ptes|
  {
    mem[t := Table(mem[t].ptes[i := pte])]
  }

  lemma SetAt(mem: Mem, owner: map<nat, Own>, t: nat, i: nat, pte: Pte, mem': Mem, r: nat, l: nat, pf: nat)
    requires Linked(mem, owner) && t in owner && owner[t].Tab? && owner[t].level == 0 && i < NPTE
    requires t in mem && mem[t].Table? && |mem[t].ptes| == NPTE && mem' == WithPte(mem, t, i, pte)
    requires Live(owner, r) && l <= 2 && pf < Places(l)
    ensures TableAt(mem', r, l, pf) == TableAt(mem, r, l, pf)
    decreases 2 - l
  {
    if l < 2 {
      SetAt(mem, owner, t, i, pte, mem', r, l + 1, pf / 512);
      AtOwned(mem, owner, r, l + 1, pf / 512);
    }
  }

  /** Exactly the entry of one virtual page changes. */
  lemma SetEntry(mem: Mem, owner: map<nat, Own>, t: nat, root: nat, vpn: nat, pte: Pte, mem': Mem, r: nat, x: nat)
    requires Linked(mem, owner) && Live(owner, root) && vpn < TOP && t == TableAt(mem, root, 0, vpn / 512) != 0
    requires t in mem && mem[t].Table? && |mem[t].ptes| == NPTE && mem' == WithPte(mem, t, vpn % 512, pte)
    requires Live(owner, r) && x < TOP
    ensures Entry(mem', r, x) == if r == root && x == vpn then (if pte.V() then pte else NOPTE) else Entry(mem, r, x)
  {
    AtOwned(mem, owner, root, 0, vpn / 512);
    AtOwned(mem, owner, r, 0, x / 512);
    SetAt(mem, owner, t, vpn % 512, pte, mem', r, 0, x / 512);
  }

  lemma SetLinked(mem: Mem, owner: map<nat, Own>, t: nat, i: nat, pte: Pte, mem': Mem)
    requires Linked(mem, owner) && t in owner && owner[t].Tab? && owner[t].level == 0 && i < NPTE
    requires t in mem && mem[t].Table? && |mem[t].ptes| == NPTE && mem' == WithPte(mem, t, i, pte)
    ensures Linked(mem', owner)
  {
    forall x | x in owner && owner[x].Tab?
      ensures TableOk(mem', owner, x)
    {
      assert TableOk(mem, owner, x);
      SetAt(mem, owner, t, i, pte, mem', owner[x].root, owner[x].level, owner[x].prefix);
    }
    forall x, j | x in owner && owner[x].Tab? && 0 <= j < NPTE
      ensures LinkOk(mem', owner, x, j)
    {
      assert LinkOk(mem, owner, x, j);
    }
  }

  // ---- removing an empty table

  /** Table p has no valid entry. */
  ghost predicate Bare(mem: Mem, p: nat) {
    p in mem && mem[p].Table? && forall i :: 0 <= i < |mem[p].ptes| ==> !mem[p].ptes[i].V()
  }

  /** mem with entry i of table q cleared, if q is not 0. */
  function Unlinked(mem: Mem, q: nat, i: nat): (mem': Mem) {
    if q != 0 && q in mem && mem[q].Table? && i < |mem[q].ptes| then mem[q := Table(mem[q].ptes[i := NOPTE])] else mem
  }

  ghost predicate Removable(mem: Mem, owner: map<nat, Own>, p: nat, q: nat, i: nat) {
    && Linked(mem, owner) && p in owner && owner[p].Tab? && Bare(mem, p)
    && (if owner[p].level == 2 then q == 0
        else (q in owner && owner[q] == Tab(owner[p].root, owner[p].level + 1, owner[p].prefix / 512)
              && i == owner[p].prefix % 512))
  }

  lemma RemovedAt(mem: Mem, owner: map<nat, Own>, p: nat, q: nat, i: nat, page: Page, mem': Mem, r: nat, l: nat,
                  pf: nat)
    requires Removable(mem, owner, p, q, i) && mem' == Unlinked(mem[p := page], q, i)
    requires Live(owner, r) && r != p && l <= 2 && pf < Places(l)
    ensures TableAt(mem', r, l, pf) == if owner[p] == Tab(r, l, pf) then 0 else TableAt(mem, r, l, pf)
    decreases 2 - l
  {
    assert TableOk(mem, owner, p);
    if q != 0 {
      assert TableOk(mem, owner, q);
    }
    if l < 2 {
      RemovedAt(mem, owner, p, q, i, page, mem', r, l + 1, pf / 512);
      AtOwned(mem, owner, r, l + 1, pf / 512);
      AtOwned(mem, owner, r, l, pf);
      if owner[p] == Tab(r, l + 1, pf / 512) {
        assert TableAt(mem, r, l, pf) == 0;
      } else if TableAt(mem, r, l + 1, pf / 512) == q && q != 0 {
        assert owner[q] == Tab(r, l + 1, pf / 512);
      }
    }
  }

  lemma RemovedEntry(mem: Mem, owner: map<nat, Own>, p: nat, q: nat, i: nat, page: Page, mem': Mem, r: nat, vpn: nat)
    requires Removable(mem, owner, p, q, i) && mem' == Unlinked(mem[p := page], q, i)
    requires Live(owner, r) && r != p && vpn < TOP
    ensures Entry(mem', r, vpn) == Entry(mem, r, vpn)
  {
    RemovedAt(mem, owner, p, q, i, page, mem', r, 0, vpn / 512);
    AtOwned(mem, owner, r, 0, vpn / 512);
  }

  /** The root of a tree goes last. */
  lemma RootAlone(mem: Mem, owner: map<nat, Own>, root: nat, x: nat)
    requires
      && Linked(mem, owner) && Live(owner, root) && Bare(mem, root) && x in owner && owner[x].Tab?
      && owner[x].root == root
    ensures x == root
  {
    assert TableOk(mem, owner, x) && TableOk(mem, owner, root);
    assert TableAt(mem, root, 1, owner[x].prefix) == 0;
    assert TableAt(mem, root, 1, owner[x].prefix / 512) == 0;
  }

  lemma RemovedTable(mem: Mem, owner: map<nat, Own>, p: nat, q: nat, i: nat, page: Page, mem': Mem,
                     owner': map<nat, Own>, x: nat)
    requires Removable(mem, owner, p, q, i) && mem' == Unlinked(mem[p := page], q, i) && owner' == owner - {p}
    requires x in owner' && owner'[x].Tab?
    ensures TableOk(mem', owner', x)
  {
    var o := owner[x];
    assert TableOk(mem, owner, x) && TableOk(mem, owner, p);
    if o.root == p {
      RootAlone(mem, owner, p, x);
    }
    RemovedAt(mem, owner, p, q, i, page, mem', o.root, o.level, o.prefix);
  }

  lemma RemovedLink(mem: Mem, owner: map<nat, Own>, p: nat, q: nat, i: nat, page: Page, mem': Mem,
                    owner': map<nat, Own>, x: nat, j: nat)
    requires Removable(mem, owner, p, q, i) && mem' == Unlinked(mem[p := page], q, i) && owner' == owner - {p}
    requires x in owner' && owner'[x].Tab? && j < NPTE
    ensures LinkOk(mem', owner', x, j)
  {
    assert TableOk(mem, owner, x) && TableOk(mem, owner, p) && LinkOk(mem, owner, x, j);
    var c := Child(mem, x, j);
    if c == p && owner[x].level > 0 {
      assert owner[p] == Tab(owner[x].root, owner[x].level - 1, owner[x].prefix * 512 + j);
      assert owner[q] == owner[x];
      assert TableOk(mem, owner, q);
    }
  }

  lemma RemovedLinked(mem: Mem, owner: map<nat, Own>, p: nat, q: nat, i: nat, page: Page, mem': Mem,
                      owner': map<nat, Own>)
    requires Removable(mem, owner, p, q, i) && mem' == Unlinked(mem[p := page], q, i) && owner' == owner - {p}
    ensures Linked(mem', owner')
  {
    forall x | x in owner' && owner'[x].Tab?
      ensures TableOk(mem', owner', x)
    {
      RemovedTable(mem, owner, p, q, i, page, mem', owner', x);
    }
    forall x, j | x in owner' && owner'[x].Tab? && 0 <= j < NPTE
      ensures LinkOk(mem', owner', x, j)
    {
      RemovedLink(mem, owner, p, q, i, page, mem', owner', x, j);
    }
  }
}
