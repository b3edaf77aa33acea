/** kernel/fs.c: the table of in-memory inodes and path lookup over it. */
module InodeTable {
  import opened Blocks
  import opened Common
  import opened Inodes
  import opened Files
  import opened Paths
  import FS = FileSystem

  const NINODE := 50

  /** A table entry: what identifies the inode, and its bookkeeping. */
  datatype Item = Item(dev: nat, inum: nat, ref: nat, valid: bool, locked: bool)

  datatype Key = Key(dev: nat, inum: nat)

  function KeyOf(e: Item): Key { Key(e.dev, e.inum) }

  /** No two live entries are for one inode. */
  ghost predicate Unique(es: seq<Item>) {
    forall j, k :: 0 <= j < k < |es| && es[j].ref > 0 && es[k].ref > 0 ==> KeyOf(es[j]) != KeyOf(es[k])
  }

  /** All references to an inode. */
  ghost function Refs(es: seq<Item>, key: Key): nat {
    if es == [] then 0
    else Refs(es[..|es| - 1], key) + if KeyOf(es[|es| - 1]) == key then es[|es| - 1].ref else 0
  }

  ghost function Part(e: Item, key: Key): nat {
    if KeyOf(e) == key then e.ref else 0
  }

  lemma {:induction false} RefsSet(es: seq<Item>, k: nat, e: Item, key: Key)
    requires k < |es|
    ensures Refs(es[k := e], key) + Part(es[k], key) == Refs(es, key) + Part(e, key)
  {
    var n := |es| - 1;
    var es' := es[k := e];
    if k == n {
      assert es'[..n] == es[..n];
    } else {
      assert es'[..n] == es[..n][k := e];
      RefsSet(es[..n], k, e, key);
    }
  }

  /** The inodes that have live entries. */
  ghost function Live(es: seq<Item>): set<Key> {
    set k | 0 <= k < |es| && es[k].ref > 0 :: KeyOf(es[k])
  }

  lemma {:induction false} LiveRefs(es: seq<Item>, key: Key)
    ensures key in Live(es) <==> Refs(es, key) > 0
  {
    if es != [] {
      var n := |es| - 1;
      LiveRefs(es[..n], key);
      if key in Live(es) {
        var k :| 0 <= k < |es| && es[k].ref > 0 && KeyOf(es[k]) == key;
        assert k < n ==> es[..n][k].ref > 0 && KeyOf(es[..n][k]) == key;
      }
      if key in Live(es[..n]) {
        var k :| 0 <= k < n && es[..n][k].ref > 0 && KeyOf(es[..n][k]) == key;
        assert es[k].ref > 0 && KeyOf(es[k]) == key;
      }
      if KeyOf(es[n]) == key && es[n].ref > 0 {
        assert key in Live(es);
      }
    }
  }

  /** A table without a free entry holds as many inodes as entries. */
  lemma {:induction false} FullTable(es: seq<Item>)
    requires Unique(es) && forall k :: 0 <= k < |es| ==> es[k].ref > 0
    ensures |Live(es)| == |es|
  {
    if es != [] {
      var n := |es| - 1;
      var front := es[..n];
      FullTable(front);
      assert KeyOf(es[n]) !in Live(front);
      assert Live(es) == Live(front) + {KeyOf(es[n])} by {
        forall key | key in Live(es)
          ensures key in Live(front) + {KeyOf(es[n])}
        {
          var k :| 0 <= k < |es| && es[k].ref > 0 && KeyOf(es[k]) == key;
          assert k < n ==> front[k] == es[k];
        }
        forall key | key in Live(front)
          ensures key in Live(es)
        {
          var k :| 0 <= k < n && front[k].ref > 0 && KeyOf(front[k]) == key;
          assert es[k] == front[k];
        }
      }
    }
  }

  /** From es to es' the references to one inode grew by n, which may be negative; those to
      others are as they were. */
  ghost predicate Counted(es: seq<Item>, es': seq<Item>, key: Key, n: int) {
    forall x :: Refs(es', x) == Refs(es, x) + if x == key then n else 0
  }

  /** One entry changes, for an inode that it was for, or while it was free. */
  lemma EntrySet(es: seq<Item>, k: nat, e: Item)
    requires k < |es| && (es[k].ref == 0 || KeyOf(es[k]) == KeyOf(e))
    ensures Counted(es, es[k := e], KeyOf(e), e.ref - es[k].ref)
  {
    forall x
      ensures Refs(es[k := e], x) == Refs(es, x) + if x == KeyOf(e) then e.ref - es[k].ref else 0
    {
      RefsSet(es, k, e, x);
    }
  }

  lemma CountedLive(es: seq<Item>, es': seq<Item>, key: Key, n: int)
    requires Counted(es, es', key, n) && n >= 0
    ensures Live(es) <= Live(es') <= Live(es) + {key}
  {
    forall x
      ensures x in Live(es) <==> Refs(es, x) > 0
      ensures x in Live(es') <==> Refs(es', x) > 0
    {
      LiveRefs(es, x);
      LiveRefs(es', x);
    }
    forall x | x in Live(es')
      ensures x in Live(es) + {key}
    {
      assert Refs(es', x) == Refs(es, x) + if x == key then n else 0;
    }
    forall x | x in Live(es)
      ensures x in Live(es')
    {
      assert Refs(es', x) == Refs(es, x) + if x == key then n else 0;
    }
  }

  /** A live entry has all the references to its inode. */
  lemma {:induction false} RefIs(es: seq<Item>, k: nat)
    requires Unique(es) && k < |es| && es[k].ref > 0
    ensures Refs(es, KeyOf(es[k])) == es[k].ref
  {
    var n := |es| - 1;
    var key := KeyOf(es[k]);
    if k < n {
      RefIs(es[..n], k);
    } else {
      LiveRefs(es[..n], key);
      forall j | 0 <= j < n && es[..n][j].ref > 0
        ensures KeyOf(es[..n][j]) != key
      {
        assert es[..n][j] == es[j];
      }
    }
  }

  /** The table: entries that are locked are live, and those read from disk are for inodes
      that are allocated. */
  ghost predicate Good(es: seq<Item>, t: seq<Node>) {
    && |es| == NINODE && Unique(es) && (forall k :: 0 <= k < |es| && es[k].locked ==> es[k].ref > 0)
    && (forall k :: 0 <= k < |es| && es[k].ref > 0 && es[k].valid && es[k].dev == ROOTDEV ==>
          es[k].inum < |t| && t[es[k].inum].typ != 0)
  }

  /** The entry stays for its inode. */
  lemma GoodChanged(es: seq<Item>, t: seq<Node>, k: nat, e: Item)
    requires Good(es, t) && k < |es| && es[k].ref > 0 && KeyOf(es[k]) == KeyOf(e) && (e.locked ==> e.ref > 0)
    requires e.ref > 0 && e.valid && e.dev == ROOTDEV ==> e.inum < |t| && t[e.inum].typ != 0
    ensures Good(es[k := e], t)
  {
  }

  /** A free entry is taken for an inode that has none. */
  lemma GoodTaken(es: seq<Item>, t: seq<Node>, k: nat, e: Item)
    requires Good(es, t) && k < |es| && es[k].ref == 0 && KeyOf(e) !in Live(es) && !e.valid && !e.locked
    ensures Good(es[k := e], t)
  {
  }

  /** The inode of an entry that is being dropped is freed. */
  lemma GoodFreed(es: seq<Item>, t: seq<Node>, k: nat, e: Item)
    requires Good(es, t) && k < |es| && es[k].ref > 0 && es[k].dev == ROOTDEV && es[k].inum < |t|
    requires KeyOf(es[k]) == KeyOf(e) && !e.valid && (e.locked ==> e.ref > 0)
    ensures Good(es[k := e], t[es[k].inum := Faded(t[es[k].inum])])
  {
  }

  class Itable {
    const disk: FS.FileSystem
    var items: seq<Item>

    /** iinit: the table is zero. */
    constructor (disk: FS.FileSystem)
      requires disk.Valid() && NoHoles(disk.View()) && disk.dinodes == disk.inodes
      ensures Valid() && this.disk == disk && Live(items) == {} && Quiet() && disk.View() == old(disk.View())
    {
      this.disk := disk;
      items := seq(NINODE, _ => Item(0, 0, 0, false, false));
    }

    /** The file system: no file has a hole, and the inodes are on disk. */
    ghost predicate DiskOk()
      reads this, disk
    {
      disk.Valid() && NoHoles(disk.View()) && disk.dinodes == disk.inodes
    }

    ghost function Now(): seq<Node>
      requires DiskOk()
      reads this, disk
    {
      Tree(disk.View())
    }

    ghost predicate Valid()
      reads this, disk
    {
      DiskOk() && Good(items, Now())
    }

    /** No entry is locked. */
    ghost predicate Quiet()
      reads this
    {
      forall k :: 0 <= k < |items| ==> !items[k].locked
    }

    /** ip points to a live entry for inode i of the file system. */
    ghost predicate Points(ip: int, i: nat)
      reads this, disk
    {
      0 <= ip < |items| && items[ip].ref > 0 && KeyOf(items[ip]) == Key(ROOTDEV, i) && i < |disk.inodes|
    }

    /** iget; -1 is the panic "no inodes". */
    method Iget(dev: nat, inum: nat) returns (r: int)
      requires Valid()
      modifies `items
      ensures Valid()
      ensures r == -1 ==> items == old(items) && Key(dev, inum) !in Live(items) && |Live(items)| == NINODE
      ensures r != -1 ==> Gained(old(items), items, r, Key(dev, inum))
    {
      var empty := -1;
      var k := 0;
      while k < NINODE
        invariant 0 <= k <= NINODE && items == old(items) && -1 <= empty < k
        invariant forall j :: 0 <= j < k && items[j].ref > 0 ==> KeyOf(items[j]) != Key(dev, inum)
        invariant empty != -1 ==> items[empty].ref == 0
        invariant empty == -1 ==> forall j :: 0 <= j < k ==> items[j].ref > 0
      {
        if items[k].ref > 0 && items[k].dev == dev && items[k].inum == inum {
          Bump(k);
          return k;
        }
        if empty == -1 && items[k].ref == 0 {
          empty := k;
        }
        k := k + 1;
      }
      if empty == -1 {
        FullTable(items);
        return -1;
      }
      var e := items[empty].(dev := dev, inum := inum, ref := 1, valid := false);
      GoodTaken(items, Now(), empty, e);
      EntrySet(items, empty, e);
      items := items[empty := e];
      return empty;
    }

    method Bump(k: nat)
      requires Valid() && k < NINODE && items[k].ref > 0
      modifies `items
      ensures Valid() && items == old(items)[k := old(items)[k].(ref := old(items)[k].ref + 1)]
      ensures Counted(old(items), items, KeyOf(items[k]), 1)
    {
      var e := items[k].(ref := items[k].ref + 1);
      GoodChanged(items, Now(), k, e);
      EntrySet(items, k, e);
      items := items[k := e];
    }

    /** idup. */
    method Idup(k: nat) returns (r: nat)
      requires Valid() && k < NINODE && items[k].ref > 0
      modifies `items
      ensures Valid() && r == k && Gained(old(items), items, k, KeyOf(old(items)[k]))
      ensures items[k].valid == old(items)[k].valid
    {
      Bump(k);
      r := k;
    }

    /** ilock, on an entry that is not locked; false is a panic. */
    method Ilock(k: nat, ghost i: nat) returns (ok: bool)
      requires Valid() && k < NINODE && Points(k, i) && !items[k].locked
      modifies `items, disk`inodes
      ensures ok <==> old(Now())[i].typ != 0
      ensures disk.inodes == old(disk.inodes)
      ensures ok ==>
          Valid() && items == old(items)[k := old(items)[k].(valid := true, locked := true)] && Now() == old(Now())
    {
      if items[k].ref < 1 {
        return false;
      }
      var inum := items[k].inum;
      if !items[k].valid {
        disk.inodes := disk.inodes[inum := disk.dinodes[inum]];
        assert disk.inodes == old(disk.inodes);
        if disk.inodes[inum].typ == 0 {
          return false;
        }
      }
      var e := items[k].(valid := true, locked := true);
      GoodChanged(items, Now(), k, e);
      items := items[k := e];
      return true;
    }

    /** iunlock; false is a panic. */
    method Iunlock(k: nat) returns (ok: bool)
      requires Valid() && k < NINODE
      modifies `items
      ensures ok <==> old(items)[k].locked && old(items)[k].ref >= 1
      ensures ok ==> Valid() && items == old(items)[k := old(items)[k].(locked := false)]
    {
      if !items[k].locked || items[k].ref < 1 {
        return false;
      }
      var e := items[k].(locked := false);
      GoodChanged(items, Now(), k, e);
      items := items[k := e];
      return true;
    }

    /** iput, on an entry that is not locked: it frees the inode when it drops the last reference
        to one without links. */
    method Iput(k: nat, ghost i: nat)
      requires Valid() && k < NINODE && Points(k, i) && !items[k].locked
      modifies `items, disk
      ensures Valid() && Counted(old(items), items, Key(ROOTDEV, i), -1)
      ensures var frees := old(items[k].ref == 1 && items[k].valid && disk.inodes[i].nlink == 0);
        && items == old(items)[k := old(items[k]).(ref := old(items[k]).ref - 1,
                                                   valid := old(items[k]).valid && !frees)]
        && Now() == if frees then old(Now())[i := Faded(old(Now())[i])] else old(Now())
    {
      ghost var items0, t0 := items, Now();
      if items[k].ref == 1 && items[k].valid && disk.inodes[items[k].inum].nlink == 0 {
        ghost var fs0, o0 := disk.View(), disk.owner;
        var ok := disk.FreeInode(items[k].inum);
        TreeFreed(disk.sb, fs0, o0, disk.View(), disk.owner, i);
        var e := items[k].(valid := false, ref := items[k].ref - 1);
        GoodFreed(items, t0, k, e);
        EntrySet(items, k, e);
        items := items[k := e];
      } else {
        var e := items[k].(ref := items[k].ref - 1);
        GoodChanged(items, t0, k, e);
        EntrySet(items, k, e);
        items := items[k := e];
      }
    }

    /** iunlockput; false is a panic of iunlock. */
    method Iunlockput(k: nat, ghost i: nat) returns (ok: bool)
      requires Valid() && k < NINODE && Points(k, i)
      modifies `items, disk
      ensures ok <==> old(items)[k].locked
      ensures ok ==> && Valid() && Counted(old(items), items, Key(ROOTDEV, i), -1)
                     && Now() == (if old(items[k].ref == 1 && items[k].valid && disk.inodes[i].nlink == 0)
                                  then old(Now())[i := Faded(old(Now())[i])] else old(Now()))
                     && Dropped(old(items), items, k)
    {
      ghost var items0 := items;
      ok := Iunlock(k);
      if ok {
        ghost var items1 := items;
        EntrySet(items0, k, items1[k]);
        Iput(k, i);
        CountedThen(items0, items1, items, KeyOf(items1[k]), 0, -1);
      }
    }

    /** One turn of dirlookup's loop: the entry at off. */
    method ReadEntry(i: nat, off: nat, ghost f: seq<byte>) returns (ok: bool, de: seq<byte>)
      requires DiskOk() && i < |disk.inodes| && f == Now()[i].data && off < |f|
      modifies disk`blocks, disk`logged, disk`inodes, disk`owner
      ensures DiskOk() && disk.View() == old(disk.View())
      ensures ok <==> off + DIRENT <= |f|
      ensures ok ==> de == f[off..off + DIRENT]
    {
      assert NoHole(disk.View(), i) && f == File(disk.View(), i);
      var tot;
      tot, de := disk.Readi(i, off, DIRENT, DIRENT);
      ok := tot == DIRENT;
    }

    /** dirlookup's loop. */
    method FindEntry(i: nat, name: seq<byte>, ghost f: seq<byte>) returns (found: Found)
      requires DiskOk() && i < |disk.inodes| && f == Now()[i].data && |name| == DIRSIZ
      modifies disk`blocks, disk`logged, disk`inodes, disk`owner
      ensures DiskOk() && disk.View() == old(disk.View())
      ensures found == Lookup(f, CName(name), 0)
    {
      ghost var found' := Lookup(f, CName(name), 0);
      var off := 0;
      while off < disk.inodes[i].size
        invariant DiskOk() && disk.View() == old(disk.View()) && |f| == disk.inodes[i].size
        invariant off % DIRENT == 0 && off <= |f| && Lookup(f, CName(name), off) == found'
        decreases |f| - off
      {
        var ok, de := ReadEntry(i, off, f);
        if !ok {
          return Broken;
        }
        EntryBytes(f, off, de);
        LookupStep(f, CName(name), off, off + DIRENT);
        if Inum(de, 0) != 0 {
          var same := SameName(name, NameAt(de, 0));
          if same {
            return Entry(Inum(de, 0), off);
          }
        }
        off := off + DIRENT;
      }
      return Missing;
    }

    /** dirlookup: the entry for the name in the buffer; next == -1 if there is none. */
    method Dirlookup(k: nat, ghost i: nat, name: seq<byte>) returns (panicked: bool, next: int, off: nat)
      requires Valid() && k < NINODE && Points(k, i) && |name| == DIRSIZ && disk.inodes[i].typ == T_DIR
      modifies `items, disk`blocks, disk`logged, disk`inodes, disk`owner
      ensures Valid() && disk.View() == old(disk.View())
      ensures Looked(Lookup(Now()[i].data, CName(name), 0), old(items), items, panicked, next, off)
    {
      ghost var t := Now();
      var found := FindEntry(items[k].inum, name, t[i].data);
      assert items == old(items) && Now() == t;
      off := 0;
      match found
      case Missing => panicked, next := false, -1;
      case Broken => panicked, next := true, -1;
      case Entry(inum, at) =>
        off := at;
        next := Iget(items[k].dev, inum);
        panicked := next == -1;
    }

    /** On the way of namex, with the inode table es0 and the tree t0 at its start: ip has one
        reference to inode i, and only freed inodes have changed. */
    ghost predicate Walking(ip: int, i: nat, es0: seq<Item>, t0: seq<Node>)
      reads this, disk
    {
      && Valid() && Points(ip, i) && Closed(t0) && Fades(t0, Now())
      && Counted(es0, items, Key(ROOTDEV, i), 1)
    }

    /** At the end of namex without a result. */
    ghost predicate Settled(es0: seq<Item>, t0: seq<Node>)
      reads this, disk
    {
      && Valid() && Quiet() && Closed(t0) && Fades(t0, Now())
      && Counted(es0, items, Key(ROOTDEV, 0), 0)
    }

    /** ilock on the way. */
    method Enter(ip: nat, ghost i: nat, ghost es0: seq<Item>, ghost t0: seq<Node>) returns (ok: bool)
      requires Walking(ip, i, es0, t0) && Quiet()
      modifies `items, disk`inodes
      ensures disk.inodes == old(disk.inodes) && (ok <==> old(Now())[i].typ != 0)
      ensures ok ==> Walking(ip, i, es0, t0) && OnlyLocked(items, ip) && Now() == old(Now()) && Now()[i] == t0[i]
    {
      ghost var items0 := items;
      ok := Ilock(ip, i);
      if ok {
        EntrySet(items0, ip, items[ip]);
        CountedThen(es0, items0, items, Key(ROOTDEV, i), 1, 0);
      }
    }

    /** iunlockput on the way out. */
    method Leave(ip: nat, ghost i: nat, ghost es0: seq<Item>, ghost t0: seq<Node>) returns (ok: bool)
      requires Walking(ip, i, es0, t0) && OnlyLocked(items, ip)
      modifies `items, disk
      ensures ok && Settled(es0, t0)
      ensures Calm(es0, t0, i) && old(Now()) == t0 ==> Now() == t0
    {
      ghost var items0, t := items, Now();
      if Calm(es0, t0, i) && t == t0 {
        NotFreed(es0, items, t0, ip, i, 1);
      }
      ok := Iunlockput(ip, i);
      CountedThen(es0, items0, items, Key(ROOTDEV, i), 1, -1);
      FadesOn(t0, t, i);
    }

    /** The end of a turn of namex's loop: iunlockput(ip), then next. */
    method Move(ip: nat, ghost i: nat, next: nat, ghost j: nat, ghost es: seq<Item>, ghost es0: seq<Item>,
                ghost t0: seq<Node>)
      returns (ok: bool)
      requires Valid() && Points(ip, i) && Closed(t0) && Fades(t0, Now()) && j < |t0|
      requires
        && Counted(es0, es, Key(ROOTDEV, i), 1) && Gained(es, items, next, Key(ROOTDEV, j)) && OnlyLocked(es, ip)
        && es[ip].ref > 0
      modifies `items, disk
      ensures ok && Walking(next, j, es0, t0) && Quiet()
      ensures Calm(es0, t0, i) && old(Now()) == t0 ==> Now() == t0
    {
      ghost var items0, t := items, Now();
      if Calm(es0, t0, i) && t == t0 {
        Together(es0, es, items, i, j);
        NotFreed(es0, items, t0, ip, i, 1);
      }
      ok := Iunlockput(ip, i);
      Handover(es0, es, items0, items, Key(ROOTDEV, i), Key(ROOTDEV, j));
      FadesOn(t0, t, i);
    }

    /** The lookup of a name in the locked directory ip, and the step to what it names. */
    method Descend(ip: nat, ghost i: nat, name: seq<byte>, ghost es0: seq<Item>, ghost t0: seq<Node>) returns (r: Turn)
      requires
        && Walking(ip, i, es0, t0) && OnlyLocked(items, ip) && |name| == DIRSIZ && Now()[i] == t0[i]
        && t0[i].typ == T_DIR
      modifies `items, disk
      ensures !r.Stopped?
      ensures r.Failed? ==> Settled(es0, t0) && Lookup(t0[i].data, CName(name), 0).Missing?
      ensures r.Moved? ==> && Lookup(t0[i].data, CName(name), 0).Entry?
                           && Walking(r.ip, Lookup(t0[i].data, CName(name), 0).inum, es0, t0) && Quiet()
      ensures Calm(es0, t0, i) && old(Now()) == t0 ==>
        !r.Panicked? && Now() == t0 && (r.Moved? ==> Calm(es0, t0, Lookup(t0[i].data, CName(name), 0).inum))
    {
      ghost var es := items;
      if Calm(es0, t0, i) {
        RoomLeft(es0, es, t0, i, CName(name));
      }
      var panicked, next, off := Dirlookup(ip, i, name);
      if panicked {
        return Panicked;
      }
      if next == -1 {
        var ok := Leave(ip, i, es0, t0);
        return if ok then Failed else Panicked;
      }
      ghost var found := Lookup(t0[i].data, CName(name), 0);
      EntryListed(t0, i, CName(name));
      var ok := Move(ip, i, next, found.inum, es, es0, t0);
      return if ok then Moved(next) else Panicked;
    }

    /** The body of namex's loop; stop says that the parent was asked for and this is it. */
    method Step(ip: nat, ghost i: nat, name: seq<byte>, stop: bool, ghost es0: seq<Item>, ghost t0: seq<Node>)
      returns (r: Turn)
      requires Walking(ip, i, es0, t0) && Quiet() && |name| == DIRSIZ
      modifies `items, disk
      ensures r.Failed? ==>
          Settled(es0, t0) && (t0[i].typ != T_DIR || (!stop && Lookup(t0[i].data, CName(name), 0).Missing?))
      ensures r.Stopped? ==> Walking(ip, i, es0, t0) && Quiet() && t0[i].typ == T_DIR && stop
      ensures r.Moved? ==> && t0[i].typ == T_DIR && !stop && Lookup(t0[i].data, CName(name), 0).Entry?
                           && Walking(r.ip, Lookup(t0[i].data, CName(name), 0).inum, es0, t0) && Quiet()
      ensures Calm(es0, t0, i) && old(Now()) == t0 ==>
        !r.Panicked? && Now() == t0 && (r.Moved? ==> Calm(es0, t0, Lookup(t0[i].data, CName(name), 0).inum))
    {
      var ok := Enter(ip, i, es0, t0);
      if !ok {
        return Panicked;
      }
      if disk.inodes[items[ip].inum].typ != T_DIR {
        ok := Leave(ip, i, es0, t0);
        return if ok then Failed else Panicked;
      }
      if stop {
        ok := Release(ip, i, es0, t0);
        return if ok then Stopped else Panicked;
      }
      r := Descend(ip, i, name, es0, t0);
    }

    /** iunlock on the way. */
    method Release(ip: nat, ghost i: nat, ghost es0: seq<Item>, ghost t0: seq<Node>) returns (ok: bool)
      requires Walking(ip, i, es0, t0) && OnlyLocked(items, ip)
      modifies `items
      ensures ok && Walking(ip, i, es0, t0) && Quiet()
    {
      ghost var items0 := items;
      ok := Iunlock(ip);
      EntrySet(items0, ip, items[ip]);
      CountedThen(es0, items0, items, Key(ROOTDEV, i), 1, 0);
    }

    /** Where namex stands at the top of its loop: at inode i, with what is left of the path
        from p on still to be looked up. */
    ghost predicate OnWay(path: seq<byte>, parent: bool, i0: nat, ip: nat, i: nat, p: nat, es0: seq<Item>,
                          t0: seq<Node>, calm: bool)
      reads this, disk
    {
      && p <= |path| && Walking(ip, i, es0, t0) && Quiet()
      && Ahead(t0, i0, Names(path), i, Names(path[p..]), parent)
      && (calm ==> Calm(es0, t0, i) && Now() == t0)
    }

    /** One name of the path, of those left. */
    method NamexStep(ip: nat, ghost i: nat, name: seq<byte>, stop: bool, parent: bool, ghost i0: nat,
                     ghost all: seq<seq<byte>>, ghost names: seq<seq<byte>>, ghost rest: seq<seq<byte>>,
                     ghost es0: seq<Item>, ghost t0: seq<Node>, ghost calm: bool)
      returns (turn: Turn, ghost j: nat)
      requires Walking(ip, i, es0, t0) && Quiet() && (calm ==> Calm(es0, t0, i) && Now() == t0)
      requires Ahead(t0, i0, all, i, names, parent) && names != [] && names == [names[0]] + rest
      requires |name| == DIRSIZ && CName(name) == Cut(names[0]) && (stop <==> parent && rest == [])
      modifies `items, disk
      ensures turn.Panicked? ==> !calm
      ensures turn.Failed? ==> Resolved(Walk(t0, i0, all, parent), -1, es0, t0)
      ensures turn.Stopped? ==>
        Resolved(Walk(t0, i0, all, parent), ip, es0, t0) && all != [] && CName(name) == Cut(Last(all))
      ensures turn.Moved? ==>
        && Walking(turn.ip, j, es0, t0) && Quiet() && Ahead(t0, i0, all, j, rest, parent)
        && (calm ==> Calm(es0, t0, j))
      ensures calm ==> Now() == t0
    {
      AheadOn(t0, i0, all, i, names, rest, parent);
      turn := Step(ip, i, name, stop, es0, t0);
      j := if turn.Moved? then Lookup(t0[i].data, Cut(names[0]), 0).inum else i;
    }

    /** One turn of namex's loop; q is -1 at the end of the path. */
    method NamexTurn(path: seq<byte>, parent: bool, ghost i0: nat, ip: nat, ghost i: nat, p: nat, name: array<byte>,
                     ghost es0: seq<Item>, ghost t0: seq<Node>, ghost calm: bool)
      returns (q: int, turn: Turn, ghost j: nat)
      requires OnWay(path, parent, i0, ip, i, p, es0, t0, calm) && 0 !in path && name.Length == DIRSIZ
      modifies `items, disk, name
      ensures q == -1 ==> OnWay(path, parent, i0, ip, i, p, es0, t0, calm) && Names(path[p..]) == []
      ensures q != -1 && turn.Panicked? ==> !calm
      ensures q != -1 && turn.Failed? ==> Resolved(Walk(t0, i0, Names(path), parent), -1, es0, t0)
      ensures q != -1 && turn.Stopped? ==>
        && Resolved(Walk(t0, i0, Names(path), parent), ip, es0, t0)
        && Names(path) != [] && CName(name[..]) == Cut(Last(Names(path)))
      ensures q != -1 && turn.Moved? ==> p < q && OnWay(path, parent, i0, turn.ip, j, q, es0, t0, calm)
      ensures calm ==> Now() == t0
    {
      q := Skipelem(path, p, name);
      if q == -1 {
        turn, j := Stopped, i;
      } else {
        turn, j := NamexStep(ip, i, name[..], parent && q == |path|, parent, i0, Names(path), Names(path[p..]),
                             Names(path[q..]), es0, t0, calm);
      }
    }

    /** namex from inode i0, at start, for the names of the path. */
    method NamexLoop(path: seq<byte>, parent: bool, start: nat, ghost i0: nat, name: array<byte>, ghost es0: seq<Item>,
                     ghost t0: seq<Node>)
      returns (panicked: bool, r: int)
      requires Walking(start, i0, es0, t0) && Quiet() && 0 !in path && name.Length == DIRSIZ
      modifies `items, disk, name
      ensures !panicked ==> Resolved(Walk(t0, i0, Names(path), parent), r, es0, t0)
      ensures !panicked && r != -1 && parent ==> Names(path) != [] && CName(name[..]) == Cut(Last(Names(path)))
      ensures Calm(es0, t0, i0) && old(Now()) == t0 ==> !panicked && Now() == t0
    {
      var ip, p := start, 0;
      ghost var i, calm := i0, Calm(es0, t0, i0) && Now() == t0;
      assert path[0..] == path;
      while true
        invariant p <= |path| && OnWay(path, parent, i0, ip, i, p, es0, t0, calm)
        decreases |path| - p
      {
        var q, turn, j := NamexTurn(path, parent, i0, ip, i, p, name, es0, t0, calm);
        if q == -1 {
          break;
        }
        match turn
        case Panicked => return true, -1;
        case Failed => return false, -1;
        case Stopped => return false, ip;
        case Moved(next) => ip, p, i := next, q, j;
      }
      if parent {
        GiveUp(ip, i, es0, t0);
        return false, -1;
      }
      return false, ip;
    }

    /** iput of what the path led to. */
    method GiveUp(ip: nat, ghost i: nat, ghost es0: seq<Item>, ghost t0: seq<Node>)
      requires Walking(ip, i, es0, t0) && Quiet()
      modifies `items, disk
      ensures Settled(es0, t0)
      ensures Calm(es0, t0, i) && old(Now()) == t0 ==> Now() == t0
    {
      ghost var items0, t := items, Now();
      if Calm(es0, t0, i) && t == t0 {
        NotFreed(es0, items, t0, ip, i, 1);
      }
      Iput(ip, i);
      CountedThen(es0, items0, items, Key(ROOTDEV, i), 1, -1);
      FadesOn(t0, t, i);
    }

    /** What namex leaves, given what the names lead to. */
    ghost predicate Resolved(w: Where, r: int, es0: seq<Item>, t0: seq<Node>)
      reads this, disk
    {
      match w
      case Nowhere => r == -1 && Settled(es0, t0)
      case At(j) => Walking(r, j, es0, t0) && Quiet()
    }

    /** namex: whenever it returns, r is an entry for the inode that the names of the path lead to
        in the tree as it was, with one more reference to that inode and to no other; or there is
        no such inode, and no more references to any. cwd is the entry of the current
        directory, dir; from is where the path starts. */
    method Namex(path: seq<byte>, parent: bool, cwd: nat, ghost dir: nat, ghost from: nat, name: array<byte>)
      returns (panicked: bool, r: int)
      requires
        && Valid() && Quiet() && Closed(Now()) && ROOTINO < |disk.inodes| && 0 !in path && name.Length == DIRSIZ
        && (path == [] || path[0] != SLASH ==> Points(cwd, dir))
      requires from == if path != [] && path[0] == SLASH then ROOTINO else dir
      modifies `items, disk, name
      ensures !panicked && r == -1 ==>
        && Settled(old(items), old(Now()))
        && forall j :: !Sought(old(Now()), from, Names(path), parent, j)
      ensures !panicked && r != -1 ==>
        && 0 <= r < |items| && Walking(r, items[r].inum, old(items), old(Now())) && Quiet()
        && Sought(old(Now()), from, Names(path), parent, items[r].inum)
      ensures !panicked && r != -1 && parent ==> Names(path) != [] && CName(name[..]) == Cut(Last(Names(path)))
      ensures Calm(old(items), old(Now()), from) ==> !panicked && Now() == old(Now())
    {
      ghost var es0, t0 := items, Now();
      var ip: int;
      if path != [] && path[0] == SLASH {
        ip := Iget(ROOTDEV, ROOTINO);
        if ip == -1 {
          return true, -1;
        }
      } else {
        ip := Idup(cwd);
      }
      panicked, r := NamexLoop(path, parent, ip, from, name, es0, t0);
      if !panicked {
        ResolvedFinds(t0, from, Names(path), parent, r, es0);
      }
    }

    lemma ResolvedFinds(t0: seq<Node>, i: nat, names: seq<seq<byte>>, parent: bool, r: int, es0: seq<Item>)
      requires Resolved(Walk(t0, i, names, parent), r, es0, t0)
      ensures r == -1 ==> Settled(es0, t0) && forall j :: !Sought(t0, i, names, parent, j)
      ensures r != -1 ==>
        && 0 <= r < |items| && Walking(r, items[r].inum, es0, t0) && Quiet()
        && Sought(t0, i, names, parent, items[r].inum)
    {
      forall j: nat
        ensures Walk(t0, i, names, parent) == At(j) <==> Sought(t0, i, names, parent, j)
      {
        WalkFinds(t0, i, names, parent, j);
      }
    }
  }

  /** Lookup from i for what is left of the names is lookup from i0 for all of them. */
  ghost predicate Ahead(t0: seq<Node>, i0: nat, all: seq<seq<byte>>, i: nat, names: seq<seq<byte>>, parent: bool) {
    && Walk(t0, i, names, parent) == Walk(t0, i0, all, parent)
    && (names != [] ==> all != [] && Last(all) == Last(names))
  }

  lemma AheadOn(t0: seq<Node>, i0: nat, all: seq<seq<byte>>, i: nat, names: seq<seq<byte>>, rest: seq<seq<byte>>,
                parent: bool)
    requires Ahead(t0, i0, all, i, names, parent) && names != [] && names == [names[0]] + rest && i < |t0|
    ensures t0[i].typ != T_DIR ==> Walk(t0, i0, all, parent) == Nowhere
    ensures t0[i].typ == T_DIR && parent && rest == [] ==> Walk(t0, i0, all, parent) == At(i) && Last(all) == names[0]
    ensures t0[i].typ == T_DIR && !(parent && rest == []) ==>
      var found := Lookup(t0[i].data, Cut(names[0]), 0);
      if found.Entry? then Ahead(t0, i0, all, found.inum, rest, parent) else Walk(t0, i0, all, parent) == Nowhere
  {
    assert names[1..] == rest;
  }

  function Last(names: seq<seq<byte>>): seq<byte>
    requires names != []
  {
    names[|names| - 1]
  }

  /** How a turn of namex's loop ends. */
  datatype Turn = Panicked | Failed | Stopped | Moved(ip: nat)

  ghost predicate OnlyLocked(es: seq<Item>, ip: int) {
    0 <= ip < |es| && es[ip].locked && forall k :: 0 <= k < |es| && k != ip ==> !es[k].locked
  }

  /** Entry k lost one reference, and its lock. */
  ghost predicate Dropped(es: seq<Item>, es': seq<Item>, k: nat) {
    && k < NINODE == |es| == |es'| && (forall j :: 0 <= j < NINODE && j != k ==> es'[j] == es[j])
    && !es'[k].locked && KeyOf(es'[k]) == KeyOf(es[k]) && es'[k].ref == es[k].ref - 1
  }

  /** Nothing on the way can panic or be freed: the file system is sound, inode i is allocated
      and linked or held by others, and two more inodes fit into the table. */
  ghost predicate Calm(es0: seq<Item>, t0: seq<Node>, i: nat) {
    && Sound(t0) && |Live(es0)| + 2 <= NINODE && i < |t0| && t0[i].typ != 0
    && (t0[i].nlink != 0 || Refs(es0, Key(ROOTDEV, i)) > 0)
  }

  lemma NotFreed(es0: seq<Item>, es: seq<Item>, t0: seq<Node>, ip: nat, i: nat, n: nat)
    requires Calm(es0, t0, i) && Unique(es) && ip < |es| && es[ip].ref > 0 && KeyOf(es[ip]) == Key(ROOTDEV, i)
    requires Refs(es, Key(ROOTDEV, i)) >= Refs(es0, Key(ROOTDEV, i)) + n && n >= 1
    ensures es[ip].ref > 1 || t0[i].nlink != 0
  {
    RefIs(es, ip);
  }

  lemma Together(es0: seq<Item>, es: seq<Item>, es': seq<Item>, i: nat, j: nat)
    requires Counted(es0, es, Key(ROOTDEV, i), 1) && Counted(es, es', Key(ROOTDEV, j), 1)
    ensures Refs(es', Key(ROOTDEV, i)) >= Refs(es0, Key(ROOTDEV, i)) + 1
  {
    assert Refs(es', Key(ROOTDEV, i)) >= Refs(es, Key(ROOTDEV, i));
  }

  lemma Handover(es0: seq<Item>, es1: seq<Item>, es2: seq<Item>, es3: seq<Item>, a: Key, b: Key)
    requires Counted(es0, es1, a, 1) && Counted(es1, es2, b, 1) && Counted(es2, es3, a, -1)
    ensures Counted(es0, es3, b, 1)
  {
    forall x
      ensures Refs(es3, x) == Refs(es0, x) + if x == b then 1 else 0
    {
      assert Refs(es1, x) == Refs(es0, x) + if x == a then 1 else 0;
      assert Refs(es2, x) == Refs(es1, x) + if x == b then 1 else 0;
    }
  }

  lemma FadesOn(t0: seq<Node>, t: seq<Node>, i: nat)
    requires Fades(t0, t) && i < |t|
    ensures Fades(t0, t[i := Faded(t[i])])
  {
  }

  /** dirlookup neither meets a broken directory nor a full table. */
  lemma RoomLeft(es0: seq<Item>, es: seq<Item>, t0: seq<Node>, i: nat, name: seq<byte>)
    requires Calm(es0, t0, i) && Counted(es0, es, Key(ROOTDEV, i), 1)
    ensures |Live(es)| < NINODE && (t0[i].typ == T_DIR ==> !Lookup(t0[i].data, name, 0).Broken?)
  {
    CountedLive(es0, es, Key(ROOTDEV, i), 1);
    Subsets(Live(es), Live(es0) + {Key(ROOTDEV, i)});
  }

  /** What a lookup finds is an inode of the file system. */
  lemma EntryListed(t: seq<Node>, i: nat, name: seq<byte>)
    requires Closed(t) && i < |t| && t[i].typ == T_DIR && Lookup(t[i].data, name, 0).Entry?
    ensures var j := Lookup(t[i].data, name, 0).inum;
      j < |t| && (Sound(t) ==> t[j].typ != 0 && t[j].nlink != 0)
  {
    var found := Lookup(t[i].data, name, 0);
    assert Lists(t, i, found.off, found.inum);
  }

  /** What dirlookup does with the entry it found: an inode without a table entry and no room
      for one is a panic. */
  ghost predicate Looked(found: Found, es: seq<Item>, es': seq<Item>, panicked: bool, next: int, off: nat) {
    match found
    case Missing => !panicked && next == -1 && es' == es
    case Broken => panicked
    case Entry(j, o) =>
      if panicked then |Live(es)| == NINODE
      else off == o && Gained(es, es', next, Key(ROOTDEV, j))
  }

  /** One more reference to an inode, at entry r. */
  ghost predicate Gained(es: seq<Item>, es': seq<Item>, r: int, key: Key) {
    && 0 <= r < NINODE == |es| == |es'| && KeyOf(es'[r]) == key && es'[r].ref > 0
    && es' == es[r := es'[r]] && es'[r].locked == es[r].locked && Counted(es, es', key, 1)
    && (es[r].ref > 0 ==> KeyOf(es[r]) == key && es'[r].ref == es[r].ref + 1)
  }

  lemma LookupStep(f: seq<byte>, name: seq<byte>, off: nat, next: nat)
    requires off % DIRENT == 0 && off + DIRENT <= |f| && next == off + DIRENT
    ensures next % DIRENT == 0
    ensures Lookup(f, name, off) ==
            if Inum(f, off) != 0 && CName(NameAt(f, off)) == name then Entry(Inum(f, off), off)
            else Lookup(f, name, next)
  {
  }

  lemma EntryBytes(f: seq<byte>, off: nat, de: seq<byte>)
    requires off + DIRENT <= |f| && de == f[off..off + DIRENT]
    ensures |de| == DIRENT && Inum(de, 0) == Inum(f, off) && NameAt(de, 0) == NameAt(f, off)
  {
    assert de[0] == f[off] && de[1] == f[off + 1];
    assert Number(de, 0, 2) == de[0] + 256 * Number(de, 1, 2);
    assert Number(f, off, off + 2) == f[off] + 256 * Number(f, off + 1, off + 2);
  }

  lemma CountedThen(es: seq<Item>, es1: seq<Item>, es2: seq<Item>, key: Key, n: int, m: int)
    requires Counted(es, es1, key, n) && Counted(es1, es2, key, m)
    ensures Counted(es, es2, key, n + m)
  {
    forall x
      ensures Refs(es2, x) == Refs(es, x) + if x == key then n + m else 0
    {
      assert Refs(es1, x) == Refs(es, x) + if x == key then n else 0;
    }
  }
}
