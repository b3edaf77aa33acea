/** A file system image, as mkfs makes it, seen by the kernel: which inodes the names in the
    root directory lead to. */
module Images {
  import opened Blocks
  import opened Inodes
  import opened Files
  import opened Paths
  import W = Writing
  import M = Mkfs
  import FS = FileSystem
  import IT = InodeTable

  /** Entry m of the root directory. */
  function NameOf(names: seq<seq<byte>>, m: nat): seq<byte>
    requires m < |names| + 2
  {
    if m == 0 then M.DOT else if m == 1 then M.DOTDOT else names[m - 2]
  }

  function InumOf(m: nat): nat { if m < 2 then ROOTINO else m }

  /** Names that directory entries can hold. */
  ghost predicate Writable(names: seq<seq<byte>>) {
    |names| + 2 <= 0x1_0000 && forall k :: 0 <= k < |names| ==> 0 !in names[k]
  }

  lemma {:induction false} EntryAt(names: seq<seq<byte>>, m: nat, off: nat)
    requires m < |names| + 2 && off == m * DIRENT
    ensures off + DIRENT <= |M.Entries(names)|
    ensures M.Entries(names)[off..off + DIRENT] == M.Dirent(InumOf(m), NameOf(names, m))
  {
    var d := M.Entries(names);
    if names == [] {
      assert d[0..DIRENT] == M.Dirent(ROOTINO, M.DOT) && d[DIRENT..2 * DIRENT] == M.Dirent(ROOTINO, M.DOTDOT);
    } else {
      var n := |names| - 1;
      var front := M.Entries(names[..n]);
      if m < n + 2 {
        EntryAt(names[..n], m, off);
        assert d[off..off + DIRENT] == front[off..off + DIRENT];
      } else {
        assert d[off..off + DIRENT] == M.Dirent(|names| + 1, names[n]);
      }
    }
  }

  /** What was written as an entry is read as that entry. */
  lemma DirentRead(f: seq<byte>, off: nat, inum: nat, name: seq<byte>)
    requires off + DIRENT <= |f| && f[off..off + DIRENT] == M.Dirent(inum, name) && inum < 0x1_0000 && 0 !in name
    ensures Inum(f, off) == inum && CName(NameAt(f, off)) == Cut(name)
  {
    var e := M.Dirent(inum, name);
    assert f[off] == e[0] && f[off + 1] == e[1];
    assert Number(f, off + 2, off + 2) == 0 && Number(f, off + 1, off + 2) == e[1] as int;
    assert NameAt(f, off) == e[2..];
    if |name| >= DIRSIZ {
      assert e[2..] == Cut(name) + [];
      CNameIs(Cut(name), []);
    } else {
      var rest := seq(DIRSIZ - |name|, _ => 0 as byte);
      assert e[2..] == name + rest;
      CNameIs(name, rest);
    }
  }

  lemma PartOfPrefix(d: seq<byte>, f: seq<byte>, a: nat, b: nat)
    requires d <= f && a <= b <= |d|
    ensures f[a..b] == d[a..b]
  {
  }

  lemma HitIs(f: seq<byte>, c: seq<byte>, off: nat, inum: nat, name: seq<byte>)
    requires off % DIRENT == 0 && off + DIRENT <= |f| && f[off..off + DIRENT] == M.Dirent(inum, name)
    requires 0 < inum < 0x1_0000 && 0 !in name
    ensures Inum(f, off) == inum && (Hit(f, c, off) <==> Cut(name) == c)
  {
    DirentRead(f, off, inum, name);
  }

  /** Entry m of a directory d, in a longer one. */
  lemma HitIn(d: seq<byte>, f: seq<byte>, c: seq<byte>, off: nat, inum: nat, name: seq<byte>)
    requires off % DIRENT == 0 && off + DIRENT <= |d| && d[off..off + DIRENT] == M.Dirent(inum, name) && d <= f
    requires 0 < inum < 0x1_0000 && 0 !in name
    ensures Inum(f, off) == inum && (Hit(f, c, off) <==> Cut(name) == c)
  {
    PartOfPrefix(d, f, off, off + DIRENT);
    HitIs(f, c, off, inum, name);
  }

  /** Entry m of d is for the name and the inode. */
  ghost predicate Entered(names: seq<seq<byte>>, d: seq<byte>, m: nat) {
    && m < |names| + 2 && m * DIRENT + DIRENT <= |d| && 0 < InumOf(m) < 0x1_0000 && 0 !in NameOf(names, m)
    && d[m * DIRENT..m * DIRENT + DIRENT] == M.Dirent(InumOf(m), NameOf(names, m))
  }

  /** d is the directory with these names. */
  ghost predicate Directory(names: seq<seq<byte>>, d: seq<byte>) {
    |d| == (|names| + 2) * DIRENT && forall m :: 0 <= m < |names| + 2 ==> Entered(names, d, m)
  }

  lemma EntriesAre(names: seq<seq<byte>>)
    requires Writable(names)
    ensures Directory(names, M.Entries(names))
  {
    var d := M.Entries(names);
    forall m | 0 <= m < |names| + 2
      ensures Entered(names, d, m)
    {
      NameFits(names, m);
      EntryAt(names, m, m * DIRENT);
    }
  }

  lemma NameFits(names: seq<seq<byte>>, m: nat)
    requires Writable(names) && m < |names| + 2
    ensures 0 < InumOf(m) < 0x1_0000 && 0 !in NameOf(names, m)
  {
  }

  lemma HitAt(names: seq<seq<byte>>, d: seq<byte>, f: seq<byte>, c: seq<byte>, m: nat, off: nat)
    requires Directory(names, d) && d <= f && m < |names| + 2 && off == m * DIRENT
    ensures off + DIRENT <= |f| && Inum(f, off) == InumOf(m) && (Hit(f, c, off) <==> Cut(NameOf(names, m)) == c)
  {
    assert Entered(names, d, m);
    HitIn(d, f, c, off, InumOf(m), NameOf(names, m));
  }

  /** Entry m is the first with name c. */
  ghost predicate First(names: seq<seq<byte>>, c: seq<byte>, m: nat) {
    && m < |names| + 2 && Cut(NameOf(names, m)) == c
    && forall k :: 0 <= k < m ==> Cut(NameOf(names, k)) != c
  }

  /** The name leads to the inode of its first entry, whatever comes after the entries. */
  lemma FirstLeads(names: seq<seq<byte>>, d: seq<byte>, t: seq<Node>, n: seq<byte>, m: nat)
    requires Directory(names, d) && ROOTINO < |t| && t[ROOTINO].typ == T_DIR && d <= t[ROOTINO].data
    requires First(names, Cut(n), m)
    ensures Leads(t, ROOTINO, n, InumOf(m))
  {
    var f := t[ROOTINO].data;
    HitAt(names, d, f, Cut(n), m, m * DIRENT);
    forall o: nat | o < m * DIRENT
      ensures !Hit(f, Cut(n), o)
    {
      if o % DIRENT == 0 {
        HitAt(names, d, f, Cut(n), o / DIRENT, o);
      }
    }
  }

  /** The rest of the root directory's last block. */
  ghost predicate Filled(d: seq<byte>, f: seq<byte>) {
    d <= f && forall p :: |d| <= p < |f| ==> f[p] == 0
  }

  lemma ZeroInum(f: seq<byte>, off: nat)
    requires off + DIRENT <= |f| && f[off] == 0 && f[off + 1] == 0
    ensures Inum(f, off) == 0
  {
    assert Number(f, off + 2, off + 2) == 0 && Number(f, off + 1, off + 2) == 0;
  }

  /** An entry in use is one of those that were written. */
  lemma OnlyEntries(names: seq<seq<byte>>, d: seq<byte>, f: seq<byte>, off: nat)
    requires Directory(names, d) && Filled(d, f) && off % DIRENT == 0 && off + DIRENT <= |f| && Inum(f, off) != 0
    ensures off / DIRENT < |names| + 2 && Inum(f, off) == InumOf(off / DIRENT)
  {
    if off / DIRENT >= |names| + 2 {
      ZeroInum(f, off);
    } else {
      HitAt(names, d, f, [], off / DIRENT, off);
    }
  }

  /** A name leads somewhere exactly if it is the name of an entry. */
  lemma LeadsFirst(names: seq<seq<byte>>, d: seq<byte>, t: seq<Node>, n: seq<byte>, j: nat)
    requires Directory(names, d) && ROOTINO < |t| && t[ROOTINO].typ == T_DIR && Filled(d, t[ROOTINO].data)
    ensures Leads(t, ROOTINO, n, j) <==> exists m :: First(names, Cut(n), m) && j == InumOf(m)
  {
    var f, c := t[ROOTINO].data, Cut(n);
    if Leads(t, ROOTINO, n, j) {
      var off: nat :| Hit(f, c, off) && Inum(f, off) == j && forall o: nat :: o < off ==> !Hit(f, c, o);
      OnlyEntries(names, d, f, off);
      var m := off / DIRENT;
      HitAt(names, d, f, c, m, off);
      forall k | 0 <= k < m
        ensures Cut(NameOf(names, k)) != c
      {
        HitAt(names, d, f, c, k, k * DIRENT);
      }
      assert First(names, c, m);
    }
    if m :| First(names, c, m) && j == InumOf(m) {
      FirstLeads(names, d, t, n, m);
    }
  }

  // ---- the image

  /** What the tree of an image without a hole is made of; d is the root directory. */
  ghost predicate Planted(t: seq<Node>, names: seq<seq<byte>>, d: seq<byte>, files: seq<seq<byte>>) {
    && |files| == |names| && |files| + 2 <= |t| && t[ROOTINO].typ == T_DIR && t[ROOTINO].nlink == 1
    && Directory(names, d) && Filled(d, t[ROOTINO].data) && |t[ROOTINO].data| % BSIZE == 0
    && (forall i :: 2 <= i < |files| + 2 ==> t[i] == Node(M.T_FILE, 1, files[i - 2]))
    && (forall i :: 0 <= i < |t| && (i == 0 || i >= |files| + 2) ==> t[i].typ == 0)
  }

  lemma NoRootHole(sb: Super, fs: Fs, owner: map<nat, SlotId>, d: seq<byte>, files: seq<seq<byte>>)
    requires M.Built(sb, fs, owner, d, files) && |d| % BSIZE != 0
    ensures NoHoles(fs) && ROOTINO < |fs.inodes| && NoHole(fs, ROOTINO) && fs.inodes[ROOTINO].size == M.RootSize(|d|)
  {
    assert ROOTINO < |fs.inodes|;
  }

  lemma RootByte(sb: Super, fs: Fs, owner: map<nat, SlotId>, d: seq<byte>, files: seq<seq<byte>>, p: nat)
    requires M.Built(sb, fs, owner, d, files) && |d| % BSIZE != 0 && p < M.RootSize(|d|)
    ensures ROOTINO < |fs.inodes| && |fs.inodes[ROOTINO].addrs| == NDIRECT + 1 && p < MAXFILE * BSIZE
    ensures ByteAt(fs, ROOTINO, p) == if p < |d| then d[p] else 0
  {
    NoRootHole(sb, fs, owner, d, files);
    assert ByteAt(fs, ROOTINO, p) == if p < |d| then d[p] else 0;
  }

  lemma RootData(sb: Super, fs: Fs, owner: map<nat, SlotId>, d: seq<byte>, files: seq<seq<byte>>)
    requires M.Built(sb, fs, owner, d, files) && |d| % BSIZE != 0
    ensures NoHoles(fs) && NoHole(fs, ROOTINO) && Filled(d, File(fs, ROOTINO)) && |File(fs, ROOTINO)| % BSIZE == 0
  {
    NoRootHole(sb, fs, owner, d, files);
    var f := File(fs, ROOTINO);
    forall p | 0 <= p < |f|
      ensures f[p] == if p < |d| then d[p] else 0
    {
      RootByte(sb, fs, owner, d, files, p);
    }
    RootFits(|d|);
  }

  lemma RootFits(size: nat)
    ensures size < M.RootSize(size) && M.RootSize(size) % BSIZE == 0
  {
  }

  lemma ImageTree(sb: Super, fs: Fs, owner: map<nat, SlotId>, names: seq<seq<byte>>, d: seq<byte>,
                  files: seq<seq<byte>>)
    requires M.Built(sb, fs, owner, d, files) && |names| == |files| && Directory(names, d) && |d| % BSIZE != 0
    ensures NoHoles(fs) && Planted(Tree(fs), names, d, files)
  {
    RootData(sb, fs, owner, d, files);
    var t := Tree(fs);
    forall i | 2 <= i < |files| + 2
      ensures t[i] == Node(M.T_FILE, 1, files[i - 2])
    {
      var k := i - 2;
      assert NoHole(fs, k + 2) && File(fs, k + 2) == files[k];
    }
  }

  /** Such a tree is sound: every entry is for an inode in use. */
  lemma PlantedSound(t: seq<Node>, names: seq<seq<byte>>, d: seq<byte>, files: seq<seq<byte>>)
    requires Planted(t, names, d, files)
    ensures Closed(t) && Sound(t)
  {
    forall i: nat, off: nat, j: nat | Lists(t, i, off, j)
      ensures j < |t| && t[j].typ != 0 && t[j].nlink != 0
    {
      RootAlone(t, names, d, files, i);
      OnlyEntries(names, d, t[i].data, off);
    }
    forall i | 0 <= i < |t| && t[i].typ == T_DIR
      ensures |t[i].data| % DIRENT == 0
    {
      RootAlone(t, names, d, files, i);
    }
  }

  lemma RootAlone(t: seq<Node>, names: seq<seq<byte>>, d: seq<byte>, files: seq<seq<byte>>, i: nat)
    requires Planted(t, names, d, files) && i < |t| && t[i].typ == T_DIR
    ensures i == ROOTINO && |t[i].data| % DIRENT == 0
  {
    assert i == ROOTINO;
    WholeEntries(|t[i].data|);
  }

  lemma WholeEntries(size: nat)
    requires size % BSIZE == 0
    ensures size % DIRENT == 0
  {
    assert size == BSIZE / DIRENT * (size / BSIZE) * DIRENT;
  }

  /** Names that mkfs is meant for: they differ in what an entry holds of them, and from the
      root directory's own. */
  ghost predicate Different(names: seq<seq<byte>>) {
    && (forall k :: 0 <= k < |names| ==> Cut(names[k]) != M.DOT && Cut(names[k]) != M.DOTDOT)
    && forall j, k :: 0 <= j < k < |names| ==> Cut(names[j]) != Cut(names[k])
  }

  lemma FirstOf(names: seq<seq<byte>>, k: nat)
    requires Different(names) && k < |names|
    ensures First(names, Cut(names[k]), k + 2)
  {
    forall m | 0 <= m < k + 2
      ensures Cut(NameOf(names, m)) != Cut(names[k])
    {
      assert m >= 2 ==> Cut(names[m - 2]) != Cut(names[k]);
    }
  }

  /** In an image each name leads to its file, and the two dots lead to the root directory, even
      if the directory ends in a hole. */
  lemma ImageFinds(names: seq<seq<byte>>, t: seq<Node>, k: nat, j: nat)
    requires Writable(names) && Different(names) && k < |names|
    requires ROOTINO < |t| && t[ROOTINO].typ == T_DIR && M.Entries(names) <= t[ROOTINO].data
    ensures Reaches(t, ROOTINO, [names[k]], j) <==> j == k + 2
    ensures Reaches(t, ROOTINO, [M.DOT], j) <==> j == ROOTINO
    ensures Reaches(t, ROOTINO, [M.DOTDOT], j) <==> j == ROOTINO
  {
    EntriesAre(names);
    DirectoryFinds(names, M.Entries(names), t, k, j);
  }

  lemma DirectoryFinds(names: seq<seq<byte>>, d: seq<byte>, t: seq<Node>, k: nat, j: nat)
    requires Directory(names, d) && Different(names) && k < |names|
    requires ROOTINO < |t| && t[ROOTINO].typ == T_DIR && d <= t[ROOTINO].data
    ensures Reaches(t, ROOTINO, [names[k]], j) <==> j == k + 2
    ensures Reaches(t, ROOTINO, [M.DOT], j) <==> j == ROOTINO
    ensures Reaches(t, ROOTINO, [M.DOTDOT], j) <==> j == ROOTINO
  {
    FirstOf(names, k);
    OneName(names, d, t, names[k], k + 2, j);
    assert First(names, Cut(M.DOT), 0) && First(names, Cut(M.DOTDOT), 1);
    OneName(names, d, t, M.DOT, 0, j);
    OneName(names, d, t, M.DOTDOT, 1, j);
  }

  lemma OneName(names: seq<seq<byte>>, d: seq<byte>, t: seq<Node>, n: seq<byte>, m: nat, j: nat)
    requires Directory(names, d) && First(names, Cut(n), m)
    requires ROOTINO < |t| && t[ROOTINO].typ == T_DIR && d <= t[ROOTINO].data
    ensures Reaches(t, ROOTINO, [n], j) <==> j == InumOf(m)
  {
    FirstLeads(names, d, t, n, m);
    ReachesOn(t, ROOTINO, [n], InumOf(m), j);
    assert [n][1..] == [];
    WalkReaches(t, InumOf(m), [], j);
  }

  /** No other name leads anywhere. */
  lemma ImageLacks(names: seq<seq<byte>>, d: seq<byte>, files: seq<seq<byte>>, t: seq<Node>, n: seq<byte>, j: nat)
    requires Planted(t, names, d, files) && forall m :: 0 <= m < |names| + 2 ==> Cut(NameOf(names, m)) != Cut(n)
    ensures !Leads(t, ROOTINO, n, j)
  {
    LeadsFirst(names, d, t, n, j);
  }

  /** From mkfs to the first read: an image is made, mounted, and the file with name k is looked
      up by its path and read. What is read is what was put in. false: mkfs fails. */
  method ReadFirst(size: nat, nlog: nat, ninodes: nat, super: Block, names: seq<seq<byte>>, files: seq<seq<byte>>,
                   k: nat)
    returns (ok: bool, panicked: bool, inum: nat, data: seq<byte>)
    requires 0 < size <= W.UINT && M.Layout(size, nlog, ninodes).nmeta <= size && |files| + 2 <= ninodes
    requires Writable(names) && Different(names) && (|names| + 2) * DIRENT % BSIZE != 0 && k < |names| == |files|
    requires names[k] != [] && SLASH !in names[k]
    ensures ok ==> !panicked && inum == k + 2 && data == files[k]
  {
    var image := new M.Image(size, nlog, ninodes, super);
    ok := image.Populate(names, files);
    panicked, inum, data := false, 0, [];
    if ok {
      EntriesAre(names);
      ImageTree(image.sb, Fs(image.blocks, image.inodes), image.owner, names, M.Entries(names), files);
      var disk := new FS.FileSystem(image.sb, image.blocks, image.inodes, image.owner);
      panicked, inum, data := Mounted(disk, names, M.Entries(names), files, k);
    }
  }

  /** A mounted image. */
  ghost predicate Mountable(disk: FS.FileSystem)
    reads disk
  {
    disk.Valid() && disk.dinodes == disk.inodes && NoHoles(disk.View())
  }

  method Mounted(disk: FS.FileSystem, names: seq<seq<byte>>, ghost d: seq<byte>, files: seq<seq<byte>>, k: nat)
    returns (panicked: bool, inum: nat, data: seq<byte>)
    requires Mountable(disk) && Planted(Tree(disk.View()), names, d, files) && Different(names) && k < |names|
    requires names[k] != [] && SLASH !in names[k]
    modifies disk
    ensures !panicked && inum == k + 2 && data == files[k]
  {
    ghost var t := Tree(disk.View());
    PlantedSound(t, names, d, files);
    PlantedName(t, names, d, files, k);
    panicked, inum := Found(disk, names[k], k + 2);
    assert t[k + 2] == Node(M.T_FILE, 1, files[k]);
    data := ReadAll(disk, inum, |files[k]|);
  }

  /** namei of a name in the root directory. */
  method Found(disk: FS.FileSystem, n: seq<byte>, ghost i: nat) returns (panicked: bool, inum: nat)
    requires Mountable(disk) && ROOTINO < |disk.inodes| && Closed(Tree(disk.View())) && Sound(Tree(disk.View()))
    requires Tree(disk.View())[ROOTINO].typ != 0 && Tree(disk.View())[ROOTINO].nlink != 0
    requires n != [] && SLASH !in n && 0 !in n && Reaches(Tree(disk.View()), ROOTINO, [n], i)
    modifies disk
    ensures Mountable(disk) && Tree(disk.View()) == old(Tree(disk.View())) && !panicked && inum == i
  {
    var table := new IT.Itable(disk);
    var path := [SLASH] + n;
    NamesBack([n]);
    assert Joined([n]) == path;
    panicked, inum := Resolve(table, path, [n], i);
  }

  method Resolve(table: IT.Itable, path: seq<byte>, ghost names: seq<seq<byte>>, ghost i: nat)
    returns (panicked: bool, inum: nat)
    requires table.Valid() && table.Quiet() && Closed(table.Now()) && IT.Calm(table.items, table.Now(), ROOTINO)
    requires path != [] && path[0] == SLASH && 0 !in path && Names(path) == names
    requires Reaches(table.Now(), ROOTINO, names, i)
    modifies table, table.disk
    ensures table.Valid() && table.Now() == old(table.Now()) && !panicked && inum == i
  {
    ghost var t := table.Now();
    var name := new byte[DIRSIZ];
    var r;
    panicked, r := table.Namex(path, false, 0, 0, ROOTINO, name);
    assert Sought(t, ROOTINO, names, false, i);
    inum := table.items[r].inum;
    WalkReaches(t, ROOTINO, names, i);
    WalkReaches(t, ROOTINO, names, inum);
  }

  method ReadAll(disk: FS.FileSystem, i: nat, n: nat) returns (data: seq<byte>)
    requires Mountable(disk) && i < |disk.inodes| && n == disk.inodes[i].size
    modifies disk
    ensures data == old(Tree(disk.View()))[i].data
  {
    assert NoHole(disk.View(), i);
    var tot;
    tot, data := disk.Readi(i, 0, n, n);
  }

  lemma PlantedName(t: seq<Node>, names: seq<seq<byte>>, d: seq<byte>, files: seq<seq<byte>>, k: nat)
    requires Planted(t, names, d, files) && Different(names) && k < |names|
    ensures Reaches(t, ROOTINO, [names[k]], k + 2) && 0 !in names[k]
  {
    assert Entered(names, d, k + 2);
    FirstOf(names, k);
    OneName(names, d, t, names[k], k + 2, k + 2);
  }
}
