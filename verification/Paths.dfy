/** kernel/fs.c: path names, directory entries and the tree they describe, as values. */
module Paths {
  import opened Blocks
  import opened Inodes
  import opened Files

  const SLASH: byte := 47

  // ---- path names

  /** The pieces of a path between slashes; there is always one more than slashes. */
  function Split(path: seq<byte>): (r: seq<seq<byte>>)
    ensures |r| >= 1
  {
    if path == [] then [[]]
    else
      var rest := Split(path[1..]);
      if path[0] == SLASH then [[]] + rest else [[path[0]] + rest[0]] + rest[1..]
  }

  function NonEmpty(pieces: seq<seq<byte>>): seq<seq<byte>> {
    if pieces == [] then []
    else (if pieces[0] == [] then [] else [pieces[0]]) + NonEmpty(pieces[1..])
  }

  /** The names in a path. */
  function Names(path: seq<byte>): seq<seq<byte>> {
    NonEmpty(Split(path))
  }

  function Cut(name: seq<byte>): seq<byte> {
    if |name| > DIRSIZ then name[..DIRSIZ] else name
  }

  lemma LeadingSlash(path: seq<byte>)
    requires path != [] && path[0] == SLASH
    ensures Names(path) == Names(path[1..])
  {
    var rest := Split(path[1..]);
    assert ([[]] + rest)[1..] == rest;
  }

  lemma {:induction false} SplitWord(w: seq<byte>, rest: seq<byte>)
    requires SLASH !in w
    ensures Split(w + rest) == [w + Split(rest)[0]] + Split(rest)[1..]
  {
    var pieces := Split(rest);
    if w == [] {
      assert w + rest == rest && [] + pieces[0] == pieces[0];
      assert [pieces[0]] + pieces[1..] == pieces;
    } else {
      var tail := w[1..] + rest;
      assert (w + rest)[1..] == tail;
      SplitWord(w[1..], rest);
      assert Split(tail)[0] == w[1..] + pieces[0] && Split(tail)[1..] == pieces[1..];
      assert [w[0]] + (w[1..] + pieces[0]) == w + pieces[0];
    }
  }

  /** A name and what follows it. */
  lemma FirstName(w: seq<byte>, rest: seq<byte>)
    requires w != [] && SLASH !in w && (rest == [] || rest[0] == SLASH)
    ensures Names(w + rest) == [w] + Names(rest)
  {
    SplitWord(w, rest);
    var pieces := Split(rest);
    assert pieces[0] == [] && w + pieces[0] == w;
    assert ([w] + pieces[1..])[1..] == pieces[1..];
    assert pieces == [[]] + pieces[1..];
  }

  /** A path made of names. */
  function Joined(names: seq<seq<byte>>): seq<byte> {
    if names == [] then [] else [SLASH] + names[0] + Joined(names[1..])
  }

  /** The names of a path are those it was made of. */
  lemma {:induction false} NamesBack(names: seq<seq<byte>>)
    requires forall k :: 0 <= k < |names| ==> names[k] != [] && SLASH !in names[k]
    ensures Names(Joined(names)) == names
  {
    if names != [] {
      var rest := Joined(names[1..]);
      NamesBack(names[1..]);
      LeadingSlash(Joined(names));
      assert Joined(names)[1..] == names[0] + rest;
      FirstName(names[0], rest);
    }
  }

  /** The name in a buffer: up to a NUL, if there is one. */
  function CName(b: seq<byte>): seq<byte> {
    if b == [] || b[0] == 0 then [] else [b[0]] + CName(b[1..])
  }

  lemma {:induction false} CNameIs(w: seq<byte>, rest: seq<byte>)
    requires 0 !in w && (rest == [] || rest[0] == 0)
    ensures CName(w + rest) == w
  {
    if w == [] {
      assert w + rest == rest;
    } else {
      CNameIs(w[1..], rest);
      assert (w + rest)[1..] == w[1..] + rest;
    }
  }

  /** namecmp, by strncmp: the two buffers hold the same name. */
  method SameName(a: seq<byte>, b: seq<byte>) returns (same: bool)
    requires |a| == |b| == DIRSIZ
    ensures same <==> CName(a) == CName(b)
  {
    var n := 0;
    assert a[0..] == a && b[0..] == b;
    while n < DIRSIZ && a[n] != 0 && a[n] == b[n]
      invariant 0 <= n <= DIRSIZ && (CName(a) == CName(b) <==> CName(a[n..]) == CName(b[n..]))
    {
      assert a[n..][1..] == a[n + 1..] && b[n..][1..] == b[n + 1..];
      OneMore(a[n], CName(a[n + 1..]), CName(b[n + 1..]));
      n := n + 1;
    }
    if n == DIRSIZ {
      return true;
    }
    NamesPart(a[n..], b[n..]);
    same := a[n] == b[n];
  }

  lemma NamesPart(x: seq<byte>, y: seq<byte>)
    requires x != [] && y != [] && (x[0] == 0 || x[0] != y[0])
    ensures CName(x) == CName(y) <==> x[0] == y[0]
  {
    assert x[0] != 0 ==> CName(x)[0] == x[0];
    assert y[0] != 0 ==> CName(y)[0] == y[0];
  }

  lemma OneMore(c: byte, x: seq<byte>, y: seq<byte>)
    ensures [c] + x == [c] + y <==> x == y
  {
    assert ([c] + x)[1..] == x && ([c] + y)[1..] == y;
  }

  /** skipelem: the first name from p on goes to the buffer; the result is the place of the
      one after it, or -1 if there is no name. */
  method Skipelem(path: seq<byte>, p: nat, name: array<byte>) returns (q: int)
    requires p <= |path| && 0 !in path && name.Length == DIRSIZ
    modifies name
    ensures q == -1 <==> Names(path[p..]) == []
    ensures q == -1 ==> name[..] == old(name[..])
    ensures q != -1 ==> && p < q <= |path| && Names(path[p..]) == [Names(path[p..])[0]] + Names(path[q..])
                        && CName(name[..]) == Cut(Names(path[p..])[0])
                        && (q == |path| <==> Names(path[q..]) == [])
  {
    var s := SkipSlashes(path, p);
    if s == |path| {
      return -1;
    }
    var e := s;
    while e < |path| && path[e] != SLASH
      invariant s <= e <= |path| && SLASH !in path[s..e]
      invariant e == s ==> e < |path| && path[e] != SLASH
    {
      e := e + 1;
    }
    NameFrom(path, s, e);
    CopyName(path[s..e], name);
    q := SkipSlashes(path, e);
    if q < |path| {
      SomeName(path[q..]);
    }
  }

  lemma NameFrom(path: seq<byte>, s: nat, e: nat)
    requires s < e <= |path| && SLASH !in path[s..e] && (e < |path| ==> path[e] == SLASH) && 0 !in path
    ensures Names(path[s..]) == [path[s..e]] + Names(path[e..]) && 0 !in path[s..e]
  {
    assert path[s..] == path[s..e] + path[e..];
    FirstName(path[s..e], path[e..]);
  }

  /** The end of skipelem: the name goes to the buffer, with a NUL if there is room. */
  method CopyName(w: seq<byte>, name: array<byte>)
    requires 0 !in w && name.Length == DIRSIZ
    modifies name
    ensures CName(name[..]) == Cut(w)
  {
    var n := if |w| >= DIRSIZ then DIRSIZ else |w|;
    for k := 0 to n
      invariant forall j :: 0 <= j < k ==> name[j] == w[j]
    {
      name[k] := w[k];
    }
    if |w| < DIRSIZ {
      name[|w|] := 0;
    }
    assert name[..] == w[..n] + name[n..];
    assert w[..n] == Cut(w);
    CNameIs(w[..n], name[n..]);
  }

  lemma SomeName(path: seq<byte>)
    requires path != [] && path[0] != SLASH
    ensures Names(path) != []
  {
  }

  method SkipSlashes(path: seq<byte>, p: nat) returns (q: nat)
    requires p <= |path|
    ensures p <= q <= |path| && Names(path[q..]) == Names(path[p..]) && (q < |path| ==> path[q] != SLASH)
  {
    q := p;
    while q < |path| && path[q] == SLASH
      invariant p <= q <= |path| && Names(path[q..]) == Names(path[p..])
    {
      LeadingSlash(path[q..]);
      assert path[q..][1..] == path[q + 1..];
      q := q + 1;
    }
  }

  // ---- directories

  /** The inode number and the name of the entry at off. */
  function Inum(f: seq<byte>, off: nat): nat
    requires off + DIRENT <= |f|
  {
    Number(f, off, off + 2)
  }

  function NameAt(f: seq<byte>, off: nat): (b: seq<byte>)
    requires off + DIRENT <= |f|
    ensures |b| == DIRSIZ
  {
    f[off + 2..off + DIRENT]
  }

  /** An entry in use for the name stands at off. */
  predicate Hit(f: seq<byte>, name: seq<byte>, off: nat) {
    off % DIRENT == 0 && off + DIRENT <= |f| && Inum(f, off) != 0 && CName(NameAt(f, off)) == name
  }

  /** What a lookup gives: no entry, an entry cut off by the end of the directory before any
      match, or the first entry for the name. */
  datatype Found = Missing | Broken | Entry(inum: nat, off: nat)

  function Lookup(f: seq<byte>, name: seq<byte>, off: nat): (r: Found)
    requires off % DIRENT == 0 && off <= |f|
    ensures r.Entry? ==> && off <= r.off && Hit(f, name, r.off) && r.inum == Inum(f, r.off)
                         && forall o :: off <= o < r.off ==> !Hit(f, name, o)
    ensures !r.Entry? ==> (r.Missing? <==> |f| % DIRENT == 0) && forall o :: off <= o ==> !Hit(f, name, o)
    decreases |f| - off
  {
    if off == |f| then Missing
    else if off + DIRENT > |f| then Broken
    else if Hit(f, name, off) then Entry(Inum(f, off), off)
    else NotBetween(f, name, off); Lookup(f, name, off + DIRENT)
  }

  lemma NotBetween(f: seq<byte>, name: seq<byte>, off: nat)
    requires off % DIRENT == 0 && !Hit(f, name, off)
    ensures forall o :: off <= o < off + DIRENT ==> !Hit(f, name, o)
  {
  }

  // ---- the tree

  /** An inode as path lookup sees it. */
  datatype Node = Node(typ: nat, nlink: nat, data: seq<byte>)

  ghost function Tree(fs: Fs): (t: seq<Node>)
    requires NoHoles(fs)
    ensures |t| == |fs.inodes|
    ensures forall j :: 0 <= j < |t| ==>
      NoHole(fs, j) && t[j] == Node(fs.inodes[j].typ, fs.inodes[j].nlink, File(fs, j))
  {
    seq(|fs.inodes|, j requires 0 <= j < |fs.inodes| =>
      assert NoHole(fs, j); Node(fs.inodes[j].typ, fs.inodes[j].nlink, File(fs, j)))
  }

  /** The inode that was freed by iput. */
  function Faded(n: Node): Node {
    Node(0, n.nlink, [])
  }

  /** The first entry in use for the name in directory d is for inode j. */
  ghost predicate Leads(t: seq<Node>, d: nat, name: seq<byte>, j: nat) {
    && d < |t| && t[d].typ == T_DIR
    && exists off: nat :: Hit(t[d].data, Cut(name), off) && Inum(t[d].data, off) == j
                          && forall o: nat :: o < off ==> !Hit(t[d].data, Cut(name), o)
  }

  /** The inodes d, from i to j, each of them the one that the name leads to from the last. */
  ghost predicate Trail(t: seq<Node>, d: seq<nat>, i: nat, names: seq<seq<byte>>, j: nat) {
    && |d| == |names| + 1 && d[0] == i && d[|names|] == j
    && forall k :: 0 <= k < |names| ==> Leads(t, d[k], names[k], d[k + 1])
  }

  ghost predicate Reaches(t: seq<Node>, i: nat, names: seq<seq<byte>>, j: nat) {
    exists d :: Trail(t, d, i, names, j)
  }

  /** What namex is to find: the inode that the names lead to, or with parent the directory that
      all of them but the last lead to. */
  ghost predicate Sought(t: seq<Node>, i: nat, names: seq<seq<byte>>, parent: bool, j: nat) {
    if parent then names != [] && Reaches(t, i, names[..|names| - 1], j) && j < |t| && t[j].typ == T_DIR
    else Reaches(t, i, names, j)
  }

  datatype Where = Nowhere | At(inum: nat)

  /** Component-by-component lookup from inode i: the last one's inode, or with parent the
      directory for the last name. */
  function Walk(t: seq<Node>, i: nat, names: seq<seq<byte>>, parent: bool): Where
    decreases |names|
  {
    if names == [] then (if parent then Nowhere else At(i))
    else if i >= |t| || t[i].typ != T_DIR then Nowhere
    else if parent && |names| == 1 then At(i)
    else match Lookup(t[i].data, Cut(names[0]), 0)
      case Entry(j, _) => Walk(t, j, names[1..], parent)
      case _ => Nowhere
  }

  lemma LeadsIs(t: seq<Node>, d: nat, name: seq<byte>, j: nat)
    ensures Leads(t, d, name, j) <==>
      d < |t| && t[d].typ == T_DIR && var r := Lookup(t[d].data, Cut(name), 0); r.Entry? && r.inum == j
  {
    if d < |t| && t[d].typ == T_DIR {
      var f, r := t[d].data, Lookup(t[d].data, Cut(name), 0);
      if r.Entry? {
        assert Hit(f, Cut(name), r.off);
      }
    }
  }

  /** The lookup without parent finds what the names lead to, and that alone. */
  lemma {:induction false} WalkReaches(t: seq<Node>, i: nat, names: seq<seq<byte>>, j: nat)
    ensures Walk(t, i, names, false) == At(j) <==> Reaches(t, i, names, j)
    decreases |names|
  {
    if names == [] {
      assert Trail(t, [i], i, names, i);
    } else if i < |t| && t[i].typ == T_DIR {
      var r := Lookup(t[i].data, Cut(names[0]), 0);
      if r.Entry? {
        LeadsIs(t, i, names[0], r.inum);
        WalkReaches(t, r.inum, names[1..], j);
        ReachesOn(t, i, names, r.inum, j);
      } else if d :| Trail(t, d, i, names, j) {
        LeadsIs(t, i, names[0], d[1]);
      }
    } else {
      NoWay(t, i, names, j);
    }
  }

  lemma NoWay(t: seq<Node>, i: nat, names: seq<seq<byte>>, j: nat)
    requires names != [] && !(i < |t| && t[i].typ == T_DIR)
    ensures !Reaches(t, i, names, j)
  {
    forall d: seq<nat> | |d| == |names| + 1 && d[0] == i
      ensures !Leads(t, d[0], names[0], d[1])
    {
    }
  }

  lemma ReachesOn(t: seq<Node>, i: nat, names: seq<seq<byte>>, n: nat, j: nat)
    requires names != [] && Leads(t, i, names[0], n)
    ensures Reaches(t, i, names, j) <==> Reaches(t, n, names[1..], j)
  {
    if d :| Trail(t, d, n, names[1..], j) {
      var d' := [i] + d;
      forall k | 0 <= k < |names|
        ensures Leads(t, d'[k], names[k], d'[k + 1])
      {
        assert k > 0 ==> Leads(t, d[k - 1], names[1..][k - 1], d[k]);
      }
      assert Trail(t, d', i, names, j);
    }
    if d :| Trail(t, d, i, names, j) {
      assert Leads(t, d[0], names[0], d[1]);
      LeadsIs(t, i, names[0], n);
      LeadsIs(t, i, names[0], d[1]);
      var d' := d[1..];
      forall k | 0 <= k < |names| - 1
        ensures Leads(t, d'[k], names[1..][k], d'[k + 1])
      {
        assert Leads(t, d[k + 1], names[k + 1], d[k + 2]);
      }
      assert Trail(t, d', n, names[1..], j);
    }
  }

  /** The lookup finds what is sought, in every tree: with parent it is the lookup of all names
      but the last. */
  lemma {:induction false} WalkFinds(t: seq<Node>, i: nat, names: seq<seq<byte>>, parent: bool, j: nat)
    ensures Walk(t, i, names, parent) == At(j) <==> Sought(t, i, names, parent, j)
    decreases |names|
  {
    if !parent {
      WalkReaches(t, i, names, j);
    } else if |names| == 1 {
      assert names[..0] == [];
      WalkReaches(t, i, [], j);
    } else if |names| > 1 {
      var init := names[..|names| - 1];
      assert init[1..] == names[1..][..|names| - 2] && init[0] == names[0];
      WalkReaches(t, i, init, j);
      if i < |t| && t[i].typ == T_DIR {
        var r := Lookup(t[i].data, Cut(names[0]), 0);
        if r.Entry? {
          WalkFinds(t, r.inum, names[1..], true, j);
          WalkReaches(t, r.inum, init[1..], j);
        }
      }
    }
  }

  /** Directory d has an entry for inode j at off. */
  ghost predicate Lists(t: seq<Node>, d: nat, off: nat, j: nat) {
    && d < |t| && t[d].typ == T_DIR && off % DIRENT == 0 && off + DIRENT <= |t[d].data|
    && j != 0 && Inum(t[d].data, off) == j
  }

  /** Entries of directories name inodes of the file system. */
  ghost predicate Closed(t: seq<Node>) {
    forall d: nat, off: nat, j: nat :: Lists(t, d, off, j) ==> j < |t|
  }

  /** They name inodes that are allocated and linked, and directories hold whole entries. */
  ghost predicate Sound(t: seq<Node>) {
    && (forall d: nat, off: nat, j: nat :: Lists(t, d, off, j) && j < |t| ==> t[j].typ != 0 && t[j].nlink != 0)
    && (forall d :: 0 <= d < |t| && t[d].typ == T_DIR ==> |t[d].data| % DIRENT == 0)
  }

  /** Since t0, only inodes that were freed changed. */
  ghost predicate Fades(t0: seq<Node>, t: seq<Node>) {
    |t| == |t0| && forall j :: 0 <= j < |t| ==> t[j] == t0[j] || t[j] == Faded(t0[j])
  }

  /** Freeing inode i, with its blocks, changes the tree only there. */
  lemma TreeFreed(sb: Super, fs: Fs, o: map<nat, SlotId>, fs': Fs, o': map<nat, SlotId>, i: nat)
    requires Owned(sb, fs, o, {}) && Owned(sb, fs', o', {}) && OthersKept(fs, fs', o, o', i) && i < sb.ninodes
    requires NoHoles(fs) && NoHole(fs', i) && fs'.inodes[i].typ == 0 && fs'.inodes[i].size == 0
    requires fs'.inodes[i].nlink == fs.inodes[i].nlink
    ensures NoHoles(fs') && Tree(fs') == Tree(fs)[i := Faded(Tree(fs)[i])]
  {
    forall j | 0 <= j < |fs'.inodes|
      ensures NoHole(fs', j) && (j != i ==> File(fs', j) == File(fs, j))
    {
      if j != i {
        assert NoHole(fs, j);
        OtherFile(sb, fs, fs', o, o', i, j);
      }
    }
    assert NoHoles(fs');
    var t, t' := Tree(fs), Tree(fs');
    assert t'[i].data == [];
    assert t' == t[i := Faded(t[i])];
  }
}
