/** user/umalloc.c: a storage allocator with a circular free list in address order.
    Addresses and sizes count headers of 16 bytes. */
module Umalloc {
  import opened Common

  const HEADER := 16

  /** Where the list goes after position i. */
  function Next(list: seq<nat>, i: nat): nat
    requires i < |list|
  {
    list[if i + 1 < |list| then i + 1 else 0]
  }

  /** The pointers run through list and back to its start. */
  ghost predicate Ring(ptr: map<nat, nat>, list: seq<nat>) {
    && list != []
    && forall i :: 0 <= i < |list| ==> list[i] in ptr && ptr[list[i]] == Next(list, i)
  }

  ghost predicate Ascending(list: seq<nat>) {
    forall i, j :: 0 <= i < j < |list| ==> list[i] < list[j]
  }

  /** The address after lo in lo + hi. */
  function After(lo: seq<nat>, hi: seq<nat>): nat
    requires lo != []
  {
    if hi == [] then lo[0] else hi[0]
  }

  lemma RingCut(ptr: map<nat, nat>, lo: seq<nat>, x: nat, hi: seq<nat>)
    requires lo != [] && Ring(ptr, lo + [x] + hi) && Ascending(lo + [x] + hi)
    ensures Ring(ptr[lo[|lo| - 1] := After(lo, hi)], lo + hi)
  {
    var list, list', k := lo + [x] + hi, lo + hi, |lo| - 1;
    var ptr' := ptr[lo[k] := After(lo, hi)];
    forall i | 0 <= i < |list'|
      ensures list'[i] in ptr' && ptr'[list'[i]] == Next(list', i)
    {
      assert list[k] == lo[k];
      if i < k {
        assert list[i] == list'[i] && ptr[list[i]] == Next(list, i) == lo[i + 1] && list[i] < list[k];
      } else if i > k {
        assert list[i + 1] == list'[i] && list[k] < list[i + 1];
        assert ptr[list[i + 1]] == Next(list, i + 1) == if i + 1 < |list'| then list'[i + 1] else lo[0];
      }
    }
  }

  lemma RingPut(ptr: map<nat, nat>, lo: seq<nat>, x: nat, hi: seq<nat>)
    requires lo != [] && Ring(ptr, lo + hi) && Ascending(lo + [x] + hi)
    ensures Ring(ptr[x := After(lo, hi)][lo[|lo| - 1] := x], lo + [x] + hi)
  {
    var list, list', k := lo + hi, lo + [x] + hi, |lo| - 1;
    var ptr' := ptr[x := After(lo, hi)][lo[k] := x];
    forall i | 0 <= i < |list'|
      ensures list'[i] in ptr' && ptr'[list'[i]] == Next(list', i)
    {
      assert list'[k] == lo[k] && list'[|lo|] == x;
      if i < k {
        assert list'[i] < list'[k] < list'[|lo|];
        assert list[i] == list'[i] && ptr[list[i]] == Next(list, i) == lo[i + 1];
      } else if i > |lo| {
        assert list'[k] < list'[|lo|] < list'[i];
        assert list[i - 1] == list'[i] && ptr[list[i - 1]] == Next(list, i - 1) ==
          if i + 1 < |list'| then list'[i + 1] else lo[0];
      }
    }
  }

  lemma RingFrame(ptr: map<nat, nat>, list: seq<nat>, x: nat, y: nat)
    requires Ring(ptr, list) && x !in list
    ensures Ring(ptr[x := y], list)
  {
  }

  /** Every unit of memory belongs to exactly one block: own gives its header. */
  ghost predicate Tiled(own: map<nat, nat>, size: map<nat, nat>) {
    && (forall u :: u in own ==> InBlock(own, size, u))
    && (forall h :: Header(own, h) ==> Covers(own, size, h))
  }

  predicate Header(own: map<nat, nat>, h: nat) {
    h in own && own[h] == h
  }

  predicate InBlock(own: map<nat, nat>, size: map<nat, nat>, u: nat)
    requires u in own
  {
    Header(own, own[u]) && own[u] in size && own[u] <= u < own[u] + size[own[u]]
  }

  ghost predicate Covers(own: map<nat, nat>, size: map<nat, nat>, h: nat) {
    h in size && forall u :: h <= u < h + size[h] ==> u in own && own[u] == h
  }

  /** Block b becomes part of block a. */
  function Joined(own: map<nat, nat>, a: nat, b: nat): map<nat, nat> {
    map u | u in own :: if own[u] == b then a else own[u]
  }

  lemma JoinedBlock(own: map<nat, nat>, size: map<nat, nat>, a: nat, b: nat, own': map<nat, nat>, size': map<nat, nat>,
                    u: nat)
    requires Header(own, a) && Header(own, b) && a in size && b in size && a + size[a] == b && size[a] > 0
    requires own' == Joined(own, a, b) && size' == size[a := size[a] + size[b]] && u in own && InBlock(own, size, u)
    ensures u in own' && InBlock(own', size', u)
  {
  }

  lemma JoinedCover(own: map<nat, nat>, size: map<nat, nat>, a: nat, b: nat, own': map<nat, nat>, size': map<nat, nat>,
                    h: nat)
    requires Covers(own, size, a) && Covers(own, size, b) && a + size[a] == b
    requires own' == Joined(own, a, b) && size' == size[a := size[a] + size[b]] && Covers(own, size, h) && h != b
    ensures Covers(own', size', h)
  {
  }

  lemma JoinedTiles(own: map<nat, nat>, size: map<nat, nat>, a: nat, b: nat, own': map<nat, nat>, size': map<nat, nat>)
    requires
      && Tiled(own, size) && Header(own, a) && Header(own, b) && a in size && b in size && a + size[a] == b
      && size[a] > 0
    requires own' == Joined(own, a, b) && size' == size[a := size[a] + size[b]]
    ensures Tiled(own', size') && (forall h :: Header(own', h) <==> Header(own, h) && h != b) && own'.Keys == own.Keys
  {
    forall h
      ensures Header(own', h) <==> Header(own, h) && h != b
    {
    }
    forall u | u in own'
      ensures InBlock(own', size', u)
    {
      JoinedBlock(own, size, a, b, own', size', u);
    }
    forall h | Header(own', h)
      ensures Covers(own', size', h)
    {
      JoinedCover(own, size, a, b, own', size', h);
    }
  }

  /** The units of block a from b on become a block of their own. */
  function Cut(own: map<nat, nat>, a: nat, b: nat): map<nat, nat> {
    map u | u in own :: if own[u] == a && u >= b then b else own[u]
  }

  lemma CutBlock(own: map<nat, nat>, size: map<nat, nat>, a: nat, n: nat, b: nat, own': map<nat, nat>,
                 size': map<nat, nat>, u: nat)
    requires Covers(own, size, a) && Header(own, a) && 0 < n < size[a] && b == a + size[a] - n
    requires own' == Cut(own, a, b) && size' == size[a := size[a] - n][b := n]
    requires u in own && InBlock(own, size, u)
    ensures u in own' && InBlock(own', size', u)
  {
  }

  lemma CutCover(own: map<nat, nat>, size: map<nat, nat>, a: nat, n: nat, b: nat, own': map<nat, nat>,
                 size': map<nat, nat>, h: nat)
    requires Covers(own, size, a) && Header(own, a) && 0 < n < size[a] && b == a + size[a] - n
    requires own' == Cut(own, a, b) && size' == size[a := size[a] - n][b := n]
    requires (Header(own, h) && Covers(own, size, h)) || h == b
    ensures Covers(own', size', h)
  {
  }

  lemma CutTiles(own: map<nat, nat>, size: map<nat, nat>, a: nat, n: nat, b: nat, own': map<nat, nat>,
                 size': map<nat, nat>)
    requires Tiled(own, size) && Header(own, a) && a in size && 0 < n < size[a] && b == a + size[a] - n
    requires own' == Cut(own, a, b) && size' == size[a := size[a] - n][b := n]
    ensures Tiled(own', size') && !Header(own, b) && own'.Keys == own.Keys
    ensures forall h :: Header(own', h) <==> Header(own, h) || h == b
  {
    assert Covers(own, size, a);
    forall h
      ensures Header(own', h) <==> Header(own, h) || h == b
    {
    }
    forall u | u in own'
      ensures InBlock(own', size', u)
    {
      CutBlock(own, size, a, n, b, own', size', u);
    }
    forall h | Header(own', h)
      ensures Covers(own', size', h)
    {
      CutCover(own, size, a, n, b, own', size', h);
    }
  }

  /** Blocks do not overlap. */
  lemma Disjoint(own: map<nat, nat>, size: map<nat, nat>, h: nat, h': nat)
    requires Tiled(own, size) && Header(own, h) && Header(own, h') && h < h'
    ensures h in size && h + size[h] <= h'
  {
    assert Covers(own, size, h);
  }

  lemma Positive(own: map<nat, nat>, size: map<nat, nat>, h: nat)
    requires Tiled(own, size) && Header(own, h)
    ensures h in size && size[h] > 0
  {
    assert InBlock(own, size, h);
  }

  /** No block of the list but its first, base, ends where the next begins. */
  ghost predicate Apart(size: map<nat, nat>, list: seq<nat>) {
    forall i :: 1 <= i < |list| - 1 ==> list[i] in size && list[i] + size[list[i]] != list[i + 1]
  }

  /** The blocks are the ones handed out, those on the list, and extra. */
  ghost predicate Blocks(own: map<nat, nat>, held: set<nat>, list: seq<nat>, extra: set<nat>) {
    && list != [] && (forall h :: Header(own, h) <==> h in held || (h in list && h != list[0]) || h in extra)
    && (forall h :: h in held ==> h !in list && h !in extra) && (forall h :: h in extra ==> h !in list)
  }

  /** The allocator's state: the free list is a ring in address order that starts at base,
      no two free blocks touch, and free and held blocks tile all memory. */
  ghost predicate GoodIn(base: nat, brk: nat, ptr: map<nat, nat>, size: map<nat, nat>, list: seq<nat>,
                         own: map<nat, nat>, held: set<nat>) {
    && Ring(ptr, list) && Ascending(list) && Apart(size, list) && list[0] == base && base in size && size[base] == 0
    && Tiled(own, size) && Blocks(own, held, list, {}) && (forall u :: u in own ==> base < u < brk)
  }

  /** The same; the quantifier keeps it folded in proofs that only pass it on. */
  ghost predicate Good(base: nat, brk: nat, ptr: map<nat, nat>, size: map<nat, nat>, list: seq<nat>, own: map<nat, nat>,
                       held: set<nat>) {
    forall u {:trigger Open(u)} :: Open(u) ==> GoodIn(base, brk, ptr, size, list, own, held)
  }

  /** On the way through free: block bp belongs between lo and hi, and is linked to hi but
      not yet from lo. */
  ghost predicate HalfIn(base: nat, brk: nat, ptr: map<nat, nat>, size: map<nat, nat>, lo: seq<nat>, bp: nat,
                         hi: seq<nat>, own: map<nat, nat>, held: set<nat>) {
    && lo != [] && Ring(ptr[lo[|lo| - 1] := After(lo, hi)], lo + hi) && bp in ptr && ptr[bp] == After(lo, hi)
    && Ascending(lo + [bp] + hi) && lo[0] == base && base in size && size[base] == 0
    && Tiled(own, size) && Blocks(own, held, lo + hi, {bp}) && (forall u :: u in own ==> base < u < brk)
    && Apart(size, lo) && Apart(size, [base] + [bp] + hi)
  }

  ghost predicate Half(base: nat, brk: nat, ptr: map<nat, nat>, size: map<nat, nat>, lo: seq<nat>, bp: nat,
                       hi: seq<nat>, own: map<nat, nat>, held: set<nat>) {
    forall u {:trigger Open(u)} :: Open(u) ==> HalfIn(base, brk, ptr, size, lo, bp, hi, own, held)
  }

  /** bp goes between positions t and t + 1. */
  ghost predicate Between(list: seq<nat>, bp: nat, t: nat) {
    t < |list| && list[t] < bp && (t + 1 < |list| ==> bp < list[t + 1])
  }

  lemma AscendingPut(list: seq<nat>, bp: nat, t: nat)
    requires Ascending(list) && Between(list, bp, t)
    ensures Ascending(list[..t + 1] + [bp] + list[t + 1..])
  {
  }

  lemma AscendingCut(lo: seq<nat>, x: nat, hi: seq<nat>)
    requires Ascending(lo + [x] + hi)
    ensures Ascending(lo + hi) && Ascending(hi) && Ascending(lo)
  {
    var list, list' := lo + [x] + hi, lo + hi;
    forall i, j | 0 <= i < j < |list'|
      ensures list'[i] < list'[j]
    {
      var i', j' := if i < |lo| then i else i + 1, if j < |lo| then j else j + 1;
      assert list[i'] == list'[i] && list[j'] == list'[j];
    }
    forall i, j | 0 <= i < j < |hi|
      ensures hi[i] < hi[j]
    {
      assert list[|lo| + 1 + i] == hi[i] && list[|lo| + 1 + j] == hi[j];
    }
    forall i, j | 0 <= i < j < |lo|
      ensures lo[i] < lo[j]
    {
      assert list[i] == lo[i] && list[j] == lo[j];
    }
  }

  /** The first step of free when bp does not touch the block after it. */
  lemma HalfAlone(base: nat, brk: nat, ptr: map<nat, nat>, size: map<nat, nat>, list: seq<nat>, own: map<nat, nat>,
                  held: set<nat>, bp: nat, t: nat, lo: seq<nat>, hi: seq<nat>)
    requires Good(base, brk, ptr, size, list, own, held) && bp in held && Between(list, bp, t) && bp in size
    requires lo == list[..t + 1] && hi == list[t + 1..] && (hi != [] ==> bp + size[bp] != hi[0])
    ensures Half(base, brk, ptr[bp := After(lo, hi)], size, lo, bp, hi, own, held - {bp})
  {
    assert Open(0);
    Halves(list, t);
    AscendingPut(list, bp, t);
    AloneRing(ptr, list, bp, t, lo, hi);
    ApartParts(size, list, base, bp, t, lo, hi);
    assert Blocks(own, held - {bp}, lo + hi, {bp});
  }

  lemma AloneRing(ptr: map<nat, nat>, list: seq<nat>, bp: nat, t: nat, lo: seq<nat>, hi: seq<nat>)
    requires
      && Ring(ptr, list) && t < |list| && list == lo + hi && |lo| == t + 1 && Next(list, t) == After(lo, hi)
      && bp !in list
    ensures Ring(ptr[bp := After(lo, hi)][lo[t] := After(lo, hi)], lo + hi)
  {
    assert ptr[list[t]] == Next(list, t);
    RingFrame(ptr, list, bp, After(lo, hi));
    assert ptr[bp := After(lo, hi)][lo[t] := After(lo, hi)] == ptr[bp := After(lo, hi)];
  }

  lemma Halves(list: seq<nat>, t: nat)
    requires t < |list|
    ensures list == list[..t + 1] + list[t + 1..] && Next(list, t) == After(list[..t + 1], list[t + 1..])
  {
  }

  lemma ApartParts(size: map<nat, nat>, list: seq<nat>, base: nat, bp: nat, t: nat, lo: seq<nat>, hi: seq<nat>)
    requires
      && Apart(size, list) && t < |list| && lo == list[..t + 1] && hi == list[t + 1..] && bp in size
      && (hi != [] ==> bp + size[bp] != hi[0])
    ensures Apart(size, lo) && Apart(size, [base] + [bp] + hi)
  {
    forall i | 1 <= i < |lo| - 1
      ensures lo[i] in size && lo[i] + size[lo[i]] != lo[i + 1]
    {
      assert list[i] == lo[i] && list[i + 1] == lo[i + 1];
    }
    var rest := [base] + [bp] + hi;
    forall i | 1 <= i < |rest| - 1
      ensures rest[i] in size && rest[i] + size[rest[i]] != rest[i + 1]
    {
      if i > 1 {
        assert list[t + i - 1] == rest[i] && list[t + i] == rest[i + 1];
      }
    }
  }

  /** The same when bp absorbs the block after it. */
  lemma HalfJoined(base: nat, brk: nat, ptr: map<nat, nat>, size: map<nat, nat>, list: seq<nat>, own: map<nat, nat>,
                   held: set<nat>, bp: nat, t: nat, lo: seq<nat>, next: nat, hi: seq<nat>, size': map<nat, nat>)
    requires
      && Good(base, brk, ptr, size, list, own, held) && bp in held && Between(list, bp, t) && bp in size
      && t + 1 < |list|
    requires lo == list[..t + 1] && next == list[t + 1] && hi == list[t + 2..] && bp + size[bp] == next && next in size
    requires size' == size[bp := size[bp] + size[next]]
    ensures next in ptr && ptr[next] == After(lo, hi)
    ensures Half(base, brk, ptr[bp := ptr[next]], size', lo, bp, hi, Joined(own, bp, next), held - {bp})
  {
    assert Open(0);
    Split(list, t);
    var p, a, own' := lo[t], After(lo, hi), Joined(own, bp, next);
    assert list[t + 1] in ptr && ptr[list[t + 1]] == Next(list, t + 1);
    Positive(own, size, bp);
    JoinedTiles(own, size, bp, next, own', size');
    AscendingPut(list, bp, t);
    SplitPut(list, bp, t);
    AscendingCut(lo + [bp], next, hi);
    HalfRing(ptr, lo, bp, next, hi, p, a);
    HalfApart(size, list, base, bp, t, lo, next, hi, size');
    HalfBlocks(own, held, list, lo, bp, next, hi, own');
  }

  lemma Split(list: seq<nat>, t: nat)
    requires t + 1 < |list|
    ensures list == list[..t + 1] + [list[t + 1]] + list[t + 2..]
    ensures Next(list, t + 1) == After(list[..t + 1], list[t + 2..])
  {
  }

  lemma SplitPut(list: seq<nat>, x: nat, t: nat)
    requires t + 1 < |list|
    ensures list[..t + 1] + [x] + list[t + 1..] == list[..t + 1] + [x] + [list[t + 1]] + list[t + 2..]
  {
  }

  lemma HalfRing(ptr: map<nat, nat>, lo: seq<nat>, bp: nat, next: nat, hi: seq<nat>, p: nat, a: nat)
    requires
      && Ring(ptr, lo + [next] + hi) && Ascending(lo + [next] + hi) && lo != [] && p == lo[|lo| - 1]
      && a == After(lo, hi)
    requires bp !in lo && bp !in hi
    ensures Ring(ptr[bp := a][p := a], lo + hi)
  {
    RingCut(ptr, lo, next, hi);
    RingFrame(ptr[p := a], lo + hi, bp, a);
    assert ptr[p := a][bp := a] == ptr[bp := a][p := a];
  }

  lemma HalfApart(size: map<nat, nat>, list: seq<nat>, base: nat, bp: nat, t: nat, lo: seq<nat>, next: nat,
                  hi: seq<nat>, size': map<nat, nat>)
    requires Apart(size, list) && t + 1 < |list| && lo == list[..t + 1] && next == list[t + 1] && hi == list[t + 2..]
    requires
      && bp !in list && bp in size && next in size && bp + size[bp] == next
      && size' == size[bp := size[bp] + size[next]]
    ensures Apart(size', lo) && Apart(size', [base] + [bp] + hi)
  {
    forall i | 1 <= i < |lo| - 1
      ensures lo[i] in size' && lo[i] + size'[lo[i]] != lo[i + 1]
    {
      assert list[i] == lo[i] && list[i + 1] == lo[i + 1];
    }
    var rest := [base] + [bp] + hi;
    forall i | 1 <= i < |rest| - 1
      ensures rest[i] in size' && rest[i] + size'[rest[i]] != rest[i + 1]
    {
      assert list[t + i] in size && list[t + i] + size[list[t + i]] != list[t + i + 1] == rest[i + 1];
      if i > 1 {
        assert list[t + i] == rest[i];
      }
    }
  }

  lemma HalfBlocks(own: map<nat, nat>, held: set<nat>, list: seq<nat>, lo: seq<nat>, bp: nat, next: nat, hi: seq<nat>,
                   own': map<nat, nat>)
    requires
      && Blocks(own, held, list, {}) && list == lo + [next] + hi && lo != [] && Ascending(list) && bp in held
      && bp != next
    requires forall h :: Header(own', h) <==> Header(own, h) && h != next
    ensures Blocks(own', held - {bp}, lo + hi, {bp})
  {
    assert next !in lo && next !in hi by {
      assert forall i :: 0 <= i < |lo| ==> list[i] == lo[i] && list[i] < list[|lo|];
      assert forall i :: 0 <= i < |hi| ==> list[|lo| + 1 + i] == hi[i] && list[|lo|] < list[|lo| + 1 + i];
    }
    assert forall h :: h in list <==> h in lo || h == next || h in hi;
    assert forall h :: h in lo + hi <==> h in lo || h in hi;
  }

  /** The second step of free when the block before bp does not touch it. */
  lemma FreedAlone(base: nat, brk: nat, ptr: map<nat, nat>, size: map<nat, nat>, lo: seq<nat>, bp: nat, hi: seq<nat>,
                   own: map<nat, nat>, held: set<nat>, p: nat)
    requires
      && lo != [] && HalfIn(base, brk, ptr, size, lo, bp, hi, own, held) && p == lo[|lo| - 1] && p in size
      && p + size[p] != bp
    ensures GoodIn(base, brk, ptr[p := bp], size, lo + [bp] + hi, own, held) && p in lo + [bp] + hi
  {
    var a := After(lo, hi);
    RingPut(ptr[p := a], lo, bp, hi);
    assert ptr[p := a][bp := a][p := bp] == ptr[p := bp];
    var list := lo + [bp] + hi;
    forall i | 1 <= i < |list| - 1
      ensures list[i] in size && list[i] + size[list[i]] != list[i + 1]
    {
      if i < |lo| - 1 {
        assert list[i] == lo[i] && list[i + 1] == lo[i + 1];
      } else if i >= |lo| {
        var rest := [base] + [bp] + hi;
        assert rest[i - |lo| + 1] == list[i] && rest[i - |lo| + 2] == list[i + 1];
      }
    }
    assert forall h :: h in list <==> h in lo + hi || h == bp;
    assert list[0] == (lo + hi)[0] == base;
  }

  /** The same when the block before absorbs bp. */
  lemma FreedJoined(base: nat, brk: nat, ptr: map<nat, nat>, size: map<nat, nat>, lo: seq<nat>, bp: nat, hi: seq<nat>,
                    own: map<nat, nat>, held: set<nat>, p: nat, size': map<nat, nat>)
    requires
      && lo != [] && bp in ptr && HalfIn(base, brk, ptr, size, lo, bp, hi, own, held) && p == lo[|lo| - 1] && p in size
      && p + size[p] == bp && bp in size
    requires size' == size[p := size[p] + size[bp]]
    ensures GoodIn(base, brk, ptr[p := ptr[bp]], size', lo + hi, Joined(own, p, bp), held) && p in lo + hi
  {
    var list := lo + hi;
    assert p in list;
    assert bp in own && p != base;
    Positive(own, size, p);
    JoinedTiles(own, size, p, bp, Joined(own, p, bp), size');
    AscendingCut(lo, bp, hi);
    FreedApart(size, base, lo, bp, hi, p, size');
  }

  lemma FreedApart(size: map<nat, nat>, base: nat, lo: seq<nat>, bp: nat, hi: seq<nat>, p: nat, size': map<nat, nat>)
    requires
      && lo != [] && p == lo[|lo| - 1] && p in size && bp in size && p + size[p] == bp
      && size' == size[p := size[p] + size[bp]]
    requires Apart(size, lo) && Apart(size, [base] + [bp] + hi) && Ascending(lo + [bp] + hi)
    ensures Apart(size', lo + hi)
  {
    var list, rest, all := lo + hi, [base] + [bp] + hi, lo + [bp] + hi;
    forall i | 1 <= i < |list| - 1
      ensures list[i] in size' && list[i] + size'[list[i]] != list[i + 1]
    {
      if i < |lo| - 1 {
        assert list[i] == lo[i] && list[i + 1] == lo[i + 1] && all[i] < all[|lo| - 1];
      } else if i == |lo| - 1 {
        assert rest[1] == bp && rest[2] == list[i + 1];
      } else {
        assert rest[i - |lo| + 2] == list[i] && rest[i - |lo| + 3] == list[i + 1]
          && all[|lo| - 1] < all[i + 1] == list[i];
      }
    }
  }

  // ---- what the methods need to know

  /** What free reads around the place of block bp. */
  lemma FreeFacts(base: nat, brk: nat, ptr: map<nat, nat>, size: map<nat, nat>, list: seq<nat>, own: map<nat, nat>,
                  held: set<nat>, bp: nat, t: nat)
    requires Good(base, brk, ptr, size, list, own, held) && bp in held && Between(list, bp, t)
    ensures
      && bp in size && size[bp] > 0 && list[t] in size && list[t] in ptr && ptr[list[t]] == Next(list, t)
      && Next(list, t) in size
    ensures Next(list, t) in ptr && (bp + size[bp] == Next(list, t) ==> t + 1 < |list|)
  {
    assert Open(0);
    Positive(own, size, bp);
    InSize(base, brk, ptr, size, list, own, held, t);
    InSize(base, brk, ptr, size, list, own, held, if t + 1 < |list| then t + 1 else 0);
    if t > 0 {
      assert list[0] < list[t];
    }
  }

  lemma InSize(base: nat, brk: nat, ptr: map<nat, nat>, size: map<nat, nat>, list: seq<nat>, own: map<nat, nat>,
               held: set<nat>, t: nat)
    requires GoodIn(base, brk, ptr, size, list, own, held) && t < |list|
    ensures list[t] in size && list[t] in ptr && (t > 0 ==> Header(own, list[t]) && size[list[t]] > 0 && list[t] > base)
  {
    if t > 0 {
      assert list[0] < list[t];
      assert Header(own, list[t]);
      Positive(own, size, list[t]);
    }
  }

  /** free's first step as it is coded. */
  lemma LinkedUp(base: nat, brk: nat, ptr: map<nat, nat>, size: map<nat, nat>, list: seq<nat>, own: map<nat, nat>,
                 held: set<nat>, bp: nat, t: nat, lo: seq<nat>, hi: seq<nat>, ptr': map<nat, nat>, size': map<nat, nat>,
                 own': map<nat, nat>)
    requires Good(base, brk, ptr, size, list, own, held) && bp in held && Between(list, bp, t) && lo == list[..t + 1]
    requires bp in size && Next(list, t) in size && Next(list, t) in ptr
    requires if bp + size[bp] == Next(list, t)
             then && t + 1 < |list| && hi == list[t + 2..] && ptr' == ptr[bp := ptr[Next(list, t)]]
                  && size' == size[bp := size[bp] + size[Next(list, t)]] && own' == Joined(own, bp, Next(list, t))
             else hi == list[t + 1..] && ptr' == ptr[bp := Next(list, t)] && size' == size && own' == own
    ensures Half(base, brk, ptr', size', lo, bp, hi, own', held - {bp}) && bp in ptr' && own'.Keys == own.Keys
  {
    if bp + size[bp] == Next(list, t) {
      HalfJoined(base, brk, ptr, size, list, own, held, bp, t, lo, list[t + 1], hi, size');
    } else {
      Halves(list, t);
      HalfAlone(base, brk, ptr, size, list, own, held, bp, t, lo, hi);
    }
  }

  /** Some block of the list has n units. */
  ghost predicate Room(size: map<nat, nat>, list: seq<nat>, n: nat) {
    exists i :: 0 <= i < |list| && list[i] in size && size[list[i]] >= n
  }

  /** free's second step as it is coded. */
  lemma LinkedDown(base: nat, brk: nat, ptr: map<nat, nat>, size: map<nat, nat>, lo: seq<nat>, bp: nat, hi: seq<nat>,
                   own: map<nat, nat>, held: set<nat>, p: nat, list: seq<nat>, ptr': map<nat, nat>,
                   size': map<nat, nat>, own': map<nat, nat>)
    requires
      && Half(base, brk, ptr, size, lo, bp, hi, own, held) && lo != [] && p == lo[|lo| - 1] && p in size && bp in size
      && bp in ptr
    requires if p + size[p] == bp
             then list == lo + hi && ptr' == ptr[p := ptr[bp]]
               && size' == size[p := size[p] + size[bp]] && own' == Joined(own, p, bp)
             else list == lo + [bp] + hi && ptr' == ptr[p := bp] && size' == size && own' == own
    ensures
      && Good(base, brk, ptr', size', list, own', held) && |lo| <= |list| && list[|lo| - 1] == p
      && own'.Keys == own.Keys
    ensures Room(size', list, size[bp]) && p !in held
  {
    assert Open(0);
    assert p in lo + hi && p !in held;
    if p + size[p] == bp {
      FreedJoined(base, brk, ptr, size, lo, bp, hi, own, held, p, size');
      assert list[|lo| - 1] == p;
    } else {
      FreedAlone(base, brk, ptr, size, lo, bp, hi, own, held, p);
      assert list[|lo|] == bp;
    }
  }

  ghost function Place(list: seq<nat>, bp: nat): (t: nat)
    requires list != [] && Ascending(list) && bp !in list && list[0] < bp
    ensures Between(list, bp, t)
  {
    if |list| == 1 || list[|list| - 1] < bp then |list| - 1 else Place(list[..|list| - 1], bp)
  }

  /** At position k free's tests stop the search exactly if bp belongs after it. */
  lemma Passing(list: seq<nat>, bp: nat, t: nat, k: nat)
    requires Ascending(list) && Between(list, bp, t) && k < |list| && list[0] < bp && bp !in list
    ensures var p, next := list[k], Next(list, k);
      ((bp > p && bp < next) || (p >= next && (bp > p || bp < next))) <==> k == t
  {
    if k < t {
      assert list[k] < list[k + 1] <= list[t];
    } else if k > t {
      assert list[t + 1] <= list[k];
    }
  }

  class Heap {
    const base: nat            // the static header; below all memory from sbrk
    const limit: nat           // where sbrk fails
    var freep: nat             // 0 at first
    var ptr: map<nat, nat>
    var size: map<nat, nat>
    var brk: nat
    ghost var list: seq<nat>   // the free list from base on
    ghost var own: map<nat, nat>
    ghost var held: set<nat>   // headers of the blocks handed out
    ghost var at: nat          // where freep is in the list

    constructor (base: nat, brk: nat, limit: nat)
      requires 0 < base < brk
      ensures Valid() && held == {} && own == map[]
    {
      this.base, this.limit, this.brk, freep := base, limit, brk, 0;
      ptr, size, list, own, held, at := map[], map[], [], map[], {}, 0;
    }

    ghost predicate Valid()
      reads this
    {
      && 0 < base < brk
      && if freep == 0 then own == map[] && held == {}
         else Good(base, brk, ptr, size, list, own, held) && at < |list| && list[at] == freep
    }

    /** free's search: the place in the list for block bp. */
    method Search(bp: nat) returns (p: nat, ghost t: nat)
      requires Valid() && freep != 0 && bp in held
      ensures Between(list, bp, t) && p == list[t]
    {
      assert Open(0);
      assert Header(own, bp);
      t := Place(list, bp);
      ghost var k := at;
      p := freep;
      while !(bp > p && bp < ptr[p])
        invariant 0 <= k < |list| && p == list[k] && p in ptr && ptr[p] == Next(list, k)
        decreases if k <= t then t - k else t - k + |list|
      {
        Passing(list, bp, t, k);
        if p >= ptr[p] && (bp > p || bp < ptr[p]) {
          break;
        }
        p := ptr[p];
        k := if k + 1 < |list| then k + 1 else 0;
      }
      Passing(list, bp, t, k);
    }

    /** free's treatment of the block after bp. */
    method LinkUp(bp: nat, p: nat, ghost t: nat, ghost lo: seq<nat>) returns (ghost hi: seq<nat>)
      requires Valid() && freep != 0 && bp in held && Between(list, bp, t) && p == list[t] && lo == list[..t + 1]
      modifies `ptr, `size, `own, `held
      ensures
        && Half(base, brk, ptr, size, lo, bp, hi, own, held) && bp in ptr && held == old(held) - {bp}
        && own.Keys == old(own).Keys
      ensures
        && bp in size && bp in old(size) && p in size && size == old(size)[bp := size[bp]] && size[bp] >= old(size)[bp]
    {
      FreeFacts(base, brk, ptr, size, list, own, held, bp, t);
      var ptr', size' := ptr, size;
      ghost var own' := own;
      if bp + size[bp] == ptr[p] {
        size' := size[bp := size[bp] + size[ptr[p]]];
        ptr' := ptr[bp := ptr[ptr[p]]];
        own' := Joined(own, bp, ptr[p]);
        hi := list[t + 2..];
      } else {
        ptr' := ptr[bp := ptr[p]];
        hi := list[t + 1..];
      }
      LinkedUp(base, brk, ptr, size, list, own, held, bp, t, lo, hi, ptr', size', own');
      ptr, size, own, held := ptr', size', own', held - {bp};
      assert brk == old(brk);
    }

    /** free's treatment of the block before bp. */
    method LinkDown(bp: nat, p: nat, ghost lo: seq<nat>, ghost hi: seq<nat>)
      requires
        && Half(base, brk, ptr, size, lo, bp, hi, own, held) && lo != [] && p == lo[|lo| - 1] && p in size && bp in size
        && bp in ptr
      requires 0 < base < brk && freep != 0
      modifies `ptr, `size, `own, `list, `freep, `at
      ensures Valid() && freep != 0 && own.Keys == old(own).Keys
      ensures forall h :: h in held && h in old(size) ==> h in size && size[h] == old(size)[h]
      ensures Room(size, list, old(size)[bp])
    {
      var ptr', size' := ptr, size;
      ghost var own', list' := own, lo + [bp] + hi;
      if p + size[p] == bp {
        size' := size[p := size[p] + size[bp]];
        ptr' := ptr[p := ptr[bp]];
        own' := Joined(own, p, bp);
        list' := lo + hi;
      } else {
        ptr' := ptr[p := bp];
      }
      LinkedDown(base, brk, ptr, size, lo, bp, hi, own, held, p, list', ptr', size', own');
      AboveBase(base, brk, ptr', size', list', own', held, |lo| - 1);
      ptr, size, own, list, freep, at := ptr', size', own', list', p, |lo| - 1;
      assert ptr == ptr' && size == size' && own == own' && list == list' && held == old(held) && brk == old(brk);
    }

    /** free: block ap goes back on the list, joined with the free blocks it touches. */
    method Free(ap: nat)
      requires Valid() && freep != 0 && 0 < ap && ap - 1 in held
      modifies `freep, `ptr, `size, `list, `own, `held, `at
      ensures Valid() && freep != 0 && held == old(held) - {ap - 1} && own.Keys == old(own).Keys
      ensures forall h :: h in held && h in old(size) ==> h in size && size[h] == old(size)[h]
      ensures ap - 1 in old(size) && Room(size, list, old(size)[ap - 1])
    {
      var bp := ap - 1;
      ghost var t;
      var p;
      p, t := Search(bp);
      ghost var lo := list[..t + 1];
      ghost var hi := LinkUp(bp, p, t, lo);
      ghost var n := size[bp];
      LinkDown(bp, p, lo, hi);
    }

    /** morecore: memory from sbrk, after gap units that others took, goes on the list. 0 if
        sbrk fails. */
    method Morecore(nu: nat, gap: nat) returns (p: nat)
      requires Valid() && freep != 0 && nu > 0
      modifies `freep, `ptr, `size, `list, `own, `held, `at, `brk
      ensures Valid() && freep != 0 && held == old(held) && (p == 0 <==> old(brk) + gap + Core(nu) > limit)
      ensures forall h :: h in held && h in old(size) ==> h in size && size[h] == old(size)[h]
      ensures p == 0 ==>
        brk == old(brk) && own == old(own) && freep == old(freep) && ptr == old(ptr) && size == old(size)
        && list == old(list) && at == old(at)
      ensures p != 0 ==> && p == freep && brk == old(brk) + gap + Core(nu) && Room(size, list, nu)
                         && forall u :: u in own <==> u in old(own) || old(brk) + gap <= u < brk
    {
      var n := Core(nu);
      var hp := brk + gap;
      if hp + n > limit {
        return 0;
      }
      ghost var own' := WithUnits(own, hp, n);
      MoreUnits(own, hp, n);
      MoreMemory(base, brk, ptr, size, list, own, held, hp, n, own');
      brk := hp + n;
      size := size[hp := n];
      own := own';
      held := held + {hp};
      assert ptr == old(ptr) && list == old(list) && freep == old(freep) && at == old(at);
      Free(hp + 1);
      return freep;
    }

    /** malloc unlinks block p, which comes after prevp and has just the right size. */
    method TakeWhole(prevp: nat, p: nat, ghost k: nat)
      requires Valid() && freep != 0 && k < |list| && prevp == list[k] && p == Next(list, k) && p in size && size[p] > 0
      modifies `freep, `ptr, `list, `held, `at
      ensures Valid() && freep != 0 && p != 0 && p !in old(held) && held == old(held) + {p}
    {
      TakeFacts(base, brk, ptr, size, list, own, held, k);
      var ptr' := ptr[prevp := ptr[p]];
      ghost var list', held' := list[..k + 1] + list[k + 2..], held + {p};
      TakenWhole(base, brk, ptr, size, list, own, held, k, p, list[..k + 1], list[k + 2..], list', ptr', held');
      ptr, list, held, freep, at := ptr', list', held', prevp, k;
      assert ptr == ptr' && list == list' && held == held' && size == old(size) && own == old(own) && brk == old(brk);
    }

    /** malloc takes the last n units of block p, which comes after prevp and is larger. */
    method TakeEnd(prevp: nat, p: nat, n: nat, ghost k: nat) returns (h: nat)
      requires
        && Valid() && freep != 0 && k < |list| && prevp == list[k] && p == Next(list, k) && p in size && size[p] > n > 0
      modifies `freep, `size, `own, `held, `at
      ensures
        && Valid() && freep != 0 && h != 0 && h !in old(held) && held == old(held) + {h} && h in size && size[h] == n
        && own.Keys == old(own).Keys
      ensures forall x :: x in old(held) && x in old(size) ==> x in size && size[x] == old(size)[x]
    {
      TakeFacts(base, brk, ptr, size, list, own, held, k);
      h := p + (size[p] - n);
      var size' := size[p := size[p] - n][h := n];
      ghost var own', held' := Cut(own, p, h), held + {h};
      TakenEnd(base, brk, ptr, size, list, own, held, k, p, n, h, own', size', held');
      size, own, held, freep, at := size', own', held', prevp, k;
      assert size == size' && own == own' && held == held' && ptr == old(ptr) && list == old(list) && brk == old(brk);
    }

    /** malloc takes n units of block p, which comes after prevp and is large enough. */
    method Take(prevp: nat, p: nat, n: nat, ghost k: nat) returns (h: nat)
      requires
        && Valid() && freep != 0 && k < |list| && prevp == list[k] && p == Next(list, k) && p in size
        && size[p] >= n > 0
      modifies `freep, `ptr, `size, `list, `own, `held, `at
      ensures
        && Valid() && freep != 0 && h != 0 && h !in old(held) && held == old(held) + {h} && h in size && size[h] == n
        && own.Keys == old(own).Keys
      ensures forall x :: x in old(held) && x in old(size) ==> x in size && size[x] == old(size)[x]
    {
      if size[p] == n {
        TakeWhole(prevp, p, k);
        h := p;
      } else {
        h := TakeEnd(prevp, p, n, k);
      }
    }

    /** malloc's loop. */
    method Scan(n: nat, gap: nat) returns (h: nat)
      requires Valid() && freep != 0 && n > 0
      modifies `freep, `ptr, `size, `list, `own, `held, `at, `brk
      ensures Valid()
      ensures h == 0 ==> held == old(held) && own == old(own) && old(brk) + gap + Core(n) > limit
      ensures h != 0 ==> h !in old(held) && held == old(held) + {h} && h in size && size[h] == n
      ensures forall x :: x in old(held) && x in old(size) ==> x in size && size[x] == old(size)[x]
      ensures Grew(old(own), own, old(brk), brk, gap)
    {
      var prevp := freep;
      ghost var c, grown := 0, false;
      RingFacts(base, brk, ptr, size, list, own, held, at, c, n);
      var p := ptr[prevp];
      while true
        invariant
          && Valid() && freep != 0 && held == old(held) && c < |list| && At(list, at, c, prevp, p) && p in size
          && p in ptr
        invariant forall x :: x in held && x in old(size) ==> x in size && size[x] == old(size)[x]
        invariant Grew(old(own), own, old(brk), brk, gap)
        invariant if grown then Room(size, list, n) else own == old(own) && brk == old(brk)
        invariant Small(size, list, at, c, n)
        decreases if grown then 0 else 1, |list| - c
      {
        if size[p] >= n {
          h := Take(prevp, p, n, Turned(|list|, at, c));
          return;
        }
        StillSmall(base, brk, ptr, size, list, own, held, at, c, n, prevp, p);
        if p == freep {
          p := Morecore(n, gap);
          if p == 0 {
            return 0;
          }
          grown, c := true, 0;
        } else {
          c := c + 1;
        }
        RingFacts(base, brk, ptr, size, list, own, held, at, c, n);
        prevp := p;
        p := ptr[p];
      }
    }

    /** malloc: a block with room for nbytes bytes behind its header, or 0. */
    method Malloc(nbytes: nat, gap: nat) returns (ap: nat)
      requires Valid() && nbytes < 0x8000_0000
      modifies `freep, `ptr, `size, `list, `own, `held, `at, `brk
      ensures Valid() && Grew(old(own), own, old(brk), brk, gap)
      ensures ap == 0 ==> held == old(held) && own == old(own) && old(brk) + gap + Core(Units(nbytes)) > limit
      ensures ap != 0 ==> && ap - 1 !in old(held) && held == old(held) + {ap - 1}
                          && ap - 1 in size && size[ap - 1] == Units(nbytes)
      ensures forall h :: h in old(held) && h in old(size) ==> h in size && size[h] == old(size)[h]
    {
      var nunits := (nbytes + HEADER - 1) / HEADER + 1;
      if freep == 0 {
        ptr, size := ptr[base := base], size[base := 0];
        freep := base;
        list, at := [base], 0;
        FirstList(base, brk, ptr, size);
      }
      var h := Scan(nunits, gap);
      return if h == 0 then 0 else h + 1;
    }
  }

  /** The size of a block, its header included, for nbytes bytes. */
  function Units(nbytes: nat): (n: nat)
    ensures n > 0 && (n - 1) * HEADER >= nbytes && (n - 1) * HEADER < nbytes + HEADER
  {
    (nbytes + HEADER - 1) / HEADER + 1
  }

  lemma FirstList(base: nat, brk: nat, ptr: map<nat, nat>, size: map<nat, nat>)
    requires base in ptr && ptr[base] == base && base in size && size[base] == 0
    ensures Good(base, brk, ptr, size, [base], map[], {})
  {
  }

  /** The position c steps after position a in a ring of n. */
  function Turned(n: nat, a: nat, c: nat): nat {
    if a + c < n then a + c else if a + c < n + n then a + c - n else 0
  }

  /** The scan has made c steps from position a. */
  ghost predicate At(list: seq<nat>, a: nat, c: nat, prevp: nat, p: nat) {
    var k := Turned(|list|, a, c);
    k < |list| && prevp == list[k] && p == Next(list, k)
  }

  /** The blocks passed in the first c steps from position a are smaller than n. */
  ghost predicate Small(size: map<nat, nat>, list: seq<nat>, a: nat, c: nat, n: nat) {
    forall d :: 0 < d <= c && Turned(|list|, a, d) < |list| ==>
      list[Turned(|list|, a, d)] in size && size[list[Turned(|list|, a, d)]] < n
  }

  lemma RingFacts(base: nat, brk: nat, ptr: map<nat, nat>, size: map<nat, nat>, list: seq<nat>, own: map<nat, nat>,
                  held: set<nat>, a: nat, c: nat, n: nat)
    requires Good(base, brk, ptr, size, list, own, held) && a < |list| && c < |list|
    ensures var k := Turned(|list|, a, c);
      k < |list| && list[k] in ptr && ptr[list[k]] == Next(list, k) && Next(list, k) in size && Next(list, k) in ptr
    ensures c == 0 ==> Small(size, list, a, c, n) && Turned(|list|, a, 0) == a
  {
    assert Open(0);
    var k := Turned(|list|, a, c);
    InSize(base, brk, ptr, size, list, own, held, k);
    InSize(base, brk, ptr, size, list, own, held, if k + 1 < |list| then k + 1 else 0);
  }

  /** The block at p is too small: either the scan goes on to it, or it has come round and
      there is no room at all. */
  lemma StillSmall(base: nat, brk: nat, ptr: map<nat, nat>, size: map<nat, nat>, list: seq<nat>, own: map<nat, nat>,
                   held: set<nat>, a: nat, c: nat, n: nat, prevp: nat, p: nat)
    requires Good(base, brk, ptr, size, list, own, held) && a < |list| && c < |list| && At(list, a, c, prevp, p)
    requires Small(size, list, a, c, n) && p in size && size[p] < n
    ensures p == list[a] ==> !Room(size, list, n)
    ensures p != list[a] ==> c + 1 < |list| && list[Turned(|list|, a, c + 1)] == p && Small(size, list, a, c + 1, n)
  {
    assert Ascending(list) by {
      assert Open(0);
    }
    StepOn(list, a, c, prevp, p);
    SmallMore(size, list, a, c, n, p);
    if p == list[a] {
      AllSmall(size, list, a, n);
    }
  }

  lemma StepOn(list: seq<nat>, a: nat, c: nat, prevp: nat, p: nat)
    requires Ascending(list) && a < |list| && c < |list| && At(list, a, c, prevp, p)
    ensures
      && Turned(|list|, a, c + 1) < |list| && list[Turned(|list|, a, c + 1)] == p && (p == list[a] <==> c + 1 == |list|)
  {
    var k' := Turned(|list|, a, c + 1);
    assert k' < a ==> list[k'] < list[a];
    assert a < k' ==> list[a] < list[k'];
  }

  lemma SmallMore(size: map<nat, nat>, list: seq<nat>, a: nat, c: nat, n: nat, p: nat)
    requires
      && Small(size, list, a, c, n) && Turned(|list|, a, c + 1) < |list| && list[Turned(|list|, a, c + 1)] == p
      && p in size && size[p] < n
    ensures Small(size, list, a, c + 1, n)
  {
  }

  lemma AllSmall(size: map<nat, nat>, list: seq<nat>, a: nat, n: nat)
    requires a < |list| && Small(size, list, a, |list|, n)
    ensures !Room(size, list, n)
  {
    forall i | 0 <= i < |list|
      ensures list[i] in size && size[list[i]] < n
    {
      var d := if i > a then i - a else i - a + |list|;
      assert Turned(|list|, a, d) == i;
    }
  }

  /** The units that morecore asks for. */
  function Core(nu: nat): nat { if nu < 4096 then 4096 else nu }

  /** Memory is only ever added: nothing, or what sbrk gave. */
  ghost predicate Grew(own: map<nat, nat>, own': map<nat, nat>, brk: nat, brk': nat, gap: nat) {
    if brk' == brk then own'.Keys == own.Keys
    else brk + gap < brk' && forall u :: u in own' <==> u in own || brk + gap <= u < brk'
  }

  ghost function WithUnits(own: map<nat, nat>, h: nat, n: nat): map<nat, nat> {
    if n == 0 then own else WithUnits(own, h, n - 1)[h + n - 1 := h]
  }

  lemma {:induction false} UnitsAt(own: map<nat, nat>, h: nat, n: nat, u: nat)
    ensures u in WithUnits(own, h, n) <==> u in own || h <= u < h + n
    ensures u in WithUnits(own, h, n) ==> WithUnits(own, h, n)[u] == if h <= u < h + n then h else own[u]
  {
    if n > 0 {
      UnitsAt(own, h, n - 1, u);
    }
  }

  // ---- taking blocks

  lemma TakeFacts(base: nat, brk: nat, ptr: map<nat, nat>, size: map<nat, nat>, list: seq<nat>, own: map<nat, nat>,
                  held: set<nat>, k: nat)
    requires
      && Good(base, brk, ptr, size, list, own, held) && k < |list| && Next(list, k) in size && size[Next(list, k)] > 0
    ensures k + 1 < |list| && Next(list, k) in ptr && Next(list, k) !in held && list[k] >= base && Next(list, k) > base
  {
    assert Open(0);
    if k + 1 < |list| {
      InSize(base, brk, ptr, size, list, own, held, k + 1);
      InSize(base, brk, ptr, size, list, own, held, k);
      assert list[k + 1] in list;
    }
  }

  lemma TakenWhole(base: nat, brk: nat, ptr: map<nat, nat>, size: map<nat, nat>, list: seq<nat>, own: map<nat, nat>,
                   held: set<nat>, k: nat, p: nat, lo: seq<nat>, hi: seq<nat>, list': seq<nat>, ptr': map<nat, nat>,
                   held': set<nat>)
    requires
      && held' == held + {p} && Good(base, brk, ptr, size, list, own, held) && k + 1 < |list| && p == list[k + 1]
      && p in ptr
    requires lo == list[..k + 1] && hi == list[k + 2..] && list' == lo + hi && ptr' == ptr[list[k] := ptr[p]]
    ensures Good(base, brk, ptr', size, list', own, held') && k < |list'| && list'[k] == list[k]
  {
    assert Open(0);
    WholeIn(base, brk, ptr, size, list, own, held, k, p, lo, hi, list', ptr');
  }

  lemma WholeIn(base: nat, brk: nat, ptr: map<nat, nat>, size: map<nat, nat>, list: seq<nat>, own: map<nat, nat>,
                held: set<nat>, k: nat, p: nat, lo: seq<nat>, hi: seq<nat>, list': seq<nat>, ptr': map<nat, nat>)
    requires GoodIn(base, brk, ptr, size, list, own, held) && k + 1 < |list| && p == list[k + 1] && p in ptr
    requires lo == list[..k + 1] && hi == list[k + 2..] && list' == lo + hi && ptr' == ptr[list[k] := ptr[p]]
    ensures GoodIn(base, brk, ptr', size, list', own, held + {p}) && k < |list'| && list'[k] == list[k]
  {
    Split(list, k);
    assert ptr[list[k + 1]] == Next(list, k + 1);
    RingCut(ptr, lo, p, hi);
    AscendingCut(lo, p, hi);
    TakenApart(base, brk, ptr, size, list, own, held, k, p, lo, hi, list');
    TakenBlocks(own, held, list, lo, p, hi, list');
  }

  lemma TakenBlocks(own: map<nat, nat>, held: set<nat>, list: seq<nat>, lo: seq<nat>, p: nat, hi: seq<nat>,
                    list': seq<nat>)
    requires Blocks(own, held, list, {}) && list == lo + [p] + hi && lo != [] && Ascending(list) && list' == lo + hi
    ensures Blocks(own, held + {p}, list', {})
  {
    assert p !in lo && p !in hi by {
      assert forall i :: 0 <= i < |lo| ==> list[i] == lo[i] && list[i] < list[|lo|];
      assert forall i :: 0 <= i < |hi| ==> list[|lo| + 1 + i] == hi[i] && list[|lo|] < list[|lo| + 1 + i];
    }
    assert forall h :: h in list <==> h in lo || h == p || h in hi;
    assert forall h :: h in list' <==> h in lo || h in hi;
    assert list'[0] == list[0];
    assert p in list && p != list[0];
  }

  lemma TakenApart(base: nat, brk: nat, ptr: map<nat, nat>, size: map<nat, nat>, list: seq<nat>, own: map<nat, nat>,
                   held: set<nat>, k: nat, p: nat, lo: seq<nat>, hi: seq<nat>, list': seq<nat>)
    requires GoodIn(base, brk, ptr, size, list, own, held) && k + 1 < |list| && p == list[k + 1]
    requires lo == list[..k + 1] && hi == list[k + 2..] && list' == lo + hi
    ensures Apart(size, list')
  {
    forall i | 1 <= i < |list'| - 1
      ensures list'[i] in size && list'[i] + size[list'[i]] != list'[i + 1]
    {
      if i < k {
        assert list'[i] == list[i] && list'[i + 1] == list[i + 1];
      } else if i == k {
        assert list'[i] == list[k] && list'[i + 1] == list[k + 2];
        InSize(base, brk, ptr, size, list, own, held, k);
        InSize(base, brk, ptr, size, list, own, held, k + 1);
        Disjoint(own, size, list[k], list[k + 1]);
        assert list[k + 1] < list[k + 2];
      } else {
        assert list'[i] == list[i + 1] && list'[i + 1] == list[i + 2];
      }
    }
  }

  lemma TakenEnd(base: nat, brk: nat, ptr: map<nat, nat>, size: map<nat, nat>, list: seq<nat>, own: map<nat, nat>,
                 held: set<nat>, k: nat, p: nat, n: nat, h: nat, own': map<nat, nat>, size': map<nat, nat>,
                 held': set<nat>)
    requires
      && held' == held + {h} && Good(base, brk, ptr, size, list, own, held) && k + 1 < |list| && p == list[k + 1]
      && p in size && 0 < n < size[p]
    requires h == p + (size[p] - n) && own' == Cut(own, p, h) && size' == size[p := size[p] - n][h := n]
    ensures Good(base, brk, ptr, size', list, own', held') && h !in held && own'.Keys == own.Keys
  {
    assert Open(0);
    EndIn(base, brk, ptr, size, list, own, held, k, p, n, h, own', size');
  }

  lemma EndIn(base: nat, brk: nat, ptr: map<nat, nat>, size: map<nat, nat>, list: seq<nat>, own: map<nat, nat>,
              held: set<nat>, k: nat, p: nat, n: nat, h: nat, own': map<nat, nat>, size': map<nat, nat>)
    requires
      && GoodIn(base, brk, ptr, size, list, own, held) && k + 1 < |list| && p == list[k + 1] && p in size
      && 0 < n < size[p]
    requires h == p + (size[p] - n) && own' == Cut(own, p, h) && size' == size[p := size[p] - n][h := n]
    ensures GoodIn(base, brk, ptr, size', list, own', held + {h}) && h !in held && own'.Keys == own.Keys
  {
    InSize(base, brk, ptr, size, list, own, held, k + 1);
    EndTiles(base, size, list, own, held, p, n, h, own', size');
    EndApart(base, brk, ptr, size, list, own, held, k, p, n, h, size');
    assert forall u :: u in own' ==> u in own;
  }

  lemma EndTiles(base: nat, size: map<nat, nat>, list: seq<nat>, own: map<nat, nat>, held: set<nat>, p: nat, n: nat,
                 h: nat, own': map<nat, nat>, size': map<nat, nat>)
    requires
      && Tiled(own, size) && Blocks(own, held, list, {}) && list[0] == base && Header(own, p) && p in size
      && 0 < n < size[p]
    requires
      && base < p && base in size && h == p + (size[p] - n) && own' == Cut(own, p, h)
      && size' == size[p := size[p] - n][h := n]
    ensures
      && Tiled(own', size') && Blocks(own', held + {h}, list, {}) && h !in held && h !in list && own'.Keys == own.Keys
    ensures base in size' && size'[base] == size[base]
  {
    CutTiles(own, size, p, n, h, own', size');
    NewBlock(own, held, list, h, own');
  }

  /** One more block, handed out. */
  lemma NewBlock(own: map<nat, nat>, held: set<nat>, list: seq<nat>, h: nat, own': map<nat, nat>)
    requires Blocks(own, held, list, {}) && !Header(own, h) && h != list[0]
    requires forall x :: Header(own', x) <==> Header(own, x) || x == h
    ensures Blocks(own', held + {h}, list, {}) && h !in held && h !in list
  {
  }

  lemma EndApart(base: nat, brk: nat, ptr: map<nat, nat>, size: map<nat, nat>, list: seq<nat>, own: map<nat, nat>,
                 held: set<nat>, k: nat, p: nat, n: nat, h: nat, size': map<nat, nat>)
    requires
      && GoodIn(base, brk, ptr, size, list, own, held) && k + 1 < |list| && p == list[k + 1] && p in size
      && 0 < n < size[p] && h !in list
    requires h == p + (size[p] - n) && size' == size[p := size[p] - n][h := n]
    ensures Apart(size', list)
  {
    forall i | 1 <= i < |list| - 1
      ensures list[i] in size' && list[i] + size'[list[i]] != list[i + 1]
    {
      if i == k + 1 {
        assert h != list[i + 1];
      } else {
        assert list[i] != p by {
          assert i < k + 1 ==> list[i] < list[k + 1];
          assert k + 1 < i ==> list[k + 1] < list[i];
        }
      }
    }
  }

  // ---- new memory

  lemma MoreMemory(base: nat, brk: nat, ptr: map<nat, nat>, size: map<nat, nat>, list: seq<nat>, own: map<nat, nat>,
                   held: set<nat>, h: nat, n: nat, own': map<nat, nat>)
    requires Good(base, brk, ptr, size, list, own, held) && 0 < base < brk <= h && n > 0 && Added(own, own', h, n)
    ensures Good(base, h + n, ptr, size[h := n], list, own', held + {h}) && h !in held
  {
    assert Open(0);
    MoreIn(base, brk, ptr, size, list, own, held, h, n, own');
  }

  /** own' has the units from h on besides those of own. */
  ghost predicate Added(own: map<nat, nat>, own': map<nat, nat>, h: nat, n: nat) {
    && (forall u: nat :: u in own' <==> u in own || h <= u < h + n)
    && (forall u: nat :: u in own' ==> own'[u] == if h <= u < h + n then h else own[u])
  }

  lemma MoreUnits(own: map<nat, nat>, h: nat, n: nat)
    ensures Added(own, WithUnits(own, h, n), h, n)
  {
    forall u: nat
      ensures u in WithUnits(own, h, n) <==> u in own || h <= u < h + n
      ensures u in WithUnits(own, h, n) ==> WithUnits(own, h, n)[u] == if h <= u < h + n then h else own[u]
    {
      UnitsAt(own, h, n, u);
    }
  }

  lemma MoreIn(base: nat, brk: nat, ptr: map<nat, nat>, size: map<nat, nat>, list: seq<nat>, own: map<nat, nat>,
               held: set<nat>, h: nat, n: nat, own': map<nat, nat>)
    requires GoodIn(base, brk, ptr, size, list, own, held) && 0 < base < brk <= h && n > 0 && Added(own, own', h, n)
    ensures GoodIn(base, h + n, ptr, size[h := n], list, own', held + {h}) && h !in held
  {
    MoreTiles(base, brk, size, own, h, n, own');
    assert h !in own;
    NewBlock(own, held, list, h, own');
    MoreApart(size, list, h, n);
  }

  lemma MoreApart(size: map<nat, nat>, list: seq<nat>, h: nat, n: nat)
    requires Apart(size, list) && h !in list
    ensures Apart(size[h := n], list)
  {
  }

  lemma MoreTiles(base: nat, brk: nat, size: map<nat, nat>, own: map<nat, nat>, h: nat, n: nat, own': map<nat, nat>)
    requires
      && Tiled(own, size) && (forall u :: u in own ==> base < u < brk) && brk <= h && n > 0 && Added(own, own', h, n)
    ensures Tiled(own', size[h := n]) && (forall x :: Header(own', x) <==> Header(own, x) || x == h)
  {
    var size' := size[h := n];
    forall x
      ensures Header(own', x) <==> Header(own, x) || x == h
    {
    }
    forall u | u in own'
      ensures InBlock(own', size', u)
    {
      if u in own {
        assert InBlock(own, size, u);
      }
    }
    forall x: nat | Header(own', x)
      ensures Covers(own', size', x)
    {
      if x != h {
        assert Header(own, x) && Covers(own, size, x);
      }
      forall u: nat | x <= u < x + size'[x]
        ensures u in own' && own'[u] == x
      {
        if x != h {
          assert u in own && own[u] == x;
        }
      }
    }
  }

  lemma AboveBase(base: nat, brk: nat, ptr: map<nat, nat>, size: map<nat, nat>, list: seq<nat>, own: map<nat, nat>,
                  held: set<nat>, i: nat)
    requires Good(base, brk, ptr, size, list, own, held) && i < |list|
    ensures list[i] >= base
  {
    assert Open(0);
    if i > 0 {
      assert list[0] < list[i];
    }
  }

  /** A unit of memory lies in one block only, and that is free or handed out, not both. */
  lemma OneBlock(base: nat, brk: nat, ptr: map<nat, nat>, size: map<nat, nat>, list: seq<nat>, own: map<nat, nat>,
                 held: set<nat>, u: nat)
    requires Good(base, brk, ptr, size, list, own, held) && u in own
    ensures own[u] in size && own[u] <= u < own[u] + size[own[u]] && (own[u] in held <==> own[u] !in list)
    ensures forall h :: h in size && (h in held || h in list) && h <= u < h + size[h] ==> h == own[u]
  {
    assert Open(0);
    assert InBlock(own, size, u);
    forall h | h in size && (h in held || h in list) && h <= u < h + size[h]
      ensures h == own[u]
    {
      assert h != base ==> Covers(own, size, h);
    }
  }
}
