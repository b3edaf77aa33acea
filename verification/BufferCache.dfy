/** The block cache of kernel/bio.c: NBUF buffers on a circular doubly linked
    list kept in release order, reference counts, and pinning. */
module BufferCache {
  import opened Blocks
  import opened Common

  const NBUF := 30
  const HEAD := NBUF

  datatype Buf = Buf(valid: bool, dev: nat, blockno: nat, locked: bool, refcnt: nat, data: Block) {
    predicate Holds(bn: nat) { dev == ROOTDEV && blockno == bn }
  }

  ghost predicate Cached(buf: seq<Buf>, bn: nat) {
    exists i :: 0 <= i < |buf| && buf[i].Holds(bn)
  }

  /** No two buffers hold the same block. */
  ghost predicate Unique(buf: seq<Buf>) {
    forall i, j {:trigger buf[i].blockno, buf[j].blockno} ::
      0 <= i < j < |buf| && buf[i].dev == ROOTDEV && buf[j].dev == ROOTDEV ==> buf[i].blockno != buf[j].blockno
  }

  /** Some valid buffer holds block bn with at least one reference. */
  ghost predicate Pinned(buf: seq<Buf>, bn: nat) {
    exists i :: 0 <= i < |buf| && buf[i].Holds(bn) && buf[i].valid && buf[i].refcnt > 0
  }

  /** The cache refines the flat contents mem: a valid buffer shows mem, and a
      block that is newer in memory than on disk sits in a referenced buffer. */
  ghost predicate Coherent(buf: seq<Buf>, disk: Disk, mem: Disk) {
    && |mem| == |disk|
    && Unique(buf)
    && (forall i :: 0 <= i < |buf| && buf[i].dev == ROOTDEV ==> buf[i].blockno < |disk|)
    && (forall i :: 0 <= i < |buf| && buf[i].dev == ROOTDEV && buf[i].valid
          ==> buf[i].data == mem[buf[i].blockno])
    && (forall bn :: 0 <= bn < |disk| && mem[bn] != disk[bn] ==> Pinned(buf, bn))
  }

  /** bget has nothing to return: bn is not cached and every buffer is referenced. */
  ghost predicate Exhausted(buf: seq<Buf>, bn: nat) {
    !Cached(buf, bn) && forall i :: 0 <= i < |buf| ==> buf[i].refcnt > 0
  }

  /** Buffer i was taken by a bread of block bn with contents data. */
  ghost predicate Fetched(a: seq<Buf>, b: seq<Buf>, i: nat, bn: nat, data: Block) {
    && i < |a| == |b| && !a[i].locked
    && (a[i].Holds(bn) || a[i].refcnt == 0)
    && b[i] == Buf(true, ROOTDEV, bn, true, RefsTo(a, i, bn) + 1, data)
  }

  /** bget's section under the cache lock: take a reference to the buffer that
      holds bn, or else recycle an unreferenced one. */
  ghost predicate GetStep(buf: seq<Buf>, buf': seq<Buf>, bn: nat, i: nat) {
    && i < |buf|
    && if Cached(buf, bn)
       then buf[i].Holds(bn) && buf' == buf[i := buf[i].(refcnt := buf[i].refcnt + 1)]
       else buf[i].refcnt == 0
            && buf' == buf[i := buf[i].(dev := ROOTDEV, blockno := bn, valid := false, refcnt := 1)]
  }

  lemma GetStepCoherent(buf: seq<Buf>, buf': seq<Buf>, bn: nat, i: nat, disk: Disk, mem: Disk)
    requires Coherent(buf, disk, mem) && bn < |disk| && GetStep(buf, buf', bn, i)
    ensures Coherent(buf', disk, mem) && buf'[i].Holds(bn)
    ensures !buf'[i].valid ==> disk[bn] == mem[bn]
  {
    forall b | 0 <= b < |disk| && mem[b] != disk[b]
      ensures Pinned(buf', b)
    {
      var k :| 0 <= k < |buf| && buf[k].Holds(b) && buf[k].valid && buf[k].refcnt > 0;
      assert buf'[k].Holds(b) && buf'[k].valid && buf'[k].refcnt > 0;
    }
  }

  /** order lists every buffer. */
  ghost predicate Complete(order: seq<nat>) {
    |order| == NBUF && forall b :: 0 <= b < NBUF ==> b in order
  }

  /** Position i of the ring: the head stands before and after the buffers. */
  function At(order: seq<nat>, i: int): (b: nat) {
    if 0 <= i < |order| then order[i] else HEAD
  }

  /** order lists no buffer twice. */
  ghost predicate Once(order: seq<nat>) {
    && (forall i :: 0 <= i < |order| ==> order[i] < NBUF)
    && (forall i, j :: 0 <= i < j < |order| ==> order[i] != order[j])
  }

  /** The pointers thread the ring HEAD, order[0], ..., HEAD in both directions. */
  ghost predicate Linked(next: seq<nat>, prev: seq<nat>, order: seq<nat>) {
    && |next| == NBUF + 1 && |prev| == NBUF + 1
    && Once(order)
    && (forall i :: -1 <= i < |order| ==> next[At(order, i)] == At(order, i + 1))
    && (forall i :: 0 <= i <= |order| ==> prev[At(order, i)] == At(order, i - 1))
  }

  function MoveToFront(order: seq<nat>, k: nat): (r: seq<nat>)
    requires k < |order|
  {
    [order[k]] + (order[..k] + order[k + 1..])
  }

  /** b moved to the front, the others kept their order. */
  ghost predicate Fronted(order: seq<nat>, order': seq<nat>, b: nat) {
    exists k :: 0 <= k < |order| && order[k] == b && order' == MoveToFront(order, k)
  }

  /** head.next is the most recently released buffer, head.prev the least. */
  ghost predicate ByRelease(order: seq<nat>, stamp: seq<nat>, clock: nat) {
    && |stamp| == NBUF
    && (forall i :: 0 <= i < |order| ==> order[i] < NBUF)
    && (forall i :: 0 <= i < NBUF ==> stamp[i] < clock)
    && (forall i, j :: 0 <= i < j < |order| ==> stamp[order[i]] > stamp[order[j]])
  }

  /** The list is a well-formed ring through all buffers, in release order. */
  ghost predicate Listed(next: seq<nat>, prev: seq<nat>, order: seq<nat>, stamp: seq<nat>, clock: nat) {
    Complete(order) && Linked(next, prev, order) && ByRelease(order, stamp, clock)
  }

  class Bcache {
    var buf: seq<Buf>
    var next: seq<nat>
    var prev: seq<nat>
    var disk: Disk
    ghost var mem: Disk          // the most recently written contents of each block
    ghost var trace: seq<Write>  // block writes sent to the device
    ghost var order: seq<nat>    // the list, from head.next
    ghost var stamp: seq<nat>    // when each buffer was last released
    ghost var clock: nat

    ghost predicate Valid()
      reads this
    {
      && |buf| == NBUF
      && Listed(next, prev, order, stamp, clock)
      && Coherent(buf, disk, mem)
      && (forall i :: 0 <= i < NBUF && buf[i].refcnt == 0 ==> !buf[i].locked)
    }

    /** binit: buffers start unreferenced, with identity (0, 0). */
    constructor (d: Disk)
      ensures Valid() && disk == mem == d && trace == []
      ensures forall i :: 0 <= i < NBUF ==> buf[i].refcnt == 0 && buf[i].dev == 0 && buf[i].blockno == 0
    {
      disk, mem, trace := d, d, [];
      buf := seq(NBUF, _ => Buf(false, 0, 0, false, 0, ZeroBlock()));
      next, prev := seq(NBUF + 1, _ => HEAD), seq(NBUF + 1, _ => HEAD);
      order, clock := [], NBUF;
      stamp := seq(NBUF, i requires 0 <= i < NBUF => i);
      new;
      var b := 0;
      while b < NBUF
        invariant 0 <= b <= NBUF && |order| == b
        invariant forall i :: 0 <= i < b ==> order[i] == b - 1 - i
        invariant Linked(next, prev, order)
        invariant disk == mem == d && trace == [] && buf == seq(NBUF, _ => Buf(false, 0, 0, false, 0, ZeroBlock()))
        invariant stamp == seq(NBUF, i requires 0 <= i < NBUF => i) && clock == NBUF
      {
        PushFront(b);
        b := b + 1;
      }
      forall k | 0 <= k < NBUF
        ensures k in order
      {
        assert order[NBUF - 1 - k] == k;
      }
    }

    /** Insert b, which is on no list, between the head and its successor. */
    method PushFront(b: nat)
      requires b < NBUF && Linked(next, prev, order) && b !in order
      modifies `next, `prev, `order
      ensures order == [b] + old(order) && Linked(next, prev, order)
    {
      PushedRing(next, prev, order, b);
      var first := next[HEAD];
      next := next[b := first];
      prev := prev[b := HEAD];
      prev := prev[first := b];
      next := next[HEAD := b];
      order := [b] + order;
    }

    /** bget's first scan, from the most recently used end; HEAD if absent. */
    method ScanForBlock(bn: nat) returns (b: nat)
      requires Valid()
      ensures b == HEAD ==> !Cached(buf, bn)
      ensures b != HEAD ==> b < NBUF && buf[b].Holds(bn)
    {
      b := next[HEAD];
      ghost var k := 0;
      assert b == At(order, 0) by { assert At(order, -1) == HEAD; }
      while b != HEAD && !buf[b].Holds(bn)
        invariant 0 <= k <= NBUF && b == At(order, k)
        invariant forall j :: 0 <= j < k ==> !buf[order[j]].Holds(bn)
        decreases NBUF - k
      {
        assert next[At(order, k)] == At(order, k + 1);
        b := next[b];
        k := k + 1;
      }
      if b == HEAD {
        forall i | 0 <= i < NBUF
          ensures !buf[i].Holds(bn)
        {
          assert i in order;
        }
      }
    }

    /** bget's second scan, from the least recently used end; HEAD if every buffer
        is referenced. */
    method ScanForUnused() returns (b: nat)
      requires Valid()
      ensures b == HEAD ==> forall i :: 0 <= i < NBUF ==> buf[i].refcnt > 0
      ensures b != HEAD ==> b < NBUF && buf[b].refcnt == 0
                            && forall i :: 0 <= i < NBUF && i != b && buf[i].refcnt == 0 ==> stamp[b] < stamp[i]
    {
      b := prev[HEAD];
      ghost var k := NBUF - 1;
      assert b == At(order, k) by { assert At(order, NBUF) == HEAD; }
      while b != HEAD && buf[b].refcnt != 0
        invariant -1 <= k < NBUF && b == At(order, k)
        invariant forall j :: k < j < NBUF ==> buf[order[j]].refcnt > 0
        decreases k
      {
        assert prev[At(order, k)] == At(order, k - 1);
        b := prev[b];
        k := k - 1;
      }
      if b != HEAD {
        OldestUnused(buf, order, stamp, clock, k);
      } else {
        forall i | 0 <= i < NBUF
          ensures buf[i].refcnt > 0
        {
          assert i in order;
        }
      }
    }

    /** bget. r is the locked buffer; r == -1 is the "no buffers" panic. A buffer
        of block bn that is locked already would make the caller wait. */
    method Bget(bn: nat) returns (r: int)
      requires Valid() && bn < |disk|
      requires forall i :: 0 <= i < NBUF && buf[i].Holds(bn) ==> !buf[i].locked
      modifies `buf
      ensures Valid()
      ensures r == -1 <==> Exhausted(old(buf), bn)
      ensures r == -1 ==> buf == old(buf)
      ensures r != -1 ==> 0 <= r < NBUF && buf[r].locked && !old(buf)[r].locked && buf[r].Holds(bn)
                          && GetStep(old(buf), buf[r := buf[r].(locked := false)], bn, r)
      // the recycled buffer is the least recently released unreferenced one
      ensures r != -1 && !Cached(old(buf), bn) ==>
                forall i :: 0 <= i < NBUF && i != r && old(buf)[i].refcnt == 0 ==> stamp[r] < stamp[i]
    {
      var b := ScanForBlock(bn);
      if b != HEAD {
        buf := buf[b := buf[b].(refcnt := buf[b].refcnt + 1)];
      } else {
        b := ScanForUnused();
        if b == HEAD {
          return -1;
        }
        buf := buf[b := buf[b].(dev := ROOTDEV, blockno := bn, valid := false, refcnt := 1)];
      }
      ghost var mid := buf;
      GetStepCoherent(old(buf), mid, bn, b, disk, mem);
      LockKeepsCoherent(mid, b, true, disk, mem);
      buf := buf[b := buf[b].(locked := true)];
      assert buf[b := buf[b].(locked := false)] == mid;
      return b;
    }

    /** bread: the locked buffer shows the most recently written contents. */
    method Bread(bn: nat) returns (r: int)
      requires Valid() && bn < |disk|
      requires forall i :: 0 <= i < NBUF && buf[i].Holds(bn) ==> !buf[i].locked
      modifies `buf
      ensures Valid()
      ensures r == -1 <==> Exhausted(old(buf), bn)
      ensures r == -1 ==> buf == old(buf)
      ensures r != -1 ==> 0 <= r < NBUF && Fetched(old(buf), buf, r, bn, mem[bn]) && buf == old(buf)[r := buf[r]]
    {
      r := Bget(bn);
      if r == -1 {
        return;
      }
      assert buf == old(buf)[r := buf[r]] by {
        assert buf == buf[r := buf[r].(locked := false)][r := buf[r]];
      }
      assert buf[r].refcnt == RefsTo(old(buf), r, bn) + 1 by {
        assert buf[r := buf[r].(locked := false)][r].refcnt == buf[r].refcnt;
        assert old(buf)[r].Holds(bn) ==> Cached(old(buf), bn);
      }
      if !buf[r].valid {
        ghost var was := buf;
        buf := buf[r := buf[r].(valid := true, data := disk[bn])];
        FillKeepsCoherent(was, r, disk, mem);
      }
    }

    /** The holder of a locked buffer stores into b->data. */
    method Store(r: nat, data: Block)
      requires Valid() && r < NBUF && buf[r].locked && buf[r].valid && buf[r].dev == ROOTDEV && buf[r].refcnt > 0
      modifies `buf, `mem
      ensures Valid()
      ensures buf == old(buf)[r := old(buf)[r].(data := data)]
      ensures mem == old(mem)[old(buf)[r].blockno := data]
    {
      ghost var was := buf;
      mem := mem[buf[r].blockno := data];
      buf := buf[r := buf[r].(data := data)];
      StoreKeepsCoherent(was, r, data, disk, old(mem));
    }

    /** bwrite */
    method Bwrite(r: nat)
      requires Valid() && r < NBUF && buf[r].locked && buf[r].valid && buf[r].dev == ROOTDEV
      modifies `disk, `trace
      ensures Valid()
      ensures disk == old(disk)[buf[r].blockno := mem[buf[r].blockno]]
      ensures trace == old(trace) + [Write(buf[r].blockno, mem[buf[r].blockno])]
    {
      disk := disk[buf[r].blockno := buf[r].data];
      trace := trace + [Write(buf[r].blockno, buf[r].data)];
    }

    /** brelse: drop the lock and the reference; an unreferenced buffer moves to
        the front of the list. The last holder must have written its changes. */
    method Brelse(r: nat)
      requires Valid() && r < NBUF && buf[r].locked && buf[r].refcnt > 0
      requires buf[r].dev == ROOTDEV && buf[r].refcnt == 1 ==> mem[buf[r].blockno] == disk[buf[r].blockno]
      modifies `buf, `next, `prev, `order, `stamp, `clock
      ensures Valid()
      ensures buf == old(buf)[r := old(buf)[r].(locked := false, refcnt := old(buf)[r].refcnt - 1)]
      ensures buf[r].refcnt > 0 ==> order == old(order) && stamp == old(stamp)
      ensures buf[r].refcnt == 0 ==> stamp == old(stamp)[r := old(clock)]
    {
      ghost var was := buf;
      buf := buf[r := buf[r].(locked := false, refcnt := buf[r].refcnt - 1)];
      ReleaseKeepsCoherent(was, r, disk, mem);
      if buf[r].refcnt == 0 {
        MoveFront(r);
      }
    }

    /** brelse's list surgery. */
    method MoveFront(b: nat)
      requires b < NBUF && Listed(next, prev, order, stamp, clock)
      modifies `next, `prev, `order, `stamp, `clock
      ensures Listed(next, prev, order, stamp, clock)
      ensures stamp == old(stamp)[b := old(clock)] && Fronted(old(order), order, b)
    {
      assert b in order;
      ghost var k :| 0 <= k < NBUF && order[k] == b;
      FrontIsComplete(order, k);
      FrontByRelease(order, k, stamp, clock);
      Unlink(b, k);
      PushFront(b);
      stamp := stamp[b := clock];
      clock := clock + 1;
    }

    /** The two pointer assignments that take b off the list. */
    method Unlink(b: nat, ghost k: nat)
      requires Linked(next, prev, order) && k < |order| && order[k] == b
      modifies `next, `prev, `order
      ensures order == old(order)[..k] + old(order)[k + 1..] && b !in order && Linked(next, prev, order)
    {
      ghost var o := order;
      assert b == At(o, k) && next[b] == At(o, k + 1) && prev[b] == At(o, k - 1);
      prev := prev[next[b] := prev[b]];
      next := next[prev[b] := next[b]];
      order := order[..k] + order[k + 1..];
      UnlinkedRing(old(next), old(prev), o, k);
    }

    /** bpin */
    method Bpin(r: nat)
      requires Valid() && r < NBUF && buf[r].locked
      modifies `buf
      ensures Valid() && buf == old(buf)[r := old(buf)[r].(refcnt := old(buf)[r].refcnt + 1)]
    {
      ghost var was := buf;
      buf := buf[r := buf[r].(refcnt := buf[r].refcnt + 1)];
      RefsKeepCoherent(was, r, buf[r].refcnt, disk, mem);
    }

    /** bunpin: the caller still holds the buffer, so the count stays positive. */
    method Bunpin(r: nat)
      requires Valid() && r < NBUF && buf[r].refcnt > 1
      modifies `buf
      ensures Valid() && buf == old(buf)[r := old(buf)[r].(refcnt := old(buf)[r].refcnt - 1)]
    {
      ghost var was := buf;
      buf := buf[r := buf[r].(refcnt := buf[r].refcnt - 1)];
      RefsKeepCoherent(was, r, buf[r].refcnt, disk, mem);
    }
  }

  function RefsTo(buf: seq<Buf>, r: nat, bn: nat): nat
    requires r < |buf|
  {
    if buf[r].Holds(bn) then buf[r].refcnt else 0
  }

  /** A buffer update that keeps identity, contents and referencedness keeps coherence. */
  lemma SameContentsCoherent(buf: seq<Buf>, i: nat, b: Buf, disk: Disk, mem: Disk)
    requires Coherent(buf, disk, mem) && i < |buf|
    requires b.dev == buf[i].dev && b.blockno == buf[i].blockno
    requires b.valid == buf[i].valid && b.data == buf[i].data
    requires b.dev == ROOTDEV && buf[i].refcnt > 0 ==> b.refcnt > 0 || mem[b.blockno] == disk[b.blockno]
    ensures Coherent(buf[i := b], disk, mem)
  {
    var buf' := buf[i := b];
    forall n | 0 <= n < |disk| && mem[n] != disk[n]
      ensures Pinned(buf', n)
    {
      var k :| 0 <= k < |buf| && buf[k].Holds(n) && buf[k].valid && buf[k].refcnt > 0;
      assert buf'[k].Holds(n) && buf'[k].valid && buf'[k].refcnt > 0;
    }
  }

  lemma LockKeepsCoherent(buf: seq<Buf>, i: nat, locked: bool, disk: Disk, mem: Disk)
    requires Coherent(buf, disk, mem) && i < |buf|
    ensures Coherent(buf[i := buf[i].(locked := locked)], disk, mem)
  {
    SameContentsCoherent(buf, i, buf[i].(locked := locked), disk, mem);
  }

  lemma RefsKeepCoherent(buf: seq<Buf>, i: nat, refs: nat, disk: Disk, mem: Disk)
    requires Coherent(buf, disk, mem) && i < |buf| && refs > 0
    ensures Coherent(buf[i := buf[i].(refcnt := refs)], disk, mem)
  {
    SameContentsCoherent(buf, i, buf[i].(refcnt := refs), disk, mem);
  }

  lemma ReleaseKeepsCoherent(buf: seq<Buf>, i: nat, disk: Disk, mem: Disk)
    requires Coherent(buf, disk, mem) && i < |buf| && buf[i].refcnt > 0
    requires buf[i].dev == ROOTDEV && buf[i].refcnt == 1 ==> mem[buf[i].blockno] == disk[buf[i].blockno]
    ensures Coherent(buf[i := buf[i].(locked := false, refcnt := buf[i].refcnt - 1)], disk, mem)
  {
    SameContentsCoherent(buf, i, buf[i].(locked := false, refcnt := buf[i].refcnt - 1), disk, mem);
  }

  lemma FillKeepsCoherent(buf: seq<Buf>, i: nat, disk: Disk, mem: Disk)
    requires Coherent(buf, disk, mem) && i < |buf| && buf[i].dev == ROOTDEV && !buf[i].valid
    ensures mem[buf[i].blockno] == disk[buf[i].blockno]
    ensures Coherent(buf[i := buf[i].(valid := true, data := disk[buf[i].blockno])], disk, mem)
  {
    var buf' := buf[i := buf[i].(valid := true, data := disk[buf[i].blockno])];
    forall n | 0 <= n < |disk| && mem[n] != disk[n]
      ensures Pinned(buf', n)
    {
      var k :| 0 <= k < |buf| && buf[k].Holds(n) && buf[k].valid && buf[k].refcnt > 0;
      assert buf'[k].Holds(n) && buf'[k].valid && buf'[k].refcnt > 0;
    }
  }

  lemma StoreKeepsCoherent(buf: seq<Buf>, i: nat, data: Block, disk: Disk, mem: Disk)
    requires Coherent(buf, disk, mem) && i < |buf|
    requires buf[i].dev == ROOTDEV && buf[i].valid && buf[i].refcnt > 0
    ensures Coherent(buf[i := buf[i].(data := data)], disk, mem[buf[i].blockno := data])
  {
    var buf' := buf[i := buf[i].(data := data)];
    var mem' := mem[buf[i].blockno := data];
    forall n | 0 <= n < |disk| && mem'[n] != disk[n]
      ensures Pinned(buf', n)
    {
      if n == buf[i].blockno {
        assert buf'[i].Holds(n) && buf'[i].valid && buf'[i].refcnt > 0;
      } else {
        var k :| 0 <= k < |buf| && buf[k].Holds(n) && buf[k].valid && buf[k].refcnt > 0;
        assert buf'[k].Holds(n) && buf'[k].valid && buf'[k].refcnt > 0;
      }
    }
  }

  lemma WriteKeepsCoherent(buf: seq<Buf>, i: nat, disk: Disk, mem: Disk)
    requires Coherent(buf, disk, mem) && i < |buf| && buf[i].dev == ROOTDEV && buf[i].valid
    ensures Coherent(buf, disk[buf[i].blockno := buf[i].data], mem)
  {
  }

  /** The first unreferenced buffer met from the tail was released longest ago. */
  lemma OldestUnused(buf: seq<Buf>, order: seq<nat>, stamp: seq<nat>, clock: nat, k: nat)
    requires |buf| == NBUF && Complete(order) && ByRelease(order, stamp, clock) && k < NBUF
    requires forall j :: k < j < NBUF ==> buf[order[j]].refcnt > 0
    ensures forall i :: 0 <= i < NBUF && i != order[k] && buf[i].refcnt == 0 ==> stamp[order[k]] < stamp[i]
  {
    forall i | 0 <= i < NBUF && i != order[k] && buf[i].refcnt == 0
      ensures stamp[order[k]] < stamp[i]
    {
      assert i in order;
      var j :| 0 <= j < NBUF && order[j] == i;
    }
  }

  lemma PushedRing(next: seq<nat>, prev: seq<nat>, o: seq<nat>, b: nat)
    requires Linked(next, prev, o) && b < NBUF && b !in o
    ensures next[HEAD] <= NBUF
    ensures Linked(next[b := next[HEAD]][HEAD := b], prev[b := HEAD][next[HEAD] := b], [b] + o)
  {
    assert next[HEAD] == At(o, 0) by { assert At(o, -1) == HEAD; }
    var order := [b] + o;
    var next', prev' := next[b := next[HEAD]][HEAD := b], prev[b := HEAD][next[HEAD] := b];
    assert forall i :: At(order, i) == if i == 0 then b else At(o, i - 1);
    forall i | -1 <= i < |order|
      ensures next'[At(order, i)] == At(order, i + 1)
    {
      assert i > 0 ==> next[At(o, i - 1)] == At(o, i);
    }
    forall i | 0 <= i <= |order|
      ensures prev'[At(order, i)] == At(order, i - 1)
    {
      assert i > 1 ==> prev[At(o, i - 1)] == At(o, i - 2);
    }
  }

  lemma UnlinkedRing(next: seq<nat>, prev: seq<nat>, o: seq<nat>, k: nat)
    requires Linked(next, prev, o) && k < |o|
    ensures var b := o[k];
      && b < NBUF && prev[b] <= NBUF && next[b] <= NBUF
      && Linked(next[prev[b] := next[b]], prev[next[b] := prev[b]], o[..k] + o[k + 1..])
  {
    var b := o[k];
    var order := o[..k] + o[k + 1..];
    assert b == At(o, k) && next[b] == At(o, k + 1) && prev[b] == At(o, k - 1);
    var next', prev' := next[prev[b] := next[b]], prev[next[b] := prev[b]];
    forall i | -1 <= i <= |order|
      ensures At(order, i) <= NBUF && At(order, i) == if i < k then At(o, i) else At(o, i + 1)
    {
    }
    forall i | -1 <= i < |order|
      ensures next'[At(order, i)] == At(order, i + 1)
    {
      assert next[At(o, if i < k then i else i + 1)] == At(o, if i < k then i + 1 else i + 2);
    }
    forall i | 0 <= i <= |order|
      ensures prev'[At(order, i)] == At(order, i - 1)
    {
      assert prev[At(o, if i < k then i else i + 1)] == At(o, if i < k then i - 1 else i);
    }
  }

  lemma FrontIsComplete(order: seq<nat>, k: nat)
    requires Complete(order) && k < NBUF
    ensures Complete(MoveToFront(order, k))
  {
    var o := MoveToFront(order, k);
    forall b | 0 <= b < NBUF
      ensures b in o
    {
      assert b in order;
      var j :| 0 <= j < NBUF && order[j] == b;
      assert o[if j == k then 0 else if j < k then j + 1 else j] == b;
    }
  }

  lemma FrontByRelease(order: seq<nat>, k: nat, stamp: seq<nat>, clock: nat)
    requires |order| == NBUF && Once(order) && ByRelease(order, stamp, clock) && k < NBUF
    ensures ByRelease(MoveToFront(order, k), stamp[order[k] := clock], clock + 1)
  {
  }
}
