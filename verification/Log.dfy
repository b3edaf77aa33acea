/** kernel/log.c over the block cache: log_write, commit and recovery, each proved
    to send exactly the block writes of module RedoLog to the device. */
module Log {
  import opened Blocks
  import opened Common
  import opened BufferCache
  import opened RedoLog

  ghost predicate Unlocked(buf: seq<Buf>) {
    forall j :: 0 <= j < |buf| ==> !buf[j].locked
  }

  ghost predicate SameBut(a: seq<Buf>, b: seq<Buf>, l: nat, d: nat) {
    |a| == |b| && forall j :: 0 <= j < |a| && j != l && j != d ==> b[j] == a[j]
  }

  ghost predicate Spare(buf: seq<Buf>, j: nat) {
    j < |buf| && buf[j].refcnt == 0
  }

  /** Two breads, the second one of block home, cannot run out of buffers. */
  ghost predicate Enough(buf: seq<Buf>, home: nat) {
    || (Pinned(buf, home) && exists j :: Spare(buf, j))
    || (exists i, j :: i != j && Spare(buf, i) && Spare(buf, j))
  }

  lemma StillEnough(a: seq<Buf>, b: seq<Buf>, l: nat, slot: nat, data: Block, home: nat)
    requires Fetched(a, b, l, slot, data) && b == a[l := b[l]] && slot != home && Enough(a, home)
    ensures !Exhausted(b, home)
  {
    if Pinned(a, home) {
      var j :| 0 <= j < |a| && a[j].Holds(home) && a[j].valid && a[j].refcnt > 0;
      assert b[j].Holds(home);
    } else {
      var i: nat, j: nat :| i != j && Spare(a, i) && Spare(a, j);
      assert Spare(b, if i == l then j else i);
    }
  }

  /** One reference for a logged block, one for the holder, who has the lock. */
  ghost predicate Refs(buf: seq<Buf>, logged: seq<nat>, held: set<nat>) {
    forall j :: 0 <= j < |buf| ==>
      && buf[j].refcnt == (if buf[j].dev == ROOTDEV && buf[j].blockno in logged then 1 else 0)
         + (if j in held then 1 else 0)
      && (buf[j].locked <==> j in held)
  }

  ghost predicate AllPinned(buf: seq<Buf>, logged: seq<nat>) {
    forall i :: 0 <= i < |logged| ==> Pinned(buf, logged[i])
  }

  /** The blocks of the first k buffers, when all of them hold one. */
  lemma {:induction false} ManyBlocks(buf: seq<Buf>, k: nat) returns (bns: set<nat>)
    requires k <= |buf| && Unique(buf) && forall j :: 0 <= j < k ==> buf[j].dev == ROOTDEV
    ensures |bns| == k && forall b :: b in bns <==> exists j :: 0 <= j < k && buf[j].blockno == b
  {
    bns := {};
    if k > 0 {
      bns := ManyBlocks(buf, k - 1);
      var b := buf[k - 1].blockno;
      assert b !in bns;
      bns := bns + {b};
    }
  }

  lemma {:induction false} FewElements(bs: seq<nat>) returns (s: set<nat>)
    ensures |s| <= |bs| && forall b :: b in bs ==> b in s
  {
    s := {};
    if bs != [] {
      s := FewElements(bs[..|bs| - 1]);
      s := s + {bs[|bs| - 1]};
    }
  }

  /** With fewer logged blocks than buffers, one buffer is free. */
  lemma SpareBuffer(buf: seq<Buf>, logged: seq<nat>)
    requires |buf| == NBUF && Unique(buf) && Refs(buf, logged, {}) && |logged| < NBUF
    ensures Sufficient(buf, false)
  {
    if forall j :: 0 <= j < NBUF ==> buf[j].refcnt > 0 {
      var bns := ManyBlocks(buf, NBUF);
      var s := FewElements(logged);
      Subsets(bns, s);
    } else {
      var j: nat :| j < NBUF && buf[j].refcnt == 0;
      assert Spare(buf, j);
    }
  }

  /** When every buffer is unreferenced, the disk has all there is. */
  lemma AllReleased(a: seq<Buf>, b: seq<Buf>, logged: seq<nat>, disk: Disk, mem: Disk)
    requires Refs(a, logged, {}) && Unpinned(a, b, logged) && Unlocked(b) && Coherent(b, disk, mem)
    ensures Refs(b, [], {}) && mem == disk
  {
    forall bn | 0 <= bn < |disk|
      ensures mem[bn] == disk[bn]
    {
      assert !Pinned(b, bn);
    }
  }

  lemma CommitLeaves(d0: Disk, g: Region, bs: seq<nat>, m0: Disk, ws: seq<Write>, k: nat, t0: seq<Write>, t: seq<Write>,
                     d: Disk)
    requires Clear(d0, g) && Loggable(bs, g, |d0|) && |m0| == |d0| && ws == CommitWrites(d0, g, bs, m0)
    requires Sent(ws, k, t0, t, d0, d) && k == |ws|
    ensures Clear(d, g)
  {
    assert ws[..|ws|] == ws;
    CommitCompletes(d0, g, bs, m0);
  }

  /** bpin of the held buffer r, whose block enters the log. */
  lemma OnePinned(a: seq<Buf>, b: seq<Buf>, logged: seq<nat>, held: set<nat>, r: nat, bn: nat)
    requires
      && Refs(a, logged, held) && AllPinned(a, logged) && Unique(a) && r < |a| && a[r].Holds(bn) && a[r].valid
      && bn !in logged
    requires b == a[r := a[r].(refcnt := a[r].refcnt + 1)]
    ensures Refs(b, logged + [bn], held) && AllPinned(b, logged + [bn])
  {
    forall i | 0 <= i < |logged + [bn]|
      ensures Pinned(b, (logged + [bn])[i])
    {
      if i < |logged| {
        assert Pinned(a, logged[i]);
        var j :| 0 <= j < |a| && a[j].Holds(logged[i]) && a[j].valid && a[j].refcnt > 0;
        assert b[j].Holds(logged[i]) && b[j].valid && b[j].refcnt > 0;
      } else {
        assert b[r].Holds(bn) && b[r].valid && b[r].refcnt > 0;
      }
    }
  }

  class Log {
    const bc: Bcache
    const g: Region
    var n: nat
    var block: seq<nat>
    var outstanding: nat

    constructor (bc: Bcache, g: Region)
      ensures this.bc == bc && this.g == g && n == 0 && |block| == LOGSIZE && outstanding == 0
    {
      this.bc, this.g, n, block, outstanding := bc, g, 0, seq(LOGSIZE, _ => 0), 0;
    }

    /** The block numbers of the current transaction. */
    ghost function Logged(): seq<nat>
      reads this
      requires n <= |block|
    {
      block[..n]
    }

    ghost predicate Ready()
      reads this, bc
    {
      && bc.Valid() && Unlocked(bc.buf) && |block| == LOGSIZE && n <= LOGSIZE
      && Loggable(Logged(), g, |bc.disk|)
    }

    /** Between the sections of an operation that holds the buffers in held, and of none at all
        between operations: the header is clear, and every buffer has one reference for its
        block if that is logged and one for its holder. So a logged block is never recycled. */
    ghost predicate Inv(held: set<nat>)
      reads this, bc
    {
      && bc.Valid() && |block| == LOGSIZE && n <= LOGSIZE && Loggable(Logged(), g, |bc.disk|)
      && Clear(bc.disk, g) && bc.mem[g.start] == bc.disk[g.start]
      && Refs(bc.buf, Logged(), held) && AllPinned(bc.buf, Logged())
    }

    /** The same, folded. */
    ghost predicate Steady(held: set<nat>)
      reads this, bc
    {
      forall u {:trigger Open(u)} :: Open(u) ==> Inv(held)
    }

    /** The two breads that every copy between the log and home starts with. */
    method FetchPair(slot: nat, home: nat) returns (l: int, d: int)
      requires bc.Valid() && Unlocked(bc.buf) && slot < |bc.disk| && home < |bc.disk| && slot != home
      modifies bc`buf
      ensures bc.Valid()
      ensures l != -1 && d != -1 ==>
        && 0 <= l < NBUF && 0 <= d < NBUF && l != d
        && Fetched(old(bc.buf), bc.buf, l, slot, bc.mem[slot]) && Fetched(old(bc.buf), bc.buf, d, home, bc.mem[home])
        && SameBut(old(bc.buf), bc.buf, l, d)
      ensures Enough(old(bc.buf), home) ==> l != -1 && d != -1
    {
      d := -1;
      l := bc.Bread(slot);
      ghost var mid := bc.buf;
      if l != -1 {
        d := bc.Bread(home);
        if Enough(old(bc.buf), home) {
          StillEnough(old(bc.buf), mid, l, slot, bc.mem[slot], home);
        }
      }
    }

    /** The two breleses that end it. */
    method ReleasePair(l: nat, d: nat)
      requires bc.Valid() && l < NBUF && d < NBUF && l != d
      requires bc.buf[l].locked && bc.buf[l].refcnt > 0 && bc.buf[d].locked && bc.buf[d].refcnt > 0
      requires bc.buf[l].dev == ROOTDEV && bc.buf[l].refcnt == 1 ==>
          bc.mem[bc.buf[l].blockno] == bc.disk[bc.buf[l].blockno]
      requires bc.buf[d].dev == ROOTDEV && bc.buf[d].refcnt == 1 ==>
          bc.mem[bc.buf[d].blockno] == bc.disk[bc.buf[d].blockno]
      modifies bc`buf, bc`next, bc`prev, bc`order, bc`stamp, bc`clock
      ensures bc.Valid()
      ensures SameBut(old(bc.buf), bc.buf, l, d)
      ensures bc.buf[l] == old(bc.buf[l]).(locked := false, refcnt := old(bc.buf[l]).refcnt - 1)
      ensures bc.buf[d] == old(bc.buf[d]).(locked := false, refcnt := old(bc.buf[d]).refcnt - 1)
    {
      bc.Brelse(l);
      bc.Brelse(d);
    }

    /** memmove into a held buffer, then bwrite. */
    method StoreAndWrite(r: nat, data: Block)
      requires bc.Valid() && r < NBUF
      requires bc.buf[r].locked && bc.buf[r].valid && bc.buf[r].dev == ROOTDEV && bc.buf[r].refcnt > 0
      modifies bc`buf, bc`mem, bc`disk, bc`trace
      ensures bc.Valid() && SameBut(old(bc.buf), bc.buf, r, r) && bc.buf[r] == old(bc.buf[r]).(data := data)
      ensures var bn := old(bc.buf[r]).blockno;
        && bn < |old(bc.mem)| == |old(bc.disk)|
        && bc.mem == old(bc.mem)[bn := data] && bc.disk == old(bc.disk)[bn := data]
        && bc.trace == old(bc.trace) + [Write(bn, data)]
    {
      bc.Store(r, data);
      bc.Bwrite(r);
    }

    /** One turn of write_log's loop: copy cached block home to log block slot.
        ok is false when bget panics for lack of buffers. */
    method WriteLogBlock(slot: nat, home: nat) returns (ok: bool)
      requires bc.Valid() && Unlocked(bc.buf) && slot < |bc.disk| && home < |bc.disk| && slot != home
      modifies bc
      ensures !ok ==> bc.disk == old(bc.disk) && bc.trace == old(bc.trace)
      ensures ok ==> && bc.Valid() && Unlocked(bc.buf)
                     && bc.mem == old(bc.mem)[slot := old(bc.mem)[home]]
                     && bc.disk == old(bc.disk)[slot := old(bc.mem)[home]]
                     && bc.trace == old(bc.trace) + [Write(slot, old(bc.mem)[home])]
                     && Unpinned(old(bc.buf), bc.buf, [])
      ensures Enough(old(bc.buf), home) ==> ok
    {
      var to, from := FetchPair(slot, home);
      if to == -1 || from == -1 {
        return false;
      }
      ghost var mid := bc.buf;
      DirtyIsCounted(old(bc.buf), mid, from, home, bc.disk, bc.mem);
      StoreAndWrite(to, bc.buf[from].data);
      ReleasePair(from, to);
      PairReleased(old(bc.buf), mid, bc.buf, to, slot, from, home, 0);
      return true;
    }

    /** The home copy: memmove, bwrite and, outside recovery, bunpin. */
    method PutHome(r: nat, data: Block, recovering: bool)
      requires bc.Valid() && r < NBUF && bc.buf[r].refcnt > (if recovering then 0 else 1)
      requires bc.buf[r].locked && bc.buf[r].valid && bc.buf[r].dev == ROOTDEV
      modifies bc`buf, bc`mem, bc`disk, bc`trace
      ensures bc.Valid() && SameBut(old(bc.buf), bc.buf, r, r)
      ensures bc.buf[r] == old(bc.buf[r]).(data := data,
                                           refcnt := old(bc.buf[r]).refcnt - (if recovering then 0 else 1))
      ensures var bn := old(bc.buf[r]).blockno;
        && bn < |old(bc.mem)| == |old(bc.disk)|
        && bc.mem == old(bc.mem)[bn := data] && bc.disk == old(bc.disk)[bn := data]
        && bc.trace == old(bc.trace) + [Write(bn, data)]
    {
      StoreAndWrite(r, data);
      if !recovering {
        bc.Bunpin(r);
      }
    }

    /** One turn of install_trans's loop. */
    method InstallBlock(slot: nat, home: nat, recovering: bool) returns (ok: bool)
      requires bc.Valid() && Unlocked(bc.buf) && slot < |bc.disk| && home < |bc.disk| && slot != home
      requires recovering || Pinned(bc.buf, home)
      modifies bc
      ensures !ok ==> bc.disk == old(bc.disk) && bc.trace == old(bc.trace)
      ensures ok ==> && bc.Valid() && Unlocked(bc.buf)
                     && bc.mem == old(bc.mem)[home := old(bc.mem)[slot]]
                     && bc.disk == old(bc.disk)[home := old(bc.mem)[slot]]
                     && bc.trace == old(bc.trace) + [Write(home, old(bc.mem)[slot])]
                     && Unpinned(old(bc.buf), bc.buf, Dropped(recovering, [home]))
      ensures Enough(old(bc.buf), home) ==> ok
    {
      var lbuf, dbuf := FetchPair(slot, home);
      if lbuf == -1 || dbuf == -1 {
        return false;
      }
      DirtyIsCounted(old(bc.buf), bc.buf, lbuf, slot, bc.disk, bc.mem);
      if !recovering {
        PinnedIsCounted(old(bc.buf), bc.buf, dbuf, home);
      }
      CopyHome(lbuf, dbuf, slot, home, recovering, old(bc.buf));
      return true;
    }

    /** The rest of the turn, with both buffers held. */
    method CopyHome(l: nat, d: nat, slot: nat, home: nat, recovering: bool, ghost a: seq<Buf>)
      requires bc.Valid() && l < NBUF && d < NBUF && l != d && slot != home && slot < |bc.mem| && home < |bc.mem|
      requires
        && Fetched(a, bc.buf, l, slot, bc.mem[slot]) && Fetched(a, bc.buf, d, home, bc.mem[home])
        && SameBut(a, bc.buf, l, d)
      requires Unlocked(a) && Unique(a) && (bc.buf[l].refcnt == 1 ==> bc.mem[slot] == bc.disk[slot])
      requires recovering || bc.buf[d].refcnt > 1
      modifies bc
      ensures bc.Valid() && Unlocked(bc.buf) && Unpinned(a, bc.buf, Dropped(recovering, [home]))
      ensures bc.mem == old(bc.mem)[home := old(bc.mem)[slot]]
      ensures |old(bc.disk)| == |old(bc.mem)| && bc.disk == old(bc.disk)[home := old(bc.mem)[slot]]
      ensures bc.trace == old(bc.trace) + [Write(home, old(bc.mem)[slot])]
    {
      ghost var mid := bc.buf;
      PutHome(d, bc.buf[l].data, recovering);
      ghost var d1, t1, m1 := bc.disk, bc.trace, bc.mem;
      ReleasePair(l, d);
      assert bc.disk == d1 && bc.trace == t1 && bc.mem == m1;
      PairReleased(a, mid, bc.buf, l, slot, d, home, if recovering then 0 else 1);
    }

    /** The first k writes of ws happened since the state (b0, t0, d0, m0), and the
        buffers of the blocks in drop lost a reference. */
    ghost predicate Copied(ws: seq<Write>, k: nat, drop: seq<nat>, b0: seq<Buf>, t0: seq<Write>, d0: Disk, m0: Disk)
      reads bc
    {
      && bc.Valid() && Unlocked(bc.buf) && Unpinned(b0, bc.buf, drop)
      && Progress(ws, k, t0, bc.trace, d0, bc.disk, m0, bc.mem)
    }

    method WriteLogTurn(tail: nat, ghost ws: seq<Write>, ghost b0: seq<Buf>, ghost t0: seq<Write>, ghost d0: Disk,
                        ghost m0: Disk)
      returns (ok: bool)
      requires n <= |block| && Loggable(Logged(), g, |m0|) && ws == LogCopies(g, Logged(), m0)
      requires tail < n && Copied(ws, tail, [], b0, t0, d0, m0) && Pinned(b0, block[tail])
      modifies bc
      ensures ok ==> Copied(ws, tail + 1, [], b0, t0, d0, m0)
      ensures !ok ==> bc.disk == old(bc.disk) && bc.trace == old(bc.trace)
      ensures Sufficient(b0, false) ==> ok
    {
      ghost var b1, t1, d1, m1 := bc.buf, bc.trace, bc.disk, bc.mem;
      StillSufficient(b0, b1, false, [], block[tail]);
      LogCopyAt(g, Logged(), m0, ws, tail);
      ok := WriteLogBlock(g.start + tail + 1, block[tail]);
      if ok {
        UnpinnedMore(b0, b1, bc.buf, [], block[tail], true);
        ProgressStep(ws, tail, t0, t1, bc.trace, d0, d1, bc.disk, m0, m1, bc.mem);
      }
    }

    /** write_log: copy every logged block from the cache to the log. k counts the
        writes that happened; ok is false when a bget panic cut the loop short. */
    method WriteLog() returns (ok: bool, ghost k: nat)
      requires Ready() && (forall i :: 0 <= i < n ==> Pinned(bc.buf, block[i]))
      modifies bc
      ensures k <= n && (ok ==> k == n)
      ensures Sent(LogCopies(g, Logged(), old(bc.mem)), k, old(bc.trace), bc.trace, old(bc.disk), bc.disk)
      ensures ok ==> && bc.Valid() && Unlocked(bc.buf) && Unpinned(old(bc.buf), bc.buf, [])
                     && bc.mem == Apply(old(bc.mem), LogCopies(g, Logged(), old(bc.mem)))
      ensures Sufficient(old(bc.buf), false) ==> ok
    {
      ghost var ws := LogCopies(g, Logged(), bc.mem);
      ghost var b0, t0, d0, m0 := bc.buf, bc.trace, bc.disk, bc.mem;
      k := 0;
      var tail := 0;
      while tail < n
        invariant 0 <= tail <= n && k == tail && Copied(ws, k, [], b0, t0, d0, m0)
      {
        ok := WriteLogTurn(tail, ws, b0, t0, d0, m0);
        if !ok {
          return;
        }
        k := k + 1;
        tail := tail + 1;
      }
      assert ws[..n] == ws;
      ok := true;
    }

    method InstallTurn(recovering: bool, tail: nat, ghost ws: seq<Write>, ghost b0: seq<Buf>, ghost t0: seq<Write>,
                       ghost d0: Disk, ghost m0: Disk)
      returns (ok: bool)
      requires n <= |block| && Loggable(Logged(), g, |m0|) && ws == HomeCopies(g, Logged(), m0)
      requires tail < n && Copied(ws, tail, Dropped(recovering, block[..tail]), b0, t0, d0, m0)
      requires recovering || Pinned(b0, block[tail])
      modifies bc
      ensures ok ==> Copied(ws, tail + 1, Dropped(recovering, block[..tail + 1]), b0, t0, d0, m0)
      ensures !ok ==> bc.disk == old(bc.disk) && bc.trace == old(bc.trace)
      ensures Sufficient(b0, recovering) ==> ok
    {
      ghost var b1, t1, d1, m1 := bc.buf, bc.trace, bc.disk, bc.mem;
      ghost var done := block[..tail];
      var slot, home := g.start + tail + 1, block[tail];
      TurnReady(g, Logged(), m0, ws, tail, slot, home, done);
      StillSufficient(b0, b1, recovering, done, home);
      ok := InstallBlock(slot, home, recovering);
      if ok {
        UnpinnedMore(b0, b1, bc.buf, done, home, recovering);
        assert block[..tail + 1] == done + [home];
        ProgressStep(ws, tail, t0, t1, bc.trace, d0, d1, bc.disk, m0, m1, bc.mem);
      }
    }

    /** install_trans: copy every logged block from the log home. */
    method InstallTrans(recovering: bool) returns (ok: bool, ghost k: nat)
      requires Ready() && (recovering || forall i :: 0 <= i < n ==> Pinned(bc.buf, block[i]))
      modifies bc
      ensures k <= n && (ok ==> k == n)
      ensures Sent(HomeCopies(g, Logged(), old(bc.mem)), k, old(bc.trace), bc.trace, old(bc.disk), bc.disk)
      ensures ok ==> && bc.Valid() && Unlocked(bc.buf) && Unpinned(old(bc.buf), bc.buf, Dropped(recovering, Logged()))
                     && bc.mem == Apply(old(bc.mem), HomeCopies(g, Logged(), old(bc.mem)))
      ensures Sufficient(old(bc.buf), recovering) ==> ok
    {
      ghost var ws := HomeCopies(g, Logged(), bc.mem);
      ghost var b0, t0, d0, m0 := bc.buf, bc.trace, bc.disk, bc.mem;
      k := 0;
      var tail := 0;
      while tail < n
        invariant 0 <= tail <= n && k == tail && Copied(ws, k, Dropped(recovering, block[..tail]), b0, t0, d0, m0)
      {
        ok := InstallTurn(recovering, tail, ws, b0, t0, d0, m0);
        if !ok {
          return;
        }
        k := k + 1;
        tail := tail + 1;
      }
      assert ws[..n] == ws;
      ok := true;
    }

    /** read_head's copy loop */
    method TakeHeader(lh: Block)
      requires Word(lh, 0) <= LOGSIZE && |block| == LOGSIZE
      modifies this`n, this`block
      ensures |block| == LOGSIZE && n <= LOGSIZE && Logged() == Header(lh)
    {
      n := Word(lh, 0);
      var i := 0;
      while i < n
        invariant 0 <= i <= n == Word(lh, 0) && |block| == LOGSIZE && block[..i] == FirstEntries(lh, i)
      {
        block := block[i := Word(lh, 1 + i)];
        assert block[..i + 1] == block[..i] + [Word(lh, 1 + i)];
        i := i + 1;
      }
    }

    /** write_head's copy loop */
    method GiveHeader(b: Block) returns (hb: Block)
      requires n <= |block| == LOGSIZE
      ensures hb == HeadBlock(b, Logged())
    {
      hb := SetWord(b, 0, n);
      ghost var named := hb;
      var i := 0;
      while i < n
        invariant 0 <= i <= n && hb == Entries(named, Logged(), i)
      {
        hb := SetWord(hb, 1 + i, block[i]);
        i := i + 1;
      }
    }

    /** read_head */
    method ReadHead() returns (ok: bool)
      requires bc.Valid() && Unlocked(bc.buf) && g.start < |bc.disk| && bc.mem[g.start] == bc.disk[g.start]
      requires Word(bc.mem[g.start], 0) <= LOGSIZE && |block| == LOGSIZE
      modifies this`n, this`block, bc`buf, bc`next, bc`prev, bc`order, bc`stamp, bc`clock
      ensures |block| == LOGSIZE
      ensures ok ==> && bc.Valid() && Unlocked(bc.buf) && Unpinned(old(bc.buf), bc.buf, [])
                     && n <= LOGSIZE && Logged() == Header(bc.mem[g.start])
      ensures old(exists j :: Spare(bc.buf, j)) ==> ok
    {
      var r := bc.Bread(g.start);
      if r == -1 {
        return false;
      }
      ghost var b1 := bc.buf;
      TakeHeader(bc.buf[r].data);
      bc.Brelse(r);
      OneReleased(old(bc.buf), b1, bc.buf, r, g.start);
      return true;
    }

    /** write_head: the on-disk header now lists the current transaction. */
    method WriteHead() returns (ok: bool)
      requires bc.Valid() && Unlocked(bc.buf) && g.start < |bc.disk| && n <= |block| == LOGSIZE
      modifies bc
      ensures !ok ==> bc.disk == old(bc.disk) && bc.trace == old(bc.trace)
      ensures ok ==> var h := HeadBlock(old(bc.mem[g.start]), Logged());
        && bc.Valid() && Unlocked(bc.buf) && Unpinned(old(bc.buf), bc.buf, [])
        && bc.mem == old(bc.mem)[g.start := h] && bc.disk == old(bc.disk)[g.start := h]
        && bc.trace == old(bc.trace) + [Write(g.start, h)]
      ensures old(exists j :: Spare(bc.buf, j)) ==> ok
    {
      var r := bc.Bread(g.start);
      if r == -1 {
        return false;
      }
      ghost var b1 := bc.buf;
      var hb := GiveHeader(bc.buf[r].data);
      StoreAndWrite(r, hb);
      bc.Brelse(r);
      OneReleased(old(bc.buf), b1, bc.buf, r, g.start);
      return true;
    }

    /** commit up to the commit point: write_log, then write_head. */
    method LogAndSeal(ghost ws: seq<Write>) returns (ok: bool, ghost k: nat)
      requires Ready() && Clear(bc.disk, g) && bc.mem[g.start] == bc.disk[g.start] && 0 < n
      requires forall i :: 0 <= i < n ==> Pinned(bc.buf, block[i])
      requires ws == CommitWrites(bc.disk, g, Logged(), bc.mem)
      modifies bc
      ensures Sent(ws, k, old(bc.trace), bc.trace, old(bc.disk), bc.disk) && k <= n + 1
      ensures ok ==> && k == n + 1 && bc.Valid() && Unlocked(bc.buf) && Unpinned(old(bc.buf), bc.buf, [])
                     && bc.mem == Sealed(g, Logged(), old(bc.mem))
      ensures Sufficient(old(bc.buf), false) ==> ok
    {
      ghost var b0, t0, d0, m0 := bc.buf, bc.trace, bc.disk, bc.mem;
      ghost var copies := LogCopies(g, Logged(), m0);
      SealedPieces(d0, g, Logged(), m0, ws);
      ok, k := WriteLog();
      SentMore(ws, 0, copies, k, t0, t0, bc.trace, d0, d0, bc.disk);
      if !ok {
        return;
      }
      ghost var b1 := bc.buf;
      StillSpare(b0, b1);
      ok := Seal(ws, k, t0, d0);
      if ok {
        k := k + 1;
        UnpinnedMore(b0, b1, bc.buf, [], 0, true);
      }
    }

    /** write_head at the commit point: write k of ws. */
    method Seal(ghost ws: seq<Write>, ghost k: nat, ghost t0: seq<Write>, ghost d0: Disk) returns (ok: bool)
      requires bc.Valid() && Unlocked(bc.buf) && g.start < |bc.disk| && n <= |block| == LOGSIZE && k < |ws|
      requires Sent(ws, k, t0, bc.trace, d0, bc.disk) && ws[k] == Write(g.start, HeadBlock(bc.mem[g.start], Logged()))
      modifies bc
      ensures !ok ==> bc.trace == old(bc.trace) && bc.disk == old(bc.disk)
      ensures ok ==> && Sent(ws, k + 1, t0, bc.trace, d0, bc.disk)
                     && bc.Valid() && Unlocked(bc.buf) && Unpinned(old(bc.buf), bc.buf, [])
                     && bc.mem == old(bc.mem)[g.start := HeadBlock(old(bc.mem[g.start]), Logged())]
      ensures old(exists j :: Spare(bc.buf, j)) ==> ok
    {
      ok := WriteHead();
      if ok {
        SentOne(ws, k, t0, old(bc.trace), bc.trace, d0, old(bc.disk), bc.disk);
      }
    }

    /** log.lh.n = 0, then write_head: the last write of ws. */
    method ClearHead(ghost ws: seq<Write>, ghost t0: seq<Write>, ghost d0: Disk) returns (ok: bool)
      requires bc.Valid() && Unlocked(bc.buf) && g.start < |bc.disk| && |block| == LOGSIZE && 0 < |ws|
      requires Sent(ws, |ws| - 1, t0, bc.trace, d0, bc.disk)
      requires ws[|ws| - 1] == Write(g.start, HeadBlock(bc.mem[g.start], []))
      modifies this`n, bc
      ensures n == 0
      ensures !ok ==> bc.trace == old(bc.trace) && bc.disk == old(bc.disk)
      ensures ok ==> && Sent(ws, |ws|, t0, bc.trace, d0, bc.disk)
                     && bc.Valid() && Unlocked(bc.buf) && Unpinned(old(bc.buf), bc.buf, [])
                     && bc.mem == old(bc.mem)[g.start := HeadBlock(old(bc.mem[g.start]), [])]
      ensures old(exists j :: Spare(bc.buf, j)) ==> ok
    {
      n := 0;
      assert Logged() == [];
      ok := Seal(ws, |ws| - 1, t0, d0);
    }

    /** install_trans as a part of ws, from index k0 on. */
    method InstallFrom(recovering: bool, ghost ws: seq<Write>, ghost k0: nat, ghost t0: seq<Write>, ghost d0: Disk)
      returns (ok: bool, ghost k: nat)
      requires Ready() && Sent(ws, k0, t0, bc.trace, d0, bc.disk)
      requires recovering || forall i :: 0 <= i < n ==> Pinned(bc.buf, block[i])
      requires k0 + n <= |ws| && ws[k0..k0 + n] == HomeCopies(g, Logged(), bc.mem)
      modifies bc
      ensures Sent(ws, k, t0, bc.trace, d0, bc.disk)
      ensures ok ==> && k == k0 + n && bc.Valid() && Unlocked(bc.buf)
                     && Unpinned(old(bc.buf), bc.buf, Dropped(recovering, Logged()))
                     && bc.mem == Apply(old(bc.mem), HomeCopies(g, Logged(), old(bc.mem)))
      ensures Sufficient(old(bc.buf), recovering) ==> ok
    {
      ghost var t1, d1, copies := bc.trace, bc.disk, HomeCopies(g, Logged(), bc.mem);
      ok, k := InstallTrans(recovering);
      SentMore(ws, k0, copies, k, t0, t1, bc.trace, d0, d1, bc.disk);
      k := k0 + k;
    }

    /** commit after the commit point, and recovery after read_head: install_trans,
        then the cleared header. ws is installed from index k0 on. */
    method InstallAndClear(recovering: bool, ghost ws: seq<Write>, ghost k0: nat, ghost t0: seq<Write>, ghost d0: Disk)
      returns (ok: bool, ghost k: nat)
      requires Ready() && Sent(ws, k0, t0, bc.trace, d0, bc.disk)
      requires recovering || forall i :: 0 <= i < n ==> Pinned(bc.buf, block[i])
      requires |ws| == k0 + n + 1 && ws[k0..k0 + n] == HomeCopies(g, Logged(), bc.mem)
      requires ws[k0 + n] == Write(g.start, HeadBlock(bc.mem[g.start], []))
      modifies this`n, bc
      ensures Sent(ws, k, t0, bc.trace, d0, bc.disk)
      ensures ok ==> && k == |ws| && n == 0 && bc.Valid() && Unlocked(bc.buf)
                     && Unpinned(old(bc.buf), bc.buf, Dropped(recovering, old(Logged())))
                     && bc.mem == Cleared(g, old(Logged()), old(bc.mem))
      ensures Sufficient(old(bc.buf), recovering) ==> ok
    {
      ghost var b1, bs := bc.buf, Logged();
      HeaderKept(g, bs, bc.mem);
      ok, k := InstallFrom(recovering, ws, k0, t0, d0);
      if ok {
        ghost var b2 := bc.buf;
        SpareLeft(b1, b2, recovering, bs);
        ok := ClearHead(ws, t0, d0);
        if ok {
          k := k + 1;
          UnpinnedSame(b1, b2, bc.buf, Dropped(recovering, bs));
        }
      }
    }

    /** commit: the writes sent are a prefix of CommitWrites, all of it unless a bget
        panic stopped the run; then the home contents are as they were in the cache. */
    method Commit() returns (ok: bool, ghost k: nat)
      requires Ready() && Clear(bc.disk, g) && bc.mem[g.start] == bc.disk[g.start]
      requires forall i :: 0 <= i < n ==> Pinned(bc.buf, block[i])
      modifies this`n, bc
      ensures Sent(CommitWrites(old(bc.disk), g, old(Logged()), old(bc.mem)),
                   k, old(bc.trace), bc.trace, old(bc.disk), bc.disk)
      ensures ok ==> && k == |CommitWrites(old(bc.disk), g, old(Logged()), old(bc.mem))| && n == 0
                     && bc.Valid() && Unlocked(bc.buf) && Unpinned(old(bc.buf), bc.buf, old(Logged()))
                     && SameHome(g, old(bc.mem), bc.mem) && Clear(bc.disk, g)
      ensures Sufficient(old(bc.buf), false) ==> ok
    {
      ghost var b0, t0, d0, m0, bs := bc.buf, bc.trace, bc.disk, bc.mem, Logged();
      ghost var ws := CommitWrites(d0, g, bs, m0);
      if n == 0 {
        k := 0;
        return true, 0;
      }
      ok, k := LogAndSeal(ws);
      if ok {
        ghost var b1 := bc.buf;
        assert Logged() == bs;
        CommitTail(d0, g, bs, m0, ws);
        PinsStay(b0, b1, bs);
        StillSpare(b0, b1);
        ok, k := InstallAndClear(false, ws, n + 1, t0, d0);
        if ok {
          UnpinnedAfter(b0, b1, bc.buf, bs);
          CommitKeepsHome(g, bs, m0);
          CommitLeaves(d0, g, bs, m0, ws, k, t0, bc.trace, bc.disk);
        }
      }
    }

    /** recover_from_log, run at boot when nothing is cached that the disk lacks. */
    method RecoverFromLog() returns (ok: bool, ghost k: nat)
      requires bc.Valid() && Unlocked(bc.buf) && bc.mem == bc.disk && Recoverable(bc.disk, g) && |block| == LOGSIZE
      modifies this`n, this`block, bc
      ensures Sent(RecoverWrites(old(bc.disk), g), k, old(bc.trace), bc.trace, old(bc.disk), bc.disk)
      ensures ok ==>
        && n == 0 && |block| == LOGSIZE && bc.Valid() && Unlocked(bc.buf) && Unpinned(old(bc.buf), bc.buf, [])
        && bc.disk == Recovered(old(bc.disk), g) && Clear(bc.disk, g)
      ensures Sufficient(old(bc.buf), true) ==> ok
    {
      ghost var b0, t0, d0 := bc.buf, bc.trace, bc.disk;
      ghost var ws := RecoverWrites(d0, g);
      k := 0;
      ok := ReadHead();
      if ok {
        RecoverPieces(d0, g, Logged(), ws);
        StillSufficientAll(b0, bc.buf);
        ghost var b1 := bc.buf;
        ok, k := InstallAndClear(true, ws, 0, t0, d0);
        if ok {
          assert ws[..|ws|] == ws;
          RecoveredHeader(d0, g, |ws|);
          UnpinnedSame(b0, b1, bc.buf, []);
        }
      }
    }

    /** log_write's search for the block among those already logged. */
    method FindLogged(bn: nat) returns (i: nat)
      requires n <= |block|
      ensures i <= n && bn !in block[..i] && (i < n ==> block[i] == bn)
      ensures i == n <==> bn !in Logged()
    {
      i := 0;
      while i < n && block[i] != bn
        invariant 0 <= i <= n && bn !in block[..i]
      {
        i := i + 1;
      }
    }

    /** log_write of the held buffer r. ok is false on its panics: the log is full,
        even if the block would be absorbed, or no operation is outstanding. */
    method LogWrite(r: nat) returns (ok: bool)
      requires bc.Valid() && r < NBUF && bc.buf[r].locked && bc.buf[r].dev == ROOTDEV && !g.Has(bc.buf[r].blockno)
      requires |block| == LOGSIZE && n <= LOGSIZE && Loggable(Logged(), g, |bc.disk|)
      modifies this`n, this`block, bc`buf
      ensures ok <==> old(n) < LOGSIZE && old(n) < g.size - 1 && outstanding >= 1
      ensures !ok ==> n == old(n) && block == old(block) && bc.buf == old(bc.buf)
      ensures bc.Valid() && |block| == LOGSIZE && n <= LOGSIZE && Loggable(Logged(), g, |bc.disk|)
      ensures ok ==> var bn := old(bc.buf[r]).blockno;
        if bn in old(Logged()) then Logged() == old(Logged()) && bc.buf == old(bc.buf)
        else (Logged() == old(Logged()) + [bn]
              && bc.buf == old(bc.buf)[r := old(bc.buf[r]).(refcnt := old(bc.buf[r]).refcnt + 1)])
      ensures ok && old(bc.buf[r]).valid ==> Pinned(bc.buf, old(bc.buf[r]).blockno)
    {
      if n >= LOGSIZE || n >= g.size - 1 || outstanding < 1 {
        return false;
      }
      var bn := bc.buf[r].blockno;
      var i := FindLogged(bn);
      block := block[i := bn];
      if i == n {
        bc.Bpin(r);
        n := n + 1;
        assert Logged() == old(Logged()) + [bn] && Logged()[..n - 1] == old(Logged());
      } else {
        assert Logged() == old(Logged()) && bn == old(Logged())[i];
      }
      assert bc.buf[r].Holds(bn) && bc.buf[r].refcnt > 0;
      return true;
    }

    // ---- whole runs

    /** initlog at boot, when no buffer is in use. */
    method Initlog() returns (ok: bool)
      requires bc.Valid() && Refs(bc.buf, [], {}) && bc.mem == bc.disk && Recoverable(bc.disk, g) && |block| == LOGSIZE
      modifies this`n, this`block, bc
      ensures ok && Inv({}) && n == 0 && bc.mem == bc.disk == Recovered(old(bc.disk), g)
    {
      ghost var b0, k := bc.buf, 0;
      assert Spare(b0, 0) && Spare(b0, 1);
      ok, k := RecoverFromLog();
      AllReleased(b0, bc.buf, [], bc.disk, bc.mem);
    }

    /** What an operation does with a block: bread, a change, log_write, brelse. */
    method Update(bn: nat, data: Block) returns (ok: bool)
      requires Steady({}) && n <= |block| && bn < |bc.disk| && !g.Has(bn)
      modifies this`n, this`block, bc
      ensures ok <==> old(n) < LOGSIZE && old(n) < g.size - 1 && outstanding >= 1
      ensures bc.disk == old(bc.disk) && bc.trace == old(bc.trace)
      ensures ok ==> && Steady({}) && bn < |old(bc.mem)| && bc.mem == old(bc.mem)[bn := data] && n <= |block|
                     && Logged() == if bn in old(Logged()) then old(Logged()) else old(Logged()) + [bn]
    {
      ghost var d0, t0, m0 := bc.disk, bc.trace, bc.mem;
      var r := ReadHome(bn);
      assert bc.disk == d0 && bc.trace == t0 && bc.mem == m0;
      if r == -1 {
        return false;
      }
      Change(r, bn, data);
      assert bc.disk == d0 && bc.trace == t0;
      ok := LogChange(r, bn);
      assert bc.disk == d0 && bc.trace == t0 && bc.mem == m0[bn := data];
      if ok {
        Release(r, bn);
        assert bc.disk == d0 && bc.trace == t0 && bc.mem == m0[bn := data];
      }
    }

    /** A change to the contents of a held buffer. */
    method Change(r: nat, ghost bn: nat, data: Block)
      requires Steady({r}) && r < NBUF == |bc.buf| && bc.buf[r].Holds(bn) && bc.buf[r].valid && !g.Has(bn)
      modifies bc`buf, bc`mem
      ensures |bc.buf| == NBUF && Steady({r}) && bc.buf[r].Holds(bn) && bc.buf[r].valid
      ensures bn < |old(bc.mem)| && bc.mem == old(bc.mem)[bn := data]
    {
      assert Open(0);
      ghost var b0 := bc.buf;
      bc.Store(r, data);
      ChangeKeeps(b0, bc.buf, Logged(), r);
    }

    /** log_write of the only held buffer. */
    method LogChange(r: nat, ghost bn: nat) returns (ok: bool)
      requires
        && Steady({r}) && r < NBUF == |bc.buf| && bc.buf[r].Holds(bn) && bc.buf[r].valid && !g.Has(bn) && n <= |block|
      modifies this`n, this`block, bc`buf
      ensures ok <==> old(n) < LOGSIZE && old(n) < g.size - 1 && outstanding >= 1
      ensures ok ==> && |bc.buf| == NBUF && Steady({r}) && bc.buf[r].Holds(bn) && n <= |block|
                     && bn in Logged()
                     && Logged() == if bn in old(Logged()) then old(Logged()) else old(Logged()) + [bn]
    {
      assert Open(0);
      ghost var b0, bs := bc.buf, Logged();
      ok := LogWrite(r);
      if ok {
        LogWriteKeeps(b0, bc.buf, bs, Logged(), r, bn);
      }
    }

    /** bread of a home block: -1 only if every buffer is pinned. */
    method ReadHome(bn: nat) returns (r: int)
      requires Steady({}) && n <= |block| && bn < |bc.disk|
      modifies bc`buf
      ensures r == -1 ==> bc.buf == old(bc.buf) && n >= NBUF
      ensures r != -1 ==> && 0 <= r < NBUF == |bc.buf| && Steady({r}) && bc.buf[r].Holds(bn) && bc.buf[r].valid
                          && bn < |bc.mem| && bc.buf[r].data == bc.mem[bn]
    {
      assert Open(0);
      ghost var b0 := bc.buf;
      if n < NBUF {
        SpareBuffer(b0, Logged());
      }
      r := bc.Bread(bn);
      if r != -1 {
        FetchKeeps(b0, bc.buf, Logged(), r, bn, bc.mem[bn]);
      }
    }

    /** brelse of a buffer whose block is logged. */
    method Release(r: nat, ghost bn: nat)
      requires Steady({r}) && r < NBUF == |bc.buf| && bc.buf[r].Holds(bn) && n <= |block| && bn in Logged()
      modifies bc`buf, bc`next, bc`prev, bc`order, bc`stamp, bc`clock
      ensures Steady({})
    {
      assert Open(0);
      ghost var b0 := bc.buf;
      bc.Brelse(r);
      ReleaseKeeps(b0, bc.buf, Logged(), r, bn);
    }

    /** begin_op for a caller that would not have to sleep; false if it would. */
    method BeginOp() returns (entered: bool)
      modifies this`outstanding
      ensures entered <==> n + (old(outstanding) + 1) * MAXOPBLOCKS <= LOGSIZE
      ensures outstanding == old(outstanding) + if entered then 1 else 0
    {
      entered := n + (outstanding + 1) * MAXOPBLOCKS <= LOGSIZE;
      if entered {
        outstanding := outstanding + 1;
      }
    }

    /** end_op: the last operation commits. */
    method EndOp() returns (ok: bool)
      requires Inv({}) && outstanding >= 1 && n < NBUF
      modifies this`n, this`outstanding, bc
      ensures ok && Inv({}) && outstanding == old(outstanding) - 1 && SameHome(g, old(bc.mem), bc.mem)
      ensures outstanding == 0 ==> n == 0 && bc.mem == bc.disk
      ensures outstanding > 0 ==> n == old(n) && bc.disk == old(bc.disk) && bc.trace == old(bc.trace)
    {
      ghost var b0, bs := bc.buf, Logged();
      ok := true;
      outstanding := outstanding - 1;
      if outstanding == 0 {
        SpareBuffer(b0, bs);
        ghost var k;
        ok, k := Commit();
        AllReleased(b0, bc.buf, bs, bc.disk, bc.mem);
      }
    }

    /** One transaction of one operation. */
    method Transaction(tx: seq<Write>) returns (ok: bool)
      requires
        && Inv({}) && n == 0 && outstanding == 0 && bc.mem == bc.disk && |tx| < g.size && |tx| < NBUF
        && AtHome(tx, g, |bc.disk|)
      modifies this, bc
      ensures ok && Inv({}) && n == 0 && outstanding == 0 && bc.mem == bc.disk
      ensures SameHome(g, Apply(old(bc.disk), tx), bc.disk)
    {
      ghost var d0 := bc.disk;
      var entered := BeginOp();
      var i := 0;
      while i < |tx|
        invariant 0 <= i <= |tx| && Steady({}) && n <= i && n <= |block| && outstanding == 1
        invariant bc.disk == d0 && bc.mem == Apply(d0, tx[..i])
      {
        ok := Update(tx[i].bn, tx[i].data);
        ApplyOneMore(d0, tx, i);
        i := i + 1;
      }
      assert tx[..i] == tx;
      assert Open(0);
      ok := EndOp();
    }

    /** A run from boot: recovery, then transactions, one after the other. All of them go
        through, and at the end the disk is the recovered one with all their writes. */
    method Session(txs: seq<seq<Write>>) returns (ok: bool)
      requires bc.Valid() && Refs(bc.buf, [], {}) && bc.mem == bc.disk && Recoverable(bc.disk, g)
      requires |block| == LOGSIZE && outstanding == 0
      requires forall k :: 0 <= k < |txs| ==> |txs[k]| < g.size && |txs[k]| < NBUF && AtHome(txs[k], g, |bc.disk|)
      modifies this, bc
      ensures
        && ok && Inv({}) && n == 0 && bc.mem == bc.disk
        && SameHome(g, ApplyAll(Recovered(old(bc.disk), g), txs), bc.disk)
    {
      ghost var d0 := Recovered(bc.disk, g);
      ok := Initlog();
      var k := 0;
      while k < |txs|
        invariant
          && 0 <= k <= |txs| && ok && Inv({}) && n == 0 && outstanding == 0 && bc.mem == bc.disk && |bc.disk| == |d0|
        invariant SameHome(g, ApplyAll(d0, txs[..k]), bc.disk)
      {
        ghost var d := bc.disk;
        ok := Transaction(txs[k]);
        AllOneMore(d0, txs, k, g, d, bc.disk);
        k := k + 1;
      }
      assert txs[..k] == txs;
    }
  }

  /** Writes to blocks outside the log. */
  ghost predicate AtHome(ws: seq<Write>, g: Region, size: nat) {
    forall i :: 0 <= i < |ws| ==> ws[i].bn < size && !g.Has(ws[i].bn)
  }

  /** The writes of some transactions, in order. */
  ghost function ApplyAll(d: Disk, txs: seq<seq<Write>>): (r: Disk)
    ensures |r| == |d|
  {
    if txs == [] then d else
      var before, tx := ApplyAll(d, txs[..|txs| - 1]), txs[|txs| - 1];
      if InRange(tx, |d|) then Apply(before, tx) else before
  }

  lemma {:induction false} SameWrites(g: Region, a: Disk, b: Disk, ws: seq<Write>)
    requires SameHome(g, a, b) && InRange(ws, |a|)
    ensures SameHome(g, Apply(a, ws), Apply(b, ws))
  {
    if ws != [] {
      SameWrites(g, a, b, ws[..|ws| - 1]);
    }
  }

  lemma AllOneMore(d0: Disk, txs: seq<seq<Write>>, k: nat, g: Region, d: Disk, d': Disk)
    requires k < |txs| && InRange(txs[k], |d0|) && |d| == |d0| && SameHome(g, ApplyAll(d0, txs[..k]), d)
    requires SameHome(g, Apply(d, txs[k]), d')
    ensures SameHome(g, ApplyAll(d0, txs[..k + 1]), d')
  {
    assert txs[..k + 1][..k] == txs[..k];
    SameWrites(g, ApplyAll(d0, txs[..k]), d, txs[k]);
  }

  /** bread keeps the references of an idle cache in order: a logged block is found where it is
      pinned. */
  lemma FetchKeeps(a: seq<Buf>, b: seq<Buf>, logged: seq<nat>, r: nat, bn: nat, data: Block)
    requires Refs(a, logged, {}) && AllPinned(a, logged) && Unique(b) && Fetched(a, b, r, bn, data) && b == a[r := b[r]]
    ensures Refs(b, logged, {r}) && AllPinned(b, logged)
  {
    forall i | 0 <= i < |logged|
      ensures Pinned(b, logged[i])
    {
      assert Pinned(a, logged[i]);
      var j :| 0 <= j < |a| && a[j].Holds(logged[i]) && a[j].valid && a[j].refcnt > 0;
      assert b[j].Holds(logged[i]) && b[j].valid && b[j].refcnt > 0;
    }
    if !a[r].Holds(bn) && bn in logged {
      var i :| 0 <= i < |logged| && logged[i] == bn;
      assert Pinned(a, logged[i]);
      var j :| 0 <= j < |a| && a[j].Holds(bn);
      assert b[j].blockno == b[r].blockno;
    }
  }

  lemma ChangeKeeps(a: seq<Buf>, b: seq<Buf>, logged: seq<nat>, r: nat)
    requires Refs(a, logged, {r}) && AllPinned(a, logged) && r < |a| == |b| && b == a[r := a[r].(data := b[r].data)]
    ensures Refs(b, logged, {r}) && AllPinned(b, logged)
  {
    forall i | 0 <= i < |logged|
      ensures Pinned(b, logged[i])
    {
      assert Pinned(a, logged[i]);
      var j :| 0 <= j < |a| && a[j].Holds(logged[i]) && a[j].valid && a[j].refcnt > 0;
      assert b[j].Holds(logged[i]) && b[j].valid && b[j].refcnt > 0;
    }
  }

  lemma LogWriteKeeps(a: seq<Buf>, b: seq<Buf>, bs: seq<nat>, bs': seq<nat>, r: nat, bn: nat)
    requires Refs(a, bs, {r}) && AllPinned(a, bs) && Unique(a) && r < |a| && a[r].Holds(bn) && a[r].valid
    requires if bn in bs then bs' == bs && b == a
             else bs' == bs + [bn] && b == a[r := a[r].(refcnt := a[r].refcnt + 1)]
    ensures Refs(b, bs', {r}) && AllPinned(b, bs') && bn in bs'
  {
    if bn !in bs {
      OnePinned(a, b, bs, {r}, r, bn);
    }
  }

  lemma ReleaseKeeps(a: seq<Buf>, b: seq<Buf>, logged: seq<nat>, r: nat, bn: nat)
    requires Refs(a, logged, {r}) && AllPinned(a, logged) && r < |a| && a[r].Holds(bn) && bn in logged
    requires b == a[r := a[r].(locked := false, refcnt := a[r].refcnt - 1)]
    ensures Refs(b, logged, {}) && AllPinned(b, logged)
  {
    forall i | 0 <= i < |logged|
      ensures Pinned(b, logged[i])
    {
      assert Pinned(a, logged[i]);
      var j :| 0 <= j < |a| && a[j].Holds(logged[i]) && a[j].valid && a[j].refcnt > 0;
      assert b[j].Holds(logged[i]) && b[j].valid && b[j].refcnt > 0;
    }
  }

  /** The cached contents after installation. */
  ghost function Cleared(g: Region, bs: seq<nat>, mem: Disk): (r: Disk)
    requires Loggable(bs, g, |mem|)
    ensures |r| == |mem|
  {
    Apply(mem, HomeCopies(g, bs, mem))[g.start := HeadBlock(mem[g.start], [])]
  }

  lemma HeaderKept(g: Region, bs: seq<nat>, mem: Disk)
    requires Loggable(bs, g, |mem|)
    ensures Apply(mem, HomeCopies(g, bs, mem))[g.start] == mem[g.start]
  {
    var ws := HomeCopies(g, bs, mem);
    HomeCopiesMiss(g, bs, mem, ws, |bs|, g.start);
    assert ws[..|bs|] == ws;
  }

  ghost predicate SameIds(a: seq<Buf>, b: seq<Buf>) {
    && |a| == |b|
    && forall j :: 0 <= j < |a| && a[j].refcnt > 0 ==> b[j].dev == a[j].dev && b[j].blockno == a[j].blockno
  }

  lemma DirtyIsCounted(a: seq<Buf>, b: seq<Buf>, i: nat, bn: nat, disk: Disk, mem: Disk)
    requires Coherent(a, disk, mem) && bn < |disk| && i < |a| && Fetched(a, b, i, bn, mem[bn])
    requires Unique(b) && |b| == |a| && SameIds(a, b)
    ensures b[i].refcnt == 1 ==> mem[bn] == disk[bn]
  {
    if mem[bn] != disk[bn] {
      PinnedIsCounted(a, b, i, bn);
    }
  }

  /** A bread of a pinned block finds the pinning buffer. */
  lemma PinnedIsCounted(a: seq<Buf>, b: seq<Buf>, i: nat, bn: nat)
    requires i < |a| == |b| && Pinned(a, bn) && b[i].Holds(bn) && b[i].refcnt == RefsTo(a, i, bn) + 1
    requires Unique(b) && SameIds(a, b)
    ensures b[i].refcnt > 1
  {
    var j :| 0 <= j < |a| && a[j].Holds(bn) && a[j].valid && a[j].refcnt > 0;
    assert j == i;
  }

  /** The references after one bread and one brelse. */
  lemma OneReleased(a: seq<Buf>, b: seq<Buf>, c: seq<Buf>, r: nat, bn: nat)
    requires |a| == |b| == |c| && r < |a| && Unlocked(a) && Fetched(a, b, r, bn, b[r].data)
    requires SameBut(a, b, r, r) && SameBut(b, c, r, r)
    requires c[r] == b[r].(locked := false, refcnt := b[r].refcnt - 1, data := c[r].data)
    ensures Unlocked(c) && Unpinned(a, c, [])
  {
  }

  /** The references after two breads, at most one unpin, and two breleses. */
  lemma PairReleased(a: seq<Buf>, b: seq<Buf>, c: seq<Buf>, l: nat, slot: nat, d: nat, home: nat, drop: nat)
    requires |a| == |b| == |c| && l < |a| && d < |a| && l != d && Unlocked(a) && drop <= 1
    requires Fetched(a, b, l, slot, b[l].data) && Fetched(a, b, d, home, b[d].data) && slot != home
    requires SameBut(a, b, l, d) && SameBut(b, c, l, d)
    requires c[l] == b[l].(locked := false, refcnt := b[l].refcnt - 1, data := c[l].data)
    requires b[d].refcnt > drop && c[d] == b[d].(locked := false, refcnt := b[d].refcnt - 1 - drop, data := c[d].data)
    requires Unique(a)
    ensures Unlocked(c) && Unpinned(a, c, Dropped(drop == 0, [home]))
  {
  }

  /** Each buffer of a block in bs lost one reference; the others lost none. */
  ghost predicate Unpinned(a: seq<Buf>, b: seq<Buf>, bs: seq<nat>) {
    && |a| == |b|
    && forall j :: 0 <= j < |a| ==>
         && b[j].refcnt == a[j].refcnt - (if a[j].refcnt > 0 && a[j].dev == ROOTDEV && a[j].blockno in bs then 1 else 0)
         && (b[j].refcnt > 0 ==> b[j].dev == a[j].dev && b[j].blockno == a[j].blockno && (a[j].valid ==> b[j].valid))
  }

  /** write_log's block writes. */
  ghost function LogCopies(g: Region, bs: seq<nat>, mem: Disk): (ws: seq<Write>)
    requires Loggable(bs, g, |mem|)
    ensures InRange(ws, |mem|)
  {
    seq(|bs|, i requires 0 <= i < |bs| => Write(g.start + 1 + i, mem[bs[i]]))
  }

  /** install_trans's block writes. */
  ghost function HomeCopies(g: Region, bs: seq<nat>, mem: Disk): (ws: seq<Write>)
    requires Loggable(bs, g, |mem|)
    ensures InRange(ws, |mem|)
  {
    seq(|bs|, i requires 0 <= i < |bs| => Write(bs[i], mem[g.start + 1 + i]))
  }

  /** The k-th copy reads a block that the copies before it left alone. */
  lemma LogCopyAt(g: Region, bs: seq<nat>, mem: Disk, ws: seq<Write>, k: nat)
    requires Loggable(bs, g, |mem|) && k < |bs| && ws == LogCopies(g, bs, mem)
    ensures bs[k] < |mem| && g.start + k + 1 != bs[k]
    ensures ws[k] == Write(g.start + k + 1, mem[bs[k]])
    ensures InRange(ws[..k], |mem|) && Apply(mem, ws[..k])[bs[k]] == mem[bs[k]]
  {
    NoWrite(mem, ws[..k], bs[k]);
  }

  lemma FreshAt(bs: seq<nat>, k: nat)
    requires Distinct(bs) && k < |bs|
    ensures bs[k] !in bs[..k]
  {
    DistinctAt(bs, k);
  }

  lemma HomeCopyAt(g: Region, bs: seq<nat>, mem: Disk, ws: seq<Write>, k: nat, slot: nat)
    requires Loggable(bs, g, |mem|) && k < |bs| && ws == HomeCopies(g, bs, mem) && slot == g.start + k + 1
    ensures slot < |mem| && ws[k] == Write(bs[k], mem[slot])
  {
  }

  lemma HomeCopiesMiss(g: Region, bs: seq<nat>, mem: Disk, ws: seq<Write>, k: nat, slot: nat)
    requires Loggable(bs, g, |mem|) && k <= |bs| && ws == HomeCopies(g, bs, mem) && g.Has(slot)
    ensures InRange(ws[..k], |mem|) && Apply(mem, ws[..k])[slot] == mem[slot]
  {
    NoWrite(mem, ws[..k], slot);
  }

  lemma TurnReady(g: Region, bs: seq<nat>, mem: Disk, ws: seq<Write>, k: nat, slot: nat, home: nat, done: seq<nat>)
    requires Loggable(bs, g, |mem|) && k < |bs| && ws == HomeCopies(g, bs, mem)
    requires slot == g.start + k + 1 && home == bs[k] && done == bs[..k]
    ensures home < |mem| && slot < |mem| && slot != home && home !in done
    ensures ws[k] == Write(home, mem[slot]) && InRange(ws[..k], |mem|) && Apply(mem, ws[..k])[slot] == mem[slot]
  {
    assert g.Has(slot);
    assert home !in done by {
      FreshAt(bs, k);
    }
    assert ws[k] == Write(home, mem[slot]) by {
      HomeCopyAt(g, bs, mem, ws, k, slot);
    }
    HomeCopiesMiss(g, bs, mem, ws, k, slot);
  }

  /** The blocks whose pins install_trans gives up. */
  ghost function Dropped(recovering: bool, bs: seq<nat>): seq<nat> {
    if recovering then [] else bs
  }

  /** install_trans cannot run out of buffers. */
  ghost predicate Sufficient(buf: seq<Buf>, recovering: bool) {
    if recovering then exists i, j :: i != j && Spare(buf, i) && Spare(buf, j) else exists j :: Spare(buf, j)
  }

  lemma StillSufficient(a: seq<Buf>, b: seq<Buf>, recovering: bool, bs: seq<nat>, bn: nat)
    requires Unpinned(a, b, Dropped(recovering, bs)) && (recovering || (Pinned(a, bn) && bn !in bs))
    ensures recovering || Pinned(b, bn)
    ensures Sufficient(a, recovering) ==> Enough(b, bn)
  {
    if !recovering {
      var j :| 0 <= j < |a| && a[j].Holds(bn) && a[j].valid && a[j].refcnt > 0;
      assert b[j].Holds(bn);
    }
    assert forall j :: Spare(a, j) ==> Spare(b, j);
  }

  lemma UnpinnedMore(a: seq<Buf>, b: seq<Buf>, c: seq<Buf>, bs: seq<nat>, bn: nat, recovering: bool)
    requires Unpinned(a, b, Dropped(recovering, bs)) && Unpinned(b, c, Dropped(recovering, [bn])) && bn !in bs
    ensures Unpinned(a, c, Dropped(recovering, bs + [bn]))
  {
  }

  /** The first k writes of ws have reached the trace, the disk and the cache. */
  ghost predicate Progress(ws: seq<Write>, k: nat, t0: seq<Write>, t1: seq<Write>, d0: Disk, d1: Disk, m0: Disk,
                           m1: Disk) {
    && k <= |ws| && |d0| == |m0| && InRange(ws, |d0|)
    && t1 == t0 + ws[..k] && d1 == Apply(d0, ws[..k]) && m1 == Apply(m0, ws[..k])
  }

  lemma ProgressStep(ws: seq<Write>, k: nat, t0: seq<Write>, t1: seq<Write>, t2: seq<Write>,
                     d0: Disk, d1: Disk, d2: Disk, m0: Disk, m1: Disk, m2: Disk)
    requires Progress(ws, k, t0, t1, d0, d1, m0, m1) && k < |ws|
    requires t2 == t1 + [ws[k]] && d2 == d1[ws[k].bn := ws[k].data] && m2 == m1[ws[k].bn := ws[k].data]
    ensures Progress(ws, k + 1, t0, t2, d0, d2, m0, m2)
  {
    assert ws[..k + 1] == ws[..k] + [ws[k]] && ws[..k + 1][..k] == ws[..k];
  }

  /** The first k writes of ws were sent. */
  ghost predicate Sent(ws: seq<Write>, k: nat, t0: seq<Write>, t1: seq<Write>, d0: Disk, d1: Disk) {
    k <= |ws| && InRange(ws, |d0|) && t1 == t0 + ws[..k] && d1 == Apply(d0, ws[..k])
  }

  /** A part of ws, sent from index k on. */
  lemma SentMore(ws: seq<Write>, k: nat, piece: seq<Write>, j: nat, t0: seq<Write>, t1: seq<Write>, t2: seq<Write>,
                 d0: Disk, d1: Disk, d2: Disk)
    requires Sent(ws, k, t0, t1, d0, d1) && k + |piece| <= |ws| && piece == ws[k..k + |piece|]
    requires Sent(piece, j, t1, t2, d1, d2)
    ensures Sent(ws, k + j, t0, t2, d0, d2)
  {
    assert ws[..k + j] == ws[..k] + piece[..j];
    assert t2 == t0 + (ws[..k] + piece[..j]);
    ApplyConcat(d0, ws[..k], piece[..j]);
  }

  lemma SentOne(ws: seq<Write>, k: nat, t0: seq<Write>, t1: seq<Write>, t2: seq<Write>, d0: Disk, d1: Disk, d2: Disk)
    requires Sent(ws, k, t0, t1, d0, d1) && k < |ws| && ws[k].bn < |d1|
    requires t2 == t1 + [ws[k]] && d2 == d1[ws[k].bn := ws[k].data]
    ensures Sent(ws, k + 1, t0, t2, d0, d2)
  {
    assert ws[..k + 1][..k] == ws[..k];
  }

  /** The cached contents at the commit point. */
  ghost function Sealed(g: Region, bs: seq<nat>, mem: Disk): (r: Disk)
    requires Loggable(bs, g, |mem|)
    ensures |r| == |mem|
  {
    Apply(mem, LogCopies(g, bs, mem))[g.start := HeadBlock(mem[g.start], bs)]
  }

  lemma SealedPieces(d: Disk, g: Region, bs: seq<nat>, mem: Disk, ws: seq<Write>)
    requires Clear(d, g) && Loggable(bs, g, |d|) && |mem| == |d| && 0 < |bs|
    requires ws == CommitWrites(d, g, bs, mem) && mem[g.start] == d[g.start]
    ensures LogCopies(g, bs, mem) == ws[..|bs|]
    ensures Apply(mem, LogCopies(g, bs, mem))[g.start] == mem[g.start]
    ensures ws[|bs|] == Write(g.start, HeadBlock(mem[g.start], bs))
  {
    NoWrite(mem, LogCopies(g, bs, mem), g.start);
  }

  lemma StillSpare(a: seq<Buf>, b: seq<Buf>)
    requires Unpinned(a, b, [])
    ensures Sufficient(a, false) ==> Sufficient(b, false)
  {
    if Sufficient(a, false) {
      var j: nat :| Spare(a, j);
      assert Spare(b, j);
    }
  }

  lemma SpareLeft(a: seq<Buf>, b: seq<Buf>, recovering: bool, bs: seq<nat>)
    requires Unpinned(a, b, Dropped(recovering, bs))
    ensures Sufficient(a, recovering) ==> exists j :: Spare(b, j)
  {
    if Sufficient(a, recovering) {
      var j: nat :| Spare(a, j);
      assert Spare(b, j);
    }
  }

  lemma UnpinnedSame(a: seq<Buf>, b: seq<Buf>, c: seq<Buf>, bs: seq<nat>)
    requires Unpinned(a, b, bs) && Unpinned(b, c, [])
    ensures Unpinned(a, c, bs)
  {
  }

  /** The two caches show the same contents outside the log region. */
  ghost predicate SameHome(g: Region, a: Disk, b: Disk) {
    |a| == |b| && forall bn :: 0 <= bn < |a| && !g.Has(bn) ==> b[bn] == a[bn]
  }

  lemma CommitTail(d: Disk, g: Region, bs: seq<nat>, mem: Disk, ws: seq<Write>)
    requires Clear(d, g) && Loggable(bs, g, |d|) && |mem| == |d| && 0 < |bs|
    requires ws == CommitWrites(d, g, bs, mem) && mem[g.start] == d[g.start]
    ensures var m := Sealed(g, bs, mem);
      && ws[|bs| + 1..2 * |bs| + 1] == HomeCopies(g, bs, m)
      && ws[2 * |bs| + 1] == Write(g.start, HeadBlock(m[g.start], []))
  {
    var m := Sealed(g, bs, mem);
    var n := |bs|;
    forall i | 0 <= i < n
      ensures ws[n + 1 + i] == HomeCopies(g, bs, m)[i]
    {
      SealedSlot(g, bs, mem, i);
    }
  }

  lemma SealedSlot(g: Region, bs: seq<nat>, mem: Disk, i: nat)
    requires Loggable(bs, g, |mem|) && i < |bs|
    ensures Sealed(g, bs, mem)[g.start + 1 + i] == mem[bs[i]]
  {
    LastWrite(mem, LogCopies(g, bs, mem), g.start + 1 + i, i);
  }

  lemma CommitKeepsHome(g: Region, bs: seq<nat>, mem: Disk)
    requires Loggable(bs, g, |mem|)
    ensures SameHome(g, mem, Cleared(g, bs, Sealed(g, bs, mem)))
  {
    var m := Sealed(g, bs, mem);
    var r := Cleared(g, bs, m);
    forall bn | 0 <= bn < |mem| && !g.Has(bn)
      ensures r[bn] == mem[bn]
    {
      NoWrite(mem, LogCopies(g, bs, mem), bn);
      assert m[bn] == mem[bn] by { assert g.Has(g.start); }
      if bn in bs {
        var i :| 0 <= i < |bs| && bs[i] == bn;
        SealedSlot(g, bs, mem, i);
        HomeCopyLands(g, bs, m, i, g.start + 1 + i);
      } else {
        NoWrite(m, HomeCopies(g, bs, m), bn);
      }
    }
  }

  lemma HomeCopyLands(g: Region, bs: seq<nat>, mem: Disk, i: nat, slot: nat)
    requires Loggable(bs, g, |mem|) && i < |bs| && slot == g.start + 1 + i
    ensures Apply(mem, HomeCopies(g, bs, mem))[bs[i]] == mem[slot]
  {
    var ws := HomeCopies(g, bs, mem);
    HomeCopyAt(g, bs, mem, ws, i, slot);
    LaterElsewhere(g, bs, mem, ws, i);
    LastWrite(mem, ws, bs[i], i);
  }

  lemma LaterElsewhere(g: Region, bs: seq<nat>, mem: Disk, ws: seq<Write>, i: nat)
    requires Loggable(bs, g, |mem|) && i < |bs| && ws == HomeCopies(g, bs, mem)
    ensures forall j :: i < j < |ws| ==> ws[j].bn != bs[i]
  {
    DistinctAt(bs, i);
  }

  lemma RecoverPieces(d: Disk, g: Region, bs: seq<nat>, ws: seq<Write>)
    requires Recoverable(d, g) && bs == Header(d[g.start]) && ws == RecoverWrites(d, g)
    ensures ws[0..|bs|] == HomeCopies(g, bs, d) && ws[|bs|] == Write(g.start, HeadBlock(d[g.start], []))
  {
  }

  lemma PinsStay(a: seq<Buf>, b: seq<Buf>, bs: seq<nat>)
    requires Unpinned(a, b, []) && forall i :: 0 <= i < |bs| ==> Pinned(a, bs[i])
    ensures forall i :: 0 <= i < |bs| ==> Pinned(b, bs[i])
  {
    forall i | 0 <= i < |bs|
      ensures Pinned(b, bs[i])
    {
      StillSufficient(a, b, false, [], bs[i]);
    }
  }

  lemma UnpinnedAfter(a: seq<Buf>, b: seq<Buf>, c: seq<Buf>, bs: seq<nat>)
    requires Unpinned(a, b, []) && Unpinned(b, c, bs)
    ensures Unpinned(a, c, bs)
  {
  }

  lemma StillSufficientAll(a: seq<Buf>, b: seq<Buf>)
    requires Unpinned(a, b, [])
    ensures Sufficient(a, true) ==> Sufficient(b, true)
  {
    if Sufficient(a, true) {
      var i: nat, j: nat :| i != j && Spare(a, i) && Spare(a, j);
      assert Spare(b, i) && Spare(b, j);
    }
  }
}
