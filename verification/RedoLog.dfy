/** The on-disk redo log of kernel/log.c as a sequence of block writes, and what
    recovery makes of a disk on which any number of those writes happened. */
module RedoLog {
  import opened Blocks
  import opened Common

  const LOGSIZE := 3 * MAXOPBLOCKS

  /** The log region: a header block at start, then size - 1 data blocks. */
  datatype Region = Region(start: nat, size: nat) {
    predicate Has(bn: nat) { start <= bn < start + size }
  }

  /** A block number list that the header can hold and that a transaction may use:
      distinct blocks, none of them in the log region. */
  ghost predicate Loggable(bs: seq<nat>, g: Region, disk: nat) {
    && |bs| <= LOGSIZE && |bs| < g.size && g.start + g.size <= disk <= 0x1_0000_0000
    && (forall i :: 0 <= i < |bs| ==> bs[i] < disk && !g.Has(bs[i]))
    && Distinct(bs)
  }

  /** write_head's view of the header block b: n, then block[0..n); the words
      behind them stay as they were. */
  function HeadBlock(b: Block, bs: seq<nat>): (r: Block)
    requires |bs| <= LOGSIZE
  {
    Entries(SetWord(b, 0, |bs|), bs, |bs|)
  }

  function Entries(b: Block, bs: seq<nat>, k: nat): (r: Block)
    requires k <= |bs| <= LOGSIZE
  {
    if k == 0 then b else SetWord(Entries(b, bs, k - 1), k, bs[k - 1])
  }

  /** read_head: the block numbers that the header lists. */
  function Header(b: Block): (bs: seq<nat>)
    requires Word(b, 0) <= LOGSIZE
    ensures |bs| == Word(b, 0)
  {
    FirstEntries(b, Word(b, 0))
  }

  function FirstEntries(b: Block, k: nat): (bs: seq<nat>)
    requires k <= LOGSIZE
    ensures |bs| == k
  {
    if k == 0 then [] else FirstEntries(b, k - 1) + [Word(b, k)]
  }

  lemma {:induction false} EntriesAt(b: Block, bs: seq<nat>, k: nat, j: nat)
    requires k <= |bs| <= LOGSIZE && j < WORDS
    requires forall i :: 0 <= i < |bs| ==> bs[i] < 0x1_0000_0000
    ensures Word(Entries(b, bs, k), j) == if 1 <= j <= k then bs[j - 1] else Word(b, j)
  {
    if k > 0 {
      EntriesAt(b, bs, k - 1, j);
      WordOfSetWord(Entries(b, bs, k - 1), k, bs[k - 1], j);
    }
  }

  lemma {:induction false} EntriesReadBack(b: Block, bs: seq<nat>, k: nat)
    requires k <= |bs| <= LOGSIZE
    requires forall i :: 0 <= i < |bs| ==> Word(b, 1 + i) == bs[i]
    ensures FirstEntries(b, k) == bs[..k]
  {
    if k > 0 {
      EntriesReadBack(b, bs, k - 1);
    }
  }

  /** What write_head stores, read_head reads back. */
  lemma HeaderRoundTrip(b: Block, bs: seq<nat>)
    requires |bs| <= LOGSIZE
    requires forall i :: 0 <= i < |bs| ==> bs[i] < 0x1_0000_0000
    ensures Word(HeadBlock(b, bs), 0) == |bs| && Header(HeadBlock(b, bs)) == bs
  {
    var n := SetWord(b, 0, |bs|);
    EntriesAt(n, bs, |bs|, 0);
    WordOfSetWord(b, 0, |bs|, 0);
    forall i | 0 <= i < |bs|
      ensures Word(HeadBlock(b, bs), 1 + i) == bs[i]
    {
      EntriesAt(n, bs, |bs|, 1 + i);
    }
    EntriesReadBack(HeadBlock(b, bs), bs, |bs|);
  }

  /** The last write to bn decides its contents. */
  lemma {:induction false} LastWrite(d: Disk, ws: seq<Write>, bn: nat, j: nat)
    requires InRange(ws, |d|) && bn < |d| && j < |ws| && ws[j].bn == bn
    requires forall i :: j < i < |ws| ==> ws[i].bn != bn
    ensures Apply(d, ws)[bn] == ws[j].data
  {
    if j < |ws| - 1 {
      LastWrite(d, ws[..|ws| - 1], bn, j);
    }
  }

  lemma {:induction false} NoWrite(d: Disk, ws: seq<Write>, bn: nat)
    requires InRange(ws, |d|) && bn < |d|
    requires forall i :: 0 <= i < |ws| ==> ws[i].bn != bn
    ensures Apply(d, ws)[bn] == d[bn]
  {
    if ws != [] {
      NoWrite(d, ws[..|ws| - 1], bn);
    }
  }

  /** The header on disk is one that a commit or a recovery may have left. */
  ghost predicate Recoverable(d: Disk, g: Region) {
    && 0 < g.size && g.start + g.size <= |d| <= 0x1_0000_0000
    && Word(d[g.start], 0) <= LOGSIZE
    && Loggable(Header(d[g.start]), g, |d|)
  }

  /** recover_from_log: copy every logged block home, then clear the header. */
  ghost function RecoverWrites(d: Disk, g: Region): (ws: seq<Write>)
    requires Recoverable(d, g)
    ensures InRange(ws, |d|)
  {
    var bs := Header(d[g.start]);
    seq(|bs| + 1, j requires 0 <= j <= |bs| =>
      if j < |bs| then Write(bs[j], d[g.start + 1 + j]) else Write(g.start, HeadBlock(d[g.start], [])))
  }

  ghost function Recovered(d: Disk, g: Region): (r: Disk)
    requires Recoverable(d, g)
    ensures |r| == |d|
  {
    Apply(d, RecoverWrites(d, g))
  }

  /** The disk after the first k writes of a recovery: the i-th logged block. */
  lemma RecoveredLogged(d: Disk, g: Region, k: nat, i: nat)
    requires Recoverable(d, g) && k <= |RecoverWrites(d, g)| && i < |Header(d[g.start])|
    ensures var bn := Header(d[g.start])[i];
      Apply(d, RecoverWrites(d, g)[..k])[bn] == if i < k then d[g.start + 1 + i] else d[bn]
  {
    var bs := Header(d[g.start]);
    var ws := RecoverWrites(d, g)[..k];
    DistinctAt(bs, i);
    assert forall j :: 0 <= j < |ws| && j != i ==> ws[j].bn != bs[i];
    if i < k {
      LastWrite(d, ws, bs[i], i);
    } else {
      NoWrite(d, ws, bs[i]);
    }
  }

  /** ... the header block ... */
  lemma RecoveredHeader(d: Disk, g: Region, k: nat)
    requires Recoverable(d, g) && k <= |RecoverWrites(d, g)|
    ensures var d' := Apply(d, RecoverWrites(d, g)[..k]);
      var bs := Header(d[g.start]);
      && d'[g.start] == (if k <= |bs| then d[g.start] else HeadBlock(d[g.start], []))
      && Recoverable(d', g)
      && Header(d'[g.start]) == if k <= |bs| then bs else []
  {
    var bs := Header(d[g.start]);
    var ws := RecoverWrites(d, g)[..k];
    HeaderRoundTrip(d[g.start], []);
    if k <= |bs| {
      NoWrite(d, ws, g.start);
    } else {
      LastWrite(d, ws, g.start, |bs|);
    }
  }

  /** ... and every other block. */
  lemma RecoveredOther(d: Disk, g: Region, k: nat, bn: nat)
    requires Recoverable(d, g) && k <= |RecoverWrites(d, g)| && bn < |d|
    requires bn != g.start && bn !in Header(d[g.start])
    ensures Apply(d, RecoverWrites(d, g)[..k])[bn] == d[bn]
  {
    NoWrite(d, RecoverWrites(d, g)[..k], bn);
  }

  /** Recovery block by block. */
  lemma RecoveredAt(d: Disk, g: Region, bn: nat)
    requires Recoverable(d, g) && bn < |d|
    ensures var bs := Header(d[g.start]);
      && (bn == g.start ==> Recovered(d, g)[bn] == HeadBlock(d[bn], []))
      && (bn != g.start && bn !in bs ==> Recovered(d, g)[bn] == d[bn])
      && (forall i :: 0 <= i < |bs| && bs[i] == bn ==> Recovered(d, g)[bn] == d[g.start + 1 + i])
  {
    var bs := Header(d[g.start]);
    var ws := RecoverWrites(d, g);
    assert ws[..|ws|] == ws;
    if bn == g.start {
      RecoveredHeader(d, g, |ws|);
    } else if bn in bs {
      forall i | 0 <= i < |bs| && bs[i] == bn
        ensures Recovered(d, g)[bn] == d[g.start + 1 + i]
      {
        RecoveredLogged(d, g, |ws|, i);
      }
    } else {
      RecoveredOther(d, g, |ws|, bn);
    }
  }

  lemma ClearedTwice(b: Block)
    ensures HeadBlock(HeadBlock(b, []), []) == HeadBlock(b, [])
  {
    SetWordTwice(b, 0, 0);
  }

  lemma LoggedGoesHome(d: Disk, g: Region, bs: seq<nat>, i: nat)
    requires Recoverable(d, g) && bs == Header(d[g.start]) && i < |bs|
    ensures bs[i] < |d| && Recovered(d, g)[bs[i]] == d[g.start + 1 + i]
  {
    var ws := RecoverWrites(d, g);
    assert ws[..|ws|] == ws;
    RecoveredLogged(d, g, |ws|, i);
  }

  lemma RestartsLogged(d: Disk, d': Disk, g: Region, k: nat, i: nat)
    requires Recoverable(d, g) && k <= |RecoverWrites(d, g)| && i < |Header(d[g.start])|
    requires d' == Apply(d, RecoverWrites(d, g)[..k]) && Recoverable(d', g)
    ensures Recovered(d', g)[Header(d[g.start])[i]] == d[g.start + 1 + i]
  {
    var bs := Header(d[g.start]);
    RecoveredHeader(d, g, k);
    if k > |bs| {
      assert bs[i] != g.start by { assert g.Has(g.start); }
      RecoveredLogged(d, g, k, i);
      RecoveredAt(d', g, bs[i]);
    } else {
      SlotStays(d, g, k, g.start + 1 + i);
      LoggedGoesHome(d', g, bs, i);
    }
  }

  lemma SlotStays(d: Disk, g: Region, k: nat, slot: nat)
    requires Recoverable(d, g) && k <= |RecoverWrites(d, g)| && g.Has(slot) && slot != g.start
    ensures Apply(d, RecoverWrites(d, g)[..k])[slot] == d[slot]
  {
    RecoveredOther(d, g, k, slot);
  }

  lemma RestartsAt(d: Disk, d': Disk, g: Region, k: nat, bn: nat)
    requires Recoverable(d, g) && k <= |RecoverWrites(d, g)| && bn < |d|
    requires d' == Apply(d, RecoverWrites(d, g)[..k]) && Recoverable(d', g)
    ensures Recovered(d', g)[bn] == Recovered(d, g)[bn]
  {
    var bs := Header(d[g.start]);
    RecoveredAt(d, g, bn);
    if bn in bs {
      var i :| 0 <= i < |bs| && bs[i] == bn;
      RestartsLogged(d, d', g, k, i);
    } else {
      RecoveredHeader(d, g, k);
      RecoveredAt(d', g, bn);
      ClearedTwice(d[g.start]);
      if bn != g.start {
        RecoveredOther(d, g, k, bn);
      }
    }
  }

  /** A recovery cut short after any number of writes changes nothing: recovering
      again gives the disk that the first recovery would have given. */
  lemma RecoveryRestarts(d: Disk, g: Region, k: nat)
    requires Recoverable(d, g) && k <= |RecoverWrites(d, g)|
    ensures var d' := Apply(d, RecoverWrites(d, g)[..k]);
      Recoverable(d', g) && Recovered(d', g) == Recovered(d, g)
  {
    var d' := Apply(d, RecoverWrites(d, g)[..k]);
    RecoveredHeader(d, g, k);
    forall bn | 0 <= bn < |d|
      ensures Recovered(d', g)[bn] == Recovered(d, g)[bn]
    {
      RestartsAt(d, d', g, k, bn);
    }
  }

  /** The disk after recoveries cut short at cuts[0], cuts[1], ... */
  ghost function CutShort(d: Disk, g: Region, cuts: seq<nat>): (r: Disk)
    requires Recoverable(d, g)
    ensures |r| == |d| && Recoverable(r, g)
  {
    if cuts == [] then d else
      var before := CutShort(d, g, cuts[..|cuts| - 1]);
      var k := cuts[|cuts| - 1];
      if k <= |RecoverWrites(before, g)| then
        RecoveryRestarts(before, g, k);
        Apply(before, RecoverWrites(before, g)[..k])
      else before
  }

  /** However many times recovery itself is cut short, and wherever, a completed
      recovery gives the same disk. */
  lemma {:induction false} RecoveryConverges(d: Disk, g: Region, cuts: seq<nat>)
    requires Recoverable(d, g)
    ensures Recovered(CutShort(d, g, cuts), g) == Recovered(d, g)
  {
    if cuts != [] {
      RecoveryConverges(d, g, cuts[..|cuts| - 1]);
      var before := CutShort(d, g, cuts[..|cuts| - 1]);
      var k := cuts[|cuts| - 1];
      if k <= |RecoverWrites(before, g)| {
        RecoveryRestarts(before, g, k);
      }
    }
  }

  /** The header is clear: no committed transaction waits for installation. */
  ghost predicate Clear(d: Disk, g: Region) {
    && 0 < g.size && g.start + g.size <= |d| <= 0x1_0000_0000
    && Word(d[g.start], 0) == 0
  }

  /** commit of the blocks bs with contents mem: the log copies, the header (the
      commit point), the home copies, the cleared header. */
  ghost function CommitWrites(d: Disk, g: Region, bs: seq<nat>, mem: Disk): (ws: seq<Write>)
    requires Clear(d, g) && Loggable(bs, g, |d|) && |mem| == |d|
    ensures InRange(ws, |d|)
  {
    var n := |bs|;
    var head := HeadBlock(d[g.start], bs);
    if n == 0 then [] else
      seq(2 * n + 2, j requires 0 <= j < 2 * n + 2 =>
        if j < n then Write(g.start + 1 + j, mem[bs[j]])
        else if j == n then Write(g.start, head)
        else if j <= 2 * n then Write(bs[j - n - 1], mem[bs[j - n - 1]])
        else Write(g.start, HeadBlock(head, [])))
  }

  /** The disk after the first k writes of a commit. */
  ghost function PartlyCommitted(d: Disk, g: Region, bs: seq<nat>, mem: Disk, k: nat): (r: Disk)
    requires Clear(d, g) && Loggable(bs, g, |d|) && |mem| == |d|
    requires k <= |CommitWrites(d, g, bs, mem)|
    ensures |r| == |d|
  {
    Apply(d, CommitWrites(d, g, bs, mem)[..k])
  }

  lemma PartlyCommittedMore(d: Disk, g: Region, bs: seq<nat>, mem: Disk, k: nat, w: Write)
    requires Clear(d, g) && Loggable(bs, g, |d|) && |mem| == |d|
    requires k < |CommitWrites(d, g, bs, mem)| && w == CommitWrites(d, g, bs, mem)[k]
    ensures w.bn < |d| && PartlyCommitted(d, g, bs, mem, k + 1) == PartlyCommitted(d, g, bs, mem, k)[w.bn := w.data]
  {
    ApplyOneMore(d, CommitWrites(d, g, bs, mem), k);
  }

  lemma PartlyCommittedHeader(d: Disk, g: Region, bs: seq<nat>, mem: Disk, k: nat)
    requires Clear(d, g) && Loggable(bs, g, |d|) && |mem| == |d|
    requires k <= |CommitWrites(d, g, bs, mem)|
    ensures var d' := PartlyCommitted(d, g, bs, mem, k);
      Recoverable(d', g) && Header(d'[g.start]) == if |bs| < k <= 2 * |bs| + 1 then bs else []
  {
    var ws := CommitWrites(d, g, bs, mem)[..k];
    var d' := Apply(d, ws);
    var n := |bs|;
    var head := HeadBlock(d[g.start], bs);
    HeaderRoundTrip(d[g.start], bs);
    HeaderRoundTrip(head, []);
    if k <= n {
      NoWrite(d, ws, g.start);
    } else if k <= 2 * n + 1 {
      LastWrite(d, ws, g.start, n);
    } else {
      LastWrite(d, ws, g.start, 2 * n + 1);
    }
  }

  lemma PartlyCommittedHome(d: Disk, g: Region, bs: seq<nat>, mem: Disk, k: nat, bn: nat)
    requires Clear(d, g) && Loggable(bs, g, |d|) && |mem| == |d|
    requires k <= |CommitWrites(d, g, bs, mem)| && bn < |d| && !g.Has(bn)
    ensures var d' := PartlyCommitted(d, g, bs, mem, k);
      && (bn !in bs ==> d'[bn] == d[bn])
      && (forall i :: 0 <= i < |bs| && bs[i] == bn ==> d'[bn] == if k <= |bs| + 1 + i then d[bn] else mem[bn])
  {
    var ws := CommitWrites(d, g, bs, mem)[..k];
    var n := |bs|;
    if bn in bs {
      forall i | 0 <= i < n && bs[i] == bn
        ensures Apply(d, ws)[bn] == if k <= n + 1 + i then d[bn] else mem[bn]
      {
        DistinctAt(bs, i);
        if k <= n + 1 + i {
          NoWrite(d, ws, bn);
        } else {
          LastWrite(d, ws, bn, n + 1 + i);
        }
      }
    } else {
      NoWrite(d, ws, bn);
    }
  }

  lemma PartlyCommittedLog(d: Disk, g: Region, bs: seq<nat>, mem: Disk, k: nat, i: nat)
    requires Clear(d, g) && Loggable(bs, g, |d|) && |mem| == |d|
    requires k <= |CommitWrites(d, g, bs, mem)| && i < |bs| && i < k
    ensures PartlyCommitted(d, g, bs, mem, k)[g.start + 1 + i] == mem[bs[i]]
  {
    LastWrite(d, CommitWrites(d, g, bs, mem)[..k], g.start + 1 + i, i);
  }

  /** Crash atomicity: stop a commit after any k of its writes and recover. Every
      home block is as before the transaction (k at most |bs|, the header not yet
      written) or every home block is as in it. */
  lemma CommitIsAtomic(d: Disk, g: Region, bs: seq<nat>, mem: Disk, k: nat, bn: nat)
    requires Clear(d, g) && Loggable(bs, g, |d|) && |mem| == |d|
    requires k <= |CommitWrites(d, g, bs, mem)| && bn < |d| && !g.Has(bn)
    ensures var d' := PartlyCommitted(d, g, bs, mem, k);
      && Recoverable(d', g)
      && Recovered(d', g)[bn] == if k > |bs| && bn in bs then mem[bn] else d[bn]
  {
    var d' := PartlyCommitted(d, g, bs, mem, k);
    PartlyCommittedHeader(d, g, bs, mem, k);
    PartlyCommittedHome(d, g, bs, mem, k, bn);
    RecoveredAt(d', g, bn);
    if bn in bs {
      var i :| 0 <= i < |bs| && bs[i] == bn;
      if |bs| < k {
        PartlyCommittedLog(d, g, bs, mem, k, i);
      }
    }
  }

  /** A commit that ran to its end left the header clear and the blocks home. */
  lemma CommitCompletes(d: Disk, g: Region, bs: seq<nat>, mem: Disk)
    requires Clear(d, g) && Loggable(bs, g, |d|) && |mem| == |d|
    ensures var d' := Apply(d, CommitWrites(d, g, bs, mem));
      && Clear(d', g)
      && forall bn :: 0 <= bn < |d| && !g.Has(bn) ==> d'[bn] == if bn in bs then mem[bn] else d[bn]
  {
    var ws := CommitWrites(d, g, bs, mem);
    var d' := Apply(d, ws);
    assert ws[..|ws|] == ws;
    PartlyCommittedHeader(d, g, bs, mem, |ws|);
    assert |Header(d'[g.start])| == 0;
    forall bn | 0 <= bn < |d| && !g.Has(bn)
      ensures d'[bn] == if bn in bs then mem[bn] else d[bn]
    {
      PartlyCommittedHome(d, g, bs, mem, |ws|, bn);
    }
  }
}
