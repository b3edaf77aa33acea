/** Disk blocks: 1024 bytes, read as bytes, as little-endian 32-bit words (log
    header, indirect block) or as bits (free map). */
module Blocks {

  const BSIZE := 1024
  const WORDS := 256
  // the most blocks that one file system operation may log
  const MAXOPBLOCKS := 10

  type byte = x: int | 0 <= x < 256
  type Bytes = b: seq<byte> | |b| == BSIZE witness seq(BSIZE, _ => 0)
  datatype Block = Block(bytes: Bytes)
  type Disk = seq<Block>

  function ZeroBlock(): (z: Block)
    ensures forall i :: 0 <= i < BSIZE ==> z.bytes[i] == 0
  {
    Block(seq(BSIZE, _ => 0))
  }

  function Pow256(n: nat): nat {
    if n == 0 then 1 else 256 * Pow256(n - 1)
  }

  /** The little-endian number in the bytes from lo up to hi. */
  function Number(b: seq<byte>, lo: nat, hi: nat): (v: nat)
    requires lo <= hi <= |b|
    decreases hi - lo
  {
    if lo == hi then 0 else b[lo] as int + 256 * Number(b, lo + 1, hi)
  }

  function WithNumber(b: seq<byte>, lo: nat, hi: nat, v: nat): (r: seq<byte>)
    requires lo <= hi <= |b|
    ensures |r| == |b|
    ensures forall k :: 0 <= k < lo || hi <= k < |b| ==> r[k] == b[k]
    decreases hi - lo
  {
    if lo == hi then b else WithNumber(b[lo := v % 256], lo + 1, hi, v / 256)
  }

  lemma {:induction false} NumberReadBack(b: seq<byte>, lo: nat, hi: nat, v: nat)
    requires lo <= hi <= |b| && v < Pow256(hi - lo)
    ensures Number(WithNumber(b, lo, hi, v), lo, hi) == v
    decreases hi - lo
  {
    if lo < hi {
      NumberReadBack(b[lo := v % 256], lo + 1, hi, v / 256);
    }
  }

  lemma {:induction false} NumberElsewhere(b: seq<byte>, c: seq<byte>, lo: nat, hi: nat)
    requires lo <= hi <= |b| == |c| && forall k :: lo <= k < hi ==> b[k] == c[k]
    ensures Number(b, lo, hi) == Number(c, lo, hi)
    decreases hi - lo
  {
    if lo < hi {
      NumberElsewhere(b, c, lo + 1, hi);
    }
  }

  /** The i-th 32-bit word of a block. */
  function Word(b: Block, i: nat): (w: nat)
    requires i < WORDS
  {
    Number(b.bytes, 4 * i, 4 * i + 4)
  }

  function SetWord(b: Block, i: nat, v: nat): (r: Block)
    requires i < WORDS
  {
    Block(WithNumber(b.bytes, 4 * i, 4 * i + 4, v))
  }

  /** A stored word reads back, and no other word changes. */
  lemma WordOfSetWord(b: Block, i: nat, v: nat, j: nat)
    requires i < WORDS && j < WORDS && v < 0x1_0000_0000
    ensures Word(SetWord(b, i, v), j) == if i == j then v else Word(b, j)
  {
    if i == j {
      assert Pow256(4) == 0x1_0000_0000;
      NumberReadBack(b.bytes, 4 * i, 4 * i + 4, v);
    } else {
      NumberElsewhere(b.bytes, SetWord(b, i, v).bytes, 4 * j, 4 * j + 4);
    }
  }

  /** Storing the same word twice is storing it once. */
  lemma SetWordTwice(b: Block, i: nat, v: nat)
    requires i < WORDS
    ensures SetWord(SetWord(b, i, v), i, v) == SetWord(b, i, v)
  {
    RewrittenNumber(b.bytes, 4 * i, 4 * i + 4, v);
  }

  lemma {:induction false} RewrittenNumber(b: seq<byte>, lo: nat, hi: nat, v: nat)
    requires lo <= hi <= |b|
    ensures WithNumber(WithNumber(b, lo, hi, v), lo, hi, v) == WithNumber(b, lo, hi, v)
    decreases hi - lo
  {
    if lo < hi {
      var c := WithNumber(b[lo := v % 256], lo + 1, hi, v / 256);
      assert c[lo := v % 256] == c;
      RewrittenNumber(b[lo := v % 256], lo + 1, hi, v / 256);
    }
  }

  /** Bit i of a number: x & (1 << i) is not zero. */
  predicate BitOf(x: nat, i: nat) {
    if i == 0 then x % 2 == 1 else BitOf(x / 2, i - 1)
  }

  /** x | (1 << i), or x & ~(1 << i). */
  function WithBit(x: nat, i: nat, on: bool): (y: nat) {
    if i == 0 then x / 2 * 2 + (if on then 1 else 0) else 2 * WithBit(x / 2, i - 1, on) + x % 2
  }

  function Pow2(w: nat): nat {
    if w == 0 then 1 else 2 * Pow2(w - 1)
  }

  /** Setting a bit changes that bit alone ... */
  lemma {:induction false} BitOfWithBit(x: nat, i: nat, on: bool, j: nat)
    ensures BitOf(WithBit(x, i, on), j) == if i == j then on else BitOf(x, j)
  {
    if i > 0 {
      var y := WithBit(x / 2, i - 1, on);
      assert WithBit(x, i, on) == 2 * y + x % 2;
      assert (2 * y + x % 2) / 2 == y && (2 * y + x % 2) % 2 == x % 2;
      if j > 0 {
        BitOfWithBit(x / 2, i - 1, on, j - 1);
      }
    }
  }

  /** ... and stays inside the byte. */
  lemma {:induction false} WithBitFits(x: nat, i: nat, on: bool, w: nat)
    requires i < w && x < Pow2(w)
    ensures WithBit(x, i, on) < Pow2(w)
  {
    if i > 0 {
      WithBitFits(x / 2, i - 1, on, w - 1);
    }
  }

  /** Bit k of a block, low bit of byte 0 first. */
  predicate Bit(b: Block, k: nat)
    requires k < 8 * BSIZE
  {
    BitOf(b.bytes[k / 8], k % 8)
  }

  function SetBit(b: Block, k: nat, on: bool): (r: Block)
    requires k < 8 * BSIZE
    ensures forall j: nat :: j < 8 * BSIZE ==> Bit(r, j) == if j == k then on else Bit(b, j)
  {
    var x := b.bytes[k / 8];
    assert Pow2(8) == 256;
    assert WithBit(x, k % 8, on) < 256
      && forall j: nat :: BitOf(WithBit(x, k % 8, on), j) == if j == k % 8 then on else BitOf(x, j) by {
      forall j: nat
        ensures BitOf(WithBit(x, k % 8, on), j) == if j == k % 8 then on else BitOf(x, j)
      {
        BitOfWithBit(x, k % 8, on, j);
      }
      WithBitFits(x, k % 8, on, 8);
    }
    Block(b.bytes[k / 8 := WithBit(x, k % 8, on)])
  }

  /** One block write reaching the device. */
  datatype Write = Write(bn: nat, data: Block)

  predicate InRange(ws: seq<Write>, size: nat) {
    forall i :: 0 <= i < |ws| ==> ws[i].bn < size
  }

  /** The disk after the writes ws, in order. */
  function Apply(d: Disk, ws: seq<Write>): (r: Disk)
    requires InRange(ws, |d|)
    ensures |r| == |d|
  {
    if ws == [] then d else
      var k := |ws| - 1;
      Apply(d, ws[..k])[ws[k].bn := ws[k].data]
  }

  lemma {:induction false} ApplyConcat(d: Disk, u: seq<Write>, v: seq<Write>)
    requires InRange(u, |d|) && InRange(v, |d|)
    ensures InRange(u + v, |d|)
    ensures Apply(d, u + v) == Apply(Apply(d, u), v)
  {
    if v == [] {
      assert u + v == u;
    } else {
      var k := |v| - 1;
      ApplyConcat(d, u, v[..k]);
      assert (u + v)[..|u + v| - 1] == u + v[..k];
    }
  }

  lemma ApplyOneMore(d: Disk, ws: seq<Write>, k: nat)
    requires InRange(ws, |d|) && k < |ws|
    ensures Apply(d, ws[..k + 1]) == Apply(d, ws[..k])[ws[k].bn := ws[k].data]
  {
    assert ws[..k + 1][..k] == ws[..k];
  }
}
