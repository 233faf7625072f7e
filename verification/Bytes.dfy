/** The byte and bit views of a block: byte k is `bp->data[k]` of the
    little-endian words, bit b is `bp->data[b/8] & (1 << b%8)`. */
module Bytes {
  import opened Blocks

  type byte = x: int | 0 <= x < 256

  /** Byte i of a little-endian word. */
  function WordByte(w: word, i: nat): (v: byte)
    requires i < 4
  {
    if i == 0 then w % 256
    else if i == 1 then (w / 256) % 256
    else if i == 2 then (w / 256 / 256) % 256
    else w / 256 / 256 / 256
  }

  function Pack(b0: byte, b1: byte, b2: byte, b3: byte): (w: word)
    ensures WordByte(w, 0) == b0 && WordByte(w, 1) == b1 && WordByte(w, 2) == b2 && WordByte(w, 3) == b3
  {
    PackShift(b0, PackHigh(b1, b2, b3));
    PackShift(b1, b2 as int + 256 * b3 as int);
    PackShift(b2, b3);
    b0 as int + 256 * PackHigh(b1, b2, b3)
  }

  function PackHigh(b1: byte, b2: byte, b3: byte): (w: nat) {
    b1 as int + 256 * (b2 as int + 256 * b3 as int)
  }

  lemma PackShift(lo: byte, hi: nat)
    ensures (lo as int + 256 * hi) % 256 == lo && (lo as int + 256 * hi) / 256 == hi
  {
  }

  function SetWordByte(w: word, i: nat, v: byte): (r: word)
    requires i < 4
    ensures forall j :: 0 <= j < 4 ==> WordByte(r, j) == if j == i then v else WordByte(w, j)
  {
    Pack(if i == 0 then v else WordByte(w, 0), if i == 1 then v else WordByte(w, 1),
         if i == 2 then v else WordByte(w, 2), if i == 3 then v else WordByte(w, 3))
  }

  function GetByte(b: Block, k: nat): (v: byte)
    requires k < BSIZE
  {
    WordByte(b[k / 4], k % 4)
  }

  function PutByte(b: Block, k: nat, v: byte): (r: Block)
    requires k < BSIZE
    ensures forall j :: 0 <= j < BSIZE ==> GetByte(r, j) == if j == k then v else GetByte(b, j)
  {
    b[k / 4 := SetWordByte(b[k / 4], k % 4, v)]
  }

  /** Byte j where src lies over the block from `at` on. */
  function ByteOver(b: Block, at: nat, src: seq<byte>, j: nat): byte
    requires j < BSIZE
  {
    if at <= j < at + |src| then src[j - at] else GetByte(b, j)
  }

  /** memmove(bp->data + at, src, |src|). */
  function PutBytes(b: Block, at: nat, src: seq<byte>): (r: Block)
    requires at + |src| <= BSIZE
    ensures forall j :: 0 <= j < BSIZE ==> GetByte(r, j) == ByteOver(b, at, src, j)
  {
    if src == [] then b
    else
      var m := |src| - 1;
      var prior := PutBytes(b, at, src[..m]);
      OneMoreByte(b, at, src, prior);
      PutByte(prior, at + m, src[m])
  }

  lemma OneMoreByte(b: Block, at: nat, src: seq<byte>, prior: Block)
    requires 0 < |src| && at + |src| <= BSIZE
    requires forall j :: 0 <= j < BSIZE ==> GetByte(prior, j) == ByteOver(b, at, src[..|src| - 1], j)
    ensures forall j :: 0 <= j < BSIZE ==>
              GetByte(PutByte(prior, at + |src| - 1, src[|src| - 1]), j) == ByteOver(b, at, src, j)
  {
    hide GetByte;
  }

  /** memmove(dst, bp->data + at, n). */
  function GetBytes(b: Block, at: nat, n: nat): (s: seq<byte>)
    requires at + n <= BSIZE
    ensures |s| == n && forall j :: 0 <= j < n ==> s[j] == GetByte(b, at + j)
  {
    seq<byte>(n, j requires 0 <= j < n => GetByte(b, at + j))
  }

  lemma ZeroBytes(k: nat)
    requires k < BSIZE
    ensures GetByte(ZeroBlock(), k) == 0
  {
  }

  // ----- bits of a byte -----

  /** Bit i of a number, counting from the least significant: x & (1 << i) != 0. */
  predicate TestBit(x: nat, i: nat) {
    if i == 0 then x % 2 == 1 else TestBit(x / 2, i - 1)
  }

  function Pow2(n: nat): (p: nat)
    ensures p >= 1
  {
    if n == 0 then 1 else 2 * Pow2(n - 1)
  }

  /** The number with bit i of x replaced: x | (1 << i) or x & ~(1 << i). */
  function WithBit(x: nat, i: nat, v: bool): (r: nat) {
    if i == 0 then x - x % 2 + (if v then 1 else 0)
    else x % 2 + 2 * WithBit(x / 2, i - 1, v)
  }

  lemma {:induction false} WithBitTest(x: nat, i: nat, v: bool, j: nat)
    ensures TestBit(WithBit(x, i, v), j) == if j == i then v else TestBit(x, j)
  {
    if i > 0 {
      var r := WithBit(x / 2, i - 1, v);
      assert (x % 2 + 2 * r) / 2 == r && (x % 2 + 2 * r) % 2 == x % 2;
      if j > 0 {
        WithBitTest(x / 2, i - 1, v, j - 1);
      }
    } else if j > 0 {
      assert WithBit(x, i, v) / 2 == x / 2;
    }
  }

  lemma {:induction false} WithBitBound(x: nat, i: nat, v: bool, n: nat)
    requires x < Pow2(n) && i < n
    ensures WithBit(x, i, v) < Pow2(n)
  {
    assert Pow2(n) == 2 * Pow2(n - 1);
    var p := Pow2(n - 1);
    if i > 0 {
      WithBitBound(x / 2, i - 1, v, n - 1);
      var r := WithBit(x / 2, i - 1, v);
      assert r + 1 <= p;
      assert WithBit(x, i, v) == x % 2 + 2 * r;
    } else {
      hide Pow2;
      assert x < 2 * p;
    }
  }

  function ByteWithBit(x: byte, i: nat, v: bool): (r: byte)
    requires i < 8
    ensures forall j :: 0 <= j < 8 ==> TestBit(r, j) == if j == i then v else TestBit(x, j)
  {
    assert Pow2(8) == 256;
    WithBitBound(x, i, v, 8);
    var r: byte := WithBit(x, i, v);
    assert forall j :: 0 <= j < 8 ==> TestBit(r, j) == if j == i then v else TestBit(x, j) by {
      forall j | 0 <= j < 8 ensures TestBit(r, j) == if j == i then v else TestBit(x, j) {
        WithBitTest(x, i, v, j);
      }
    }
    r
  }

  // ----- bits of a block -----

  /** (data[k/8] & (1 << k%8)) != 0 */
  predicate BlockBit(b: Block, k: nat)
    requires k < 8 * BSIZE
  {
    TestBit(GetByte(b, k / 8), k % 8)
  }

  function PutBit(b: Block, k: nat, v: bool): (r: Block)
    requires k < 8 * BSIZE
    ensures forall j :: 0 <= j < 8 * BSIZE ==> BlockBit(r, j) == if j == k then v else BlockBit(b, j)
  {
    PutByte(b, k / 8, ByteWithBit(GetByte(b, k / 8), k % 8, v))
  }
}
