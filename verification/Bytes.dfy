/** Little-endian fields and bitmap bits inside byte buffers: the casts that
    kernel/ext2.c applies to its shared block buffer. */
module Bytes {

  type Byte = x: int | 0 <= x < 256

  /** The contents of one disk block, or of any other byte buffer. */
  type Block = seq<Byte>

  datatype Option<+T> = None | Some(value: T)
  {
    function GetOr(default: T): T {
      match this
      case None => default
      case Some(v) => v
    }
  }

  function Min(a: int, b: int): int { if a < b then a else b }

  // ---- fields ----

  function U16(s: seq<Byte>, o: nat): (r: nat)
    requires o + 2 <= |s|
    ensures r < 0x1_0000
  {
    s[o] as int + 256 * (s[o + 1] as int)
  }

  function U32(s: seq<Byte>, o: nat): (r: nat)
    requires o + 4 <= |s|
    ensures r < 0x1_0000_0000
  {
    s[o] as int + 256 * (s[o + 1] as int) + 65536 * (s[o + 2] as int) + 16777216 * (s[o + 3] as int)
  }

  function Le16(v: nat): (r: seq<Byte>)
    requires v < 0x1_0000
    ensures |r| == 2
  {
    [v % 256, v / 256]
  }

  function Le32(v: nat): (r: seq<Byte>)
    requires v < 0x1_0000_0000
    ensures |r| == 4
  {
    [v % 256, v / 256 % 256, v / 65536 % 256, v / 16777216]
  }

  /** `s` with `part` copied over the bytes from offset `o` on. */
  function Splice(s: seq<Byte>, o: nat, part: seq<Byte>): (r: seq<Byte>)
    requires o + |part| <= |s|
    ensures |r| == |s|
    ensures r[..o] == s[..o] && r[o..o + |part|] == part && r[o + |part|..] == s[o + |part|..]
  {
    s[..o] + part + s[o + |part|..]
  }

  /** The bytes of a string constant. */
  function Text(s: string): (r: seq<Byte>)
    ensures |r| == |s|
  {
    seq(|s|, k requires 0 <= k < |s| => s[k] as int % 256)
  }

  function Zeros(n: nat): (r: seq<Byte>)
    ensures |r| == n
    ensures forall k :: 0 <= k < n ==> r[k] == 0
  {
    seq(n, _ => 0)
  }

  lemma Le32RoundTrip(v: nat)
    requires v < 0x1_0000_0000
    ensures U32(Le32(v), 0) == v
  {
    assert v / 65536 == v / 256 / 256 && v / 16777216 == v / 65536 / 256;
  }

  lemma U16Slice(s: seq<Byte>, o: nat, p: nat, q: nat)
    requires p <= o && o + 2 <= q <= |s|
    ensures U16(s[p..q], o - p) == U16(s, o)
  {
  }

  lemma U32Slice(s: seq<Byte>, o: nat, p: nat, q: nat)
    requires p <= o && o + 4 <= q <= |s|
    ensures U32(s[p..q], o - p) == U32(s, o)
  {
  }

  // ---- blocks of 32-bit pointers ----

  /** `((uint32_t *)block)[k]`. */
  function Word(b: Block, k: nat): (r: nat)
    requires 4 * k + 4 <= |b|
    ensures r < 0x1_0000_0000
  {
    U32(b, 4 * k)
  }

  function PutWord(b: Block, k: nat, v: nat): (r: Block)
    requires 4 * k + 4 <= |b| && v < 0x1_0000_0000
    ensures |r| == |b|
  {
    Splice(b, 4 * k, Le32(v))
  }

  lemma WordOfPut(b: Block, k: nat, v: nat, j: nat)
    requires 4 * k + 4 <= |b| && 4 * j + 4 <= |b| && v < 0x1_0000_0000
    ensures Word(PutWord(b, k, v), j) == if j == k then v else Word(b, j)
  {
    var r := PutWord(b, k, v);
    if j == k {
      Le32RoundTrip(v);
      assert r[4 * k..4 * k + 4] == Le32(v);
      U32Slice(r, 4 * k, 4 * k, 4 * k + 4);
    } else if j < k {
      assert r[..4 * k] == b[..4 * k];
      U32Slice(r, 4 * j, 0, 4 * k);
      U32Slice(b, 4 * j, 0, 4 * k);
    } else {
      assert r[4 * k + 4..] == b[4 * k + 4..];
      U32Slice(r, 4 * j, 4 * k + 4, |r|);
      U32Slice(b, 4 * j, 4 * k + 4, |b|);
    }
  }

  lemma WordOfZeros(n: nat, k: nat)
    requires 4 * k + 4 <= n
    ensures Word(Zeros(n), k) == 0
  {
  }

  // ---- bitmaps ----

  function Pow2(k: nat): (r: nat)
    ensures r > 0
  {
    if k == 0 then 1 else 2 * Pow2(k - 1)
  }

  /** `x & (1U << k)` is not zero. */
  predicate BitOf(x: nat, k: nat) {
    if k == 0 then x % 2 == 1 else BitOf(x / 2, k - 1)
  }

  /** `x | (1U << k)` when `on`, `x & ~(1U << k)` otherwise. */
  function WithBit(x: nat, k: nat, on: bool): nat {
    if k == 0 then x / 2 * 2 + (if on then 1 else 0) else x % 2 + 2 * WithBit(x / 2, k - 1, on)
  }

  lemma {:induction false} WithBitBound(x: nat, k: nat, on: bool, m: nat)
    requires k < m && x < Pow2(m)
    ensures WithBit(x, k, on) < Pow2(m)
  {
    if k > 0 {
      WithBitBound(x / 2, k - 1, on, m - 1);
    }
  }

  lemma Halve(q: nat, r: nat)
    requires r < 2
    ensures (2 * q + r) / 2 == q && (2 * q + r) % 2 == r
  {
  }

  lemma {:induction false} BitOfWithBit(x: nat, k: nat, on: bool, j: nat)
    ensures BitOf(WithBit(x, k, on), j) == if j == k then on else BitOf(x, j)
  {
    if k == 0 {
      Halve(x / 2, if on then 1 else 0);
    } else {
      Halve(WithBit(x / 2, k - 1, on), x % 2);
      if j > 0 {
        BitOfWithBit(x / 2, k - 1, on, j - 1);
      }
    }
  }

  /** `bitmap[bit / 8] & (1U << (bit % 8))` is not zero. */
  predicate Bit(b: Block, bit: nat)
    requires bit < 8 * |b|
  {
    BitOf(b[bit / 8], bit % 8)
  }

  function PutBit(b: Block, bit: nat, on: bool): (r: Block)
    requires bit < 8 * |b|
    ensures |r| == |b|
  {
    assert Pow2(8) == 256;
    WithBitBound(b[bit / 8], bit % 8, on, 8);
    b[bit / 8 := WithBit(b[bit / 8], bit % 8, on)]
  }

  lemma BitOfPut(b: Block, bit: nat, on: bool, j: nat)
    requires bit < 8 * |b| && j < 8 * |b|
    ensures Bit(PutBit(b, bit, on), j) == if j == bit then on else Bit(b, j)
  {
    if j / 8 == bit / 8 {
      BitOfWithBit(b[bit / 8], bit % 8, on, j % 8);
    }
  }
}
