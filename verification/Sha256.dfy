/** SHA-256 of kernel/auth.c: blocks hashed in place and a padded tail, against the padded message of
    sections 5.1.1 and 6.2.2 of FIPS 180-4. */
module Sha256 {
  import opened Bytes

  type Word = bv32

  const BLOCK_SIZE := 64

  /** The round constants, eight to a row. */
  const K: seq<seq<Word>> := [
    [0x428a2f98, 0x71374491, 0xb5c0fbcf, 0xe9b5dba5, 0x3956c25b, 0x59f111f1, 0x923f82a4, 0xab1c5ed5],
    [0xd807aa98, 0x12835b01, 0x243185be, 0x550c7dc3, 0x72be5d74, 0x80deb1fe, 0x9bdc06a7, 0xc19bf174],
    [0xe49b69c1, 0xefbe4786, 0x0fc19dc6, 0x240ca1cc, 0x2de92c6f, 0x4a7484aa, 0x5cb0a9dc, 0x76f988da],
    [0x983e5152, 0xa831c66d, 0xb00327c8, 0xbf597fc7, 0xc6e00bf3, 0xd5a79147, 0x06ca6351, 0x14292967],
    [0x27b70a85, 0x2e1b2138, 0x4d2c6dfc, 0x53380d13, 0x650a7354, 0x766a0abb, 0x81c2c92e, 0x92722c85],
    [0xa2bfe8a1, 0xa81a664b, 0xc24b8b70, 0xc76c51a3, 0xd192e819, 0xd6990624, 0xf40e3585, 0x106aa070],
    [0x19a4c116, 0x1e376c08, 0x2748774c, 0x34b0bcb5, 0x391c0cb3, 0x4ed8aa4a, 0x5b9cca4f, 0x682e6ff3],
    [0x748f82ee, 0x78a5636f, 0x84c87814, 0x8cc70208, 0x90befffa, 0xa4506ceb, 0xbef9a3f7, 0xc67178f2]]

  const H0: seq<Word> := [
    0x6a09e667, 0xbb67ae85, 0x3c6ef372, 0xa54ff53a, 0x510e527f, 0x9b05688c, 0x1f83d9ab, 0x5be0cd19]

  // ---- the functions of section 4.1.2 ----

  function RotateRight(x: Word, n: Word): Word
    requires 0 < n < 32
  {
    (x >> n) | (x << (32 - n))
  }

  /** Addition modulo 2^32. */
  function Plus(x: Word, y: Word): Word { x + y }

  function And(x: Word, y: Word): Word { x & y }
  function Xor(x: Word, y: Word): Word { x ^ y }
  function Not(x: Word): Word { !x }

  function ShiftRight(x: Word, n: Word): Word
    requires n < 32
  {
    x >> n
  }

  function Ch(x: Word, y: Word, z: Word): Word { Xor(And(x, y), And(Not(x), z)) }
  function Maj(x: Word, y: Word, z: Word): Word { Xor(Xor(And(x, y), And(x, z)), And(y, z)) }
  function BigSigma0(x: Word): Word { Xor(Xor(RotateRight(x, 2), RotateRight(x, 13)), RotateRight(x, 22)) }
  function BigSigma1(x: Word): Word { Xor(Xor(RotateRight(x, 6), RotateRight(x, 11)), RotateRight(x, 25)) }
  function SmallSigma0(x: Word): Word { Xor(Xor(RotateRight(x, 7), RotateRight(x, 18)), ShiftRight(x, 3)) }
  function SmallSigma1(x: Word): Word { Xor(Xor(RotateRight(x, 17), RotateRight(x, 19)), ShiftRight(x, 10)) }

  // ---- one block, section 6.2.2 ----

  /** read_word: four bytes, the most significant first. */
  function ReadWord(s: seq<Byte>, o: nat): Word
    requires o + 4 <= |s|
  {
    ((s[o] as bv32) << 24) | ((s[o + 1] as bv32) << 16) | ((s[o + 2] as bv32) << 8) | (s[o + 3] as bv32)
  }

  /** The message schedule. */
  function Schedule(block: seq<Byte>, t: nat): Word
    requires |block| == BLOCK_SIZE && t < 64
  {
    if t < 16 then ReadWord(block, 4 * t)
    else Plus(Plus(Plus(Schedule(block, t - 16), SmallSigma0(Schedule(block, t - 15))), Schedule(block, t - 7)),
              SmallSigma1(Schedule(block, t - 2)))
  }

  datatype Working = Working(a: Word, b: Word, c: Word, d: Word, e: Word, f: Word, g: Word, h: Word)

  function Round(w: Working, k: Word, m: Word): Working {
    var t1 := Plus(Plus(Plus(Plus(w.h, BigSigma1(w.e)), Ch(w.e, w.f, w.g)), k), m);
    var t2 := Plus(BigSigma0(w.a), Maj(w.a, w.b, w.c));
    Working(Plus(t1, t2), w.a, w.b, w.c, Plus(w.d, t1), w.e, w.f, w.g)
  }

  function Constant(t: nat): Word
    requires t < 64
  {
    K[t / 8][t % 8]
  }

  /** The working variables after `t` rounds. */
  function Rounds(state: seq<Word>, block: seq<Byte>, t: nat): Working
    requires |state| == 8 && |block| == BLOCK_SIZE && t <= 64
  {
    if t == 0 then Working(state[0], state[1], state[2], state[3], state[4], state[5], state[6], state[7])
    else Round(Rounds(state, block, t - 1), Constant(t - 1), Schedule(block, t - 1))
  }

  function Compress(state: seq<Word>, block: seq<Byte>): (r: seq<Word>)
    requires |state| == 8 && |block| == BLOCK_SIZE
    ensures |r| == 8
  {
    Added(state, Rounds(state, block, 64))
  }

  // ---- the whole message ----

  /** The low `n` bytes of `v`, the most significant first. */
  function BigEndian(v: nat, n: nat): (r: seq<Byte>)
    ensures |r| == n
    decreases n
  {
    if n == 0 then [] else BigEndian(v / 256, n - 1) + [v % 256]
  }

  /** How many zero bytes go between the 0x80 byte and the length: the fewest that fill the last block. */
  function Filler(length: nat): (k: nat)
    ensures k < BLOCK_SIZE && (length + 1 + k + 8) % BLOCK_SIZE == 0
  {
    (119 - length % BLOCK_SIZE) % BLOCK_SIZE
  }

  /** Section 5.1.1. */
  function Padded(m: seq<Byte>): (p: seq<Byte>)
    ensures |p| % BLOCK_SIZE == 0
  {
    m + [0x80] + Zeros(Filler(|m|)) + BigEndian(8 * |m|, 8)
  }

  /** The number that bytes spell, the most significant first. */
  function Spelled(s: seq<Byte>): nat {
    if s == [] then 0 else 256 * Spelled(s[..|s| - 1]) + s[|s| - 1]
  }

  function Pow256(n: nat): (p: nat)
    ensures p > 0
  {
    if n == 0 then 1 else 256 * Pow256(n - 1)
  }

  lemma {:induction false} BigEndianSpells(v: nat, n: nat)
    requires v < Pow256(n)
    ensures Spelled(BigEndian(v, n)) == v
    decreases n
  {
    if n > 0 {
      BigEndianSpells(v / 256, n - 1);
      assert BigEndian(v, n)[..n - 1] == BigEndian(v / 256, n - 1);
    }
  }

  /** A padded message is the message, a byte 0x80, zeros, and the length of the message in bits in the last eight
      bytes; it is as short as whole blocks allow. */
  lemma PaddedIs(m: seq<Byte>, n: nat)
    requires |m| < 0x2000_0000_0000_0000
    ensures var p := Padded(m);
      && |p| >= |m| + 9 && p[..|m|] == m && p[|m|] == 0x80 && (forall k :: |m| < k < |p| - 8 ==> p[k] == 0)
      && Spelled(p[|p| - 8..]) == 8 * |m|
      && |p| % 64 == 0 && (n % 64 == 0 && n >= |m| + 9 ==> |p| <= n)
  {
    hide BigEndian, Spelled;
    EightBytes();
    BigEndianSpells(8 * |m|, 8);
    var p := Padded(m);
    assert p[|p| - 8..] == BigEndian(8 * |m|, 8);
  }

  lemma EightBytes()
    ensures Pow256(8) == 0x1_0000_0000_0000_0000
  {
    assert Pow256(4) == 0x1_0000_0000;
  }

  /** The hash of a sequence of whole blocks. */
  function Blocks(state: seq<Word>, s: seq<Byte>): (r: seq<Word>)
    requires |state| == 8
    ensures |r| == 8
    decreases |s|
  {
    if |s| < BLOCK_SIZE then state else Blocks(Compress(state, s[..BLOCK_SIZE]), s[BLOCK_SIZE..])
  }

  /** Section 6.2. */
  function Digest(m: seq<Byte>): (r: seq<Word>)
    ensures |r| == 8
  {
    Blocks(H0, Padded(m))
  }

  // ---- the code ----

  /** The message schedule of sha256_transform. */
  method Expand(block: seq<Byte>) returns (words: array<Word>)
    requires |block| == BLOCK_SIZE
    ensures fresh(words) && words.Length == 64 && forall j :: 0 <= j < 64 ==> words[j] == Schedule(block, j)
  {
    hide RotateRight, SmallSigma0, SmallSigma1, ReadWord, Plus;
    words := new Word[64];
    for i := 0 to 16
      invariant forall j :: 0 <= j < i ==> words[j] == Schedule(block, j)
    {
      words[i] := ReadWord(block, i * 4);
    }
    for i := 16 to 64
      invariant forall j :: 0 <= j < i ==> words[j] == Schedule(block, j)
    {
      var smallSigma0 := SmallSigma0(words[i - 15]);
      var smallSigma1 := SmallSigma1(words[i - 2]);
      words[i] := Plus(Plus(Plus(words[i - 16], smallSigma0), words[i - 7]), smallSigma1);
    }
  }

  /** The rounds of sha256_transform. */
  method RunRounds(state: seq<Word>, words: array<Word>, ghost block: seq<Byte>) returns (w: Working)
    requires |state| == 8 && |block| == BLOCK_SIZE
    requires words.Length == 64 && forall j :: 0 <= j < 64 ==> words[j] == Schedule(block, j)
    ensures w == Rounds(state, block, 64)
  {
    hide RotateRight, Ch, Maj, BigSigma0, BigSigma1, Schedule, Constant, Plus;
    var a, b, c, d := state[0], state[1], state[2], state[3];
    var e, f, g, h := state[4], state[5], state[6], state[7];
    for i := 0 to 64
      invariant Working(a, b, c, d, e, f, g, h) == Rounds(state, block, i)
    {
      RoundsMore(state, block, i);
      var k := Constant(i);
      var bigSigma0 := BigSigma0(a);
      var bigSigma1 := BigSigma1(e);
      var choose := Ch(e, f, g);
      var majority := Maj(a, b, c);
      var temporary1 := Plus(Plus(Plus(Plus(h, bigSigma1), choose), k), words[i]);
      var temporary2 := Plus(bigSigma0, majority);
      h, g, f, e := g, f, e, Plus(d, temporary1);
      d, c, b, a := c, b, a, Plus(temporary1, temporary2);
    }
    return Working(a, b, c, d, e, f, g, h);
  }

  lemma RoundsMore(state: seq<Word>, block: seq<Byte>, t: nat)
    requires |state| == 8 && |block| == BLOCK_SIZE && t < 64
    ensures Rounds(state, block, t + 1) == Round(Rounds(state, block, t), Constant(t), Schedule(block, t))
  {
  }

  /** sha256_transform. */
  method Transform(state: array<Word>, block: seq<Byte>)
    requires state.Length == 8 && |block| == BLOCK_SIZE
    modifies state
    ensures state[..] == Compress(old(state[..]), block)
  {
    hide Rounds, Schedule, Plus;
    var words := Expand(block);
    var w := RunRounds(state[..], words, block);
    ghost var was := state[..];
    AddInto(state, w);
    assert state[..] == Added(was, w);
  }

  function Added(s: seq<Word>, w: Working): (r: seq<Word>)
    requires |s| == 8
    ensures |r| == 8
  {
    [Plus(s[0], w.a), Plus(s[1], w.b), Plus(s[2], w.c), Plus(s[3], w.d),
     Plus(s[4], w.e), Plus(s[5], w.f), Plus(s[6], w.g), Plus(s[7], w.h)]
  }

  method AddInto(state: array<Word>, w: Working)
    requires state.Length == 8
    modifies state
    ensures state[..] == Added(old(state[..]), w)
  {
    hide Plus;
    AddTo(state, 0, w.a);
    AddTo(state, 1, w.b);
    AddTo(state, 2, w.c);
    AddTo(state, 3, w.d);
    AddTo(state, 4, w.e);
    AddTo(state, 5, w.f);
    AddTo(state, 6, w.g);
    AddTo(state, 7, w.h);
  }

  method AddTo(state: array<Word>, k: nat, x: Word)
    requires k < state.Length
    modifies state
    ensures state[..] == old(state[..])[k := Plus(old(state[k]), x)]
  {
    hide Plus;
    state[k] := Plus(state[k], x);
  }

  // ---- padding ----

  /** The padded tail of a message of `length` bytes, of which `rest` are left after the whole blocks. */
  function Tail(rest: seq<Byte>, length: nat): seq<Byte> {
    rest + [0x80] + Zeros(Filler(length)) + BigEndian(8 * length, 8)
  }

  lemma PaddedTail(m: seq<Byte>, offset: nat)
    requires offset <= |m|
    ensures Padded(m) == m[..offset] + Tail(m[offset..], |m|)
  {
    hide BigEndian, Zeros, Filler;
    assert m == m[..offset] + m[offset..];
  }

  lemma RestOf(length: nat, offset: nat)
    requires offset <= length < offset + BLOCK_SIZE && offset % BLOCK_SIZE == 0
    ensures length - offset == length % BLOCK_SIZE
  {
  }

  /** Hashing a prefix of whole blocks first. */
  lemma {:induction false} BlocksSplit(state: seq<Word>, a: seq<Byte>, b: seq<Byte>)
    requires |state| == 8 && |a| % BLOCK_SIZE == 0
    ensures Blocks(state, a + b) == Blocks(Blocks(state, a), b)
    decreases |a|
  {
    if a == [] {
      assert a + b == b;
    } else {
      assert (a + b)[..BLOCK_SIZE] == a[..BLOCK_SIZE] && (a + b)[BLOCK_SIZE..] == a[BLOCK_SIZE..] + b;
      BlocksSplit(Compress(state, a[..BLOCK_SIZE]), a[BLOCK_SIZE..], b);
    }
  }

  lemma OneMore(state: seq<Word>, m: seq<Byte>, offset: nat)
    requires |state| == 8 && offset % BLOCK_SIZE == 0 && offset + BLOCK_SIZE <= |m|
    ensures Blocks(state, m[..offset + BLOCK_SIZE])
         == Compress(Blocks(state, m[..offset]), m[offset..offset + BLOCK_SIZE])
  {
    hide Compress;
    var last := m[offset..offset + BLOCK_SIZE];
    assert m[..offset + BLOCK_SIZE] == m[..offset] + last;
    BlocksSplit(state, m[..offset], last);
    assert last[..BLOCK_SIZE] == last;
  }

  /** The last one or two blocks. */
  lemma LastBlocks(state: seq<Word>, first: seq<Byte>, second: seq<Byte>)
    requires |state| == 8 && |first| == BLOCK_SIZE
    ensures Blocks(state, first) == Compress(state, first)
    ensures |second| == BLOCK_SIZE ==> Blocks(state, first + second) == Compress(Compress(state, first), second)
  {
    hide Compress;
    SingleBlock(state, first);
    if |second| == BLOCK_SIZE {
      BlocksSplit(state, first, second);
      SingleBlock(Compress(state, first), second);
    }
  }

  lemma SingleBlock(state: seq<Word>, b: seq<Byte>)
    requires |state| == 8 && |b| == BLOCK_SIZE
    ensures Blocks(state, b) == Compress(state, b)
  {
    hide Compress;
    assert b[..BLOCK_SIZE] == b && b[BLOCK_SIZE..] == [];
  }

  lemma BigEndianShift(v: nat, i: nat)
    ensures BigEndian(v, i + 1) == [ByteOf(v, i)] + BigEndian(v, i)
    decreases i
  {
    if i == 0 {
      assert BigEndian(v, 1) == BigEndian(v / 256, 0) + [v % 256] == [v % 256];
    } else {
      BigEndianShift(v / 256, i - 1);
    }
  }

  /** Byte `i` of `v`, counted from the least significant: `(uint8_t)(v >> (i * 8))`. */
  function ByteOf(v: nat, i: nat): Byte {
    if i == 0 then v % 256 else ByteOf(v / 256, i - 1)
  }

  /** The rest of the message and the 0x80 byte in an otherwise zero block. */
  method StartBlock(rest: seq<Byte>) returns (block: array<Byte>)
    requires |rest| < BLOCK_SIZE
    ensures fresh(block) && block.Length == BLOCK_SIZE
    ensures block[..] == rest + [0x80] + Zeros(BLOCK_SIZE - |rest| - 1)
  {
    block := new Byte[BLOCK_SIZE](_ => 0);
    forall i | 0 <= i < |rest| {
      block[i] := rest[i];
    }
    block[|rest|] := 0x80;
  }

  method ClearBlock(block: array<Byte>)
    modifies block
    ensures block[..] == Zeros(block.Length)
  {
    forall i | 0 <= i < block.Length {
      block[i] := 0;
    }
  }

  /** The final padding of sha256, in its one block buffer. */
  method Finish(state: array<Word>, rest: seq<Byte>, length: nat)
    requires state.Length == 8 && |rest| < BLOCK_SIZE && |rest| == length % BLOCK_SIZE
    modifies state
    ensures state[..] == Blocks(old(state[..]), Tail(rest, length))
  {
    hide Compress, Blocks, Filler, Zeros, Tail;
    ghost var was := state[..];
    var block := StartBlock(rest);
    ghost var first := block[..];
    ghost var bits := BigEndian(8 * length, 8);
    TailIs(rest, length, rest + [0x80]);
    if |rest| >= 56 {
      Transform(state, block[..]);
      ClearBlock(block);
      PutLength(block, 8 * length);
      FrontOfZeros();
      LastBlocks(was, first, Zeros(56) + bits);
    } else {
      PutLength(block, 8 * length);
      FrontOfBlock(rest + [0x80], first);
      LastBlocks(was, first[..56] + bits, []);
    }
    Transform(state, block[..]);
  }

  lemma FrontOfZeros()
    ensures Zeros(BLOCK_SIZE)[..56] == Zeros(56)
  {
  }

  lemma FrontOfBlock(start: seq<Byte>, first: seq<Byte>)
    requires |start| <= 56 && first == start + Zeros(BLOCK_SIZE - |start|)
    ensures first[..56] == start + Zeros(56 - |start|)
  {
  }

  /** The tail cut into blocks. */
  lemma TailIs(rest: seq<Byte>, length: nat, start: seq<Byte>)
    requires |rest| < BLOCK_SIZE && |rest| == length % BLOCK_SIZE && start == rest + [0x80]
    ensures var bits := BigEndian(8 * length, 8);
      && (|rest| < 56 ==> Tail(rest, length) == (start + Zeros(56 - |start|)) + bits)
      && (|rest| >= 56 ==> Tail(rest, length) == (start + Zeros(BLOCK_SIZE - |start|)) + (Zeros(56) + bits))
  {
    hide BigEndian;
    if |rest| >= 56 {
      assert Zeros(Filler(length)) == Zeros(BLOCK_SIZE - |start|) + Zeros(56);
    }
  }

  /** The length in bits goes to the last eight bytes. */
  method PutLength(block: array<Byte>, bitLength: nat)
    requires block.Length == BLOCK_SIZE
    modifies block
    ensures block[..] == old(block[..56]) + BigEndian(bitLength, 8)
  {
    for i := 0 to 8
      invariant block[..56] == old(block[..56]) && block[64 - i..64] == BigEndian(bitLength, i)
    {
      BigEndianShift(bitLength, i);
      block[63 - i] := ByteOf(bitLength, i);
      assert block[63 - i..64] == [ByteOf(bitLength, i)] + block[64 - i..64];
    }
    assert block[..] == block[..56] + block[56..64];
  }

  /** sha256: whole blocks in place, then the padded tail. */
  method Hash(input: seq<Byte>) returns (state: array<Word>)
    ensures fresh(state) && state.Length == 8 && state[..] == Digest(input)
  {
    hide Compress, Blocks, Padded, Tail;
    state := new Word[8](i requires 0 <= i < 8 => H0[i]);
    assert state[..] == H0;
    var length, offset := |input|, 0;
    NoBlocks();
    assert input[..0] == [];
    while length - offset >= BLOCK_SIZE
      invariant offset <= length && offset % BLOCK_SIZE == 0 && state[..] == Blocks(H0, input[..offset])
    {
      OneMore(H0, input, offset);
      Transform(state, input[offset..offset + BLOCK_SIZE]);
      offset := offset + BLOCK_SIZE;
    }
    PaddedTail(input, offset);
    RestOf(length, offset);
    BlocksSplit(H0, input[..offset], Tail(input[offset..], length));
    Finish(state, input[offset..], length);
  }

  lemma NoBlocks()
    ensures Blocks(H0, []) == H0
  {
  }

  // ---- hexadecimal output ----

  /** "0123456789abcdef". */
  const HEX: seq<Byte> := [48, 49, 50, 51, 52, 53, 54, 55, 56, 57, 97, 98, 99, 100, 101, 102]

  /** The hexadecimal digit for the low four bits of `x`. */
  function HexDigit(x: Word): (c: Byte)
    ensures c != 0 && c != 10 && c != 58
  {
    HEX[(x & 0xF) as int]
  }

  function Shift4(x: Word): Word { x >> 4 }
  function Shift8(x: Word): Word { x >> 8 }
  function Shift12(x: Word): Word { x >> 12 }
  function Shift16(x: Word): Word { x >> 16 }
  function Shift20(x: Word): Word { x >> 20 }
  function Shift24(x: Word): Word { x >> 24 }
  function Shift28(x: Word): Word { x >> 28 }

  function LowByte(x: Word): Word { x & 0xFF }

  /** No NUL, newline or colon. */
  predicate NoSeparator(s: seq<Byte>) {
    forall k :: 0 <= k < |s| ==> s[k] != 0 && s[k] != 10 && s[k] != 58
  }

  /** Eight digits, the most significant first. */
  function HexWord(w: Word): (s: seq<Byte>)
    ensures |s| == 8 && NoSeparator(s)
  {
    [HexDigit(Shift28(w)), HexDigit(Shift24(w)), HexDigit(Shift20(w)), HexDigit(Shift16(w)),
     HexDigit(Shift12(w)), HexDigit(Shift8(w)), HexDigit(Shift4(w)), HexDigit(w)]
  }

  function HexText(ws: seq<Word>): (s: seq<Byte>)
    ensures |s| == 8 * |ws| && NoSeparator(s)
  {
    if ws == [] then [] else HexText(ws[..|ws| - 1]) + HexWord(ws[|ws| - 1])
  }

  /** The digest as sha256 writes it into its output buffer. */
  function Sha256Text(m: seq<Byte>): (s: seq<Byte>)
    ensures |s| == 64 && NoSeparator(s)
  {
    HexText(Digest(m))
  }

  /** write_word. */
  function WriteWord(w: Word): (r: seq<Word>)
    ensures |r| == 4
  {
    [LowByte(Shift24(w)), LowByte(Shift16(w)), LowByte(Shift8(w)), LowByte(w)]
  }

  function Pair(b: Word): (s: seq<Byte>)
    ensures |s| == 2
  {
    [HexDigit(Shift4(b)), HexDigit(b)]
  }

  /** Two digits for each byte. */
  function HexBytes(bytes: seq<Word>): (s: seq<Byte>)
    ensures |s| == 2 * |bytes|
  {
    if bytes == [] then [] else HexBytes(bytes[..|bytes| - 1]) + Pair(bytes[|bytes| - 1])
  }

  lemma HexBytesMore(r: seq<Word>, n: nat)
    requires n < |r|
    ensures HexBytes(r[..n + 1]) == HexBytes(r[..n]) + Pair(r[n])
  {
    hide Pair;
    assert r[..n + 1][..n] == r[..n];
  }

  lemma FourBytes(r: seq<Word>)
    requires |r| == 4
    ensures HexBytes(r) == Pair(r[0]) + Pair(r[1]) + Pair(r[2]) + Pair(r[3])
  {
    hide Pair, HexBytes;
    HexBytesMore(r, 0);
    HexBytesMore(r, 1);
    HexBytesMore(r, 2);
    HexBytesMore(r, 3);
    NoBytes();
    assert r[..4] == r && r[..0] == [];
  }

  lemma NoBytes()
    ensures HexBytes([]) == []
  {
  }

  lemma DigitsOfBytes(w: Word)
    ensures HexWord(w) == HexBytes(WriteWord(w))
  {
    hide HexBytes, HexDigit, Pair, Shift4, Shift8, Shift12, Shift16, Shift20, Shift24, Shift28, LowByte;
    FourBytes(WriteWord(w));
    ShiftMore(w);
    PairOf(Shift24(w));
    PairOf(Shift16(w));
    PairOf(Shift8(w));
    PairOf(w);
  }

  lemma PairOf(x: Word)
    ensures Pair(LowByte(x)) == [HexDigit(Shift4(x)), HexDigit(x)]
  {
    ByteDigits(x);
  }

  lemma ByteDigits(x: Word)
    ensures ((x & 0xFF) >> 4) & 0xF == (x >> 4) & 0xF && (x & 0xFF) & 0xF == x & 0xF
  {
  }

  lemma ShiftMore(w: Word)
    ensures Shift4(Shift24(w)) == Shift28(w) && Shift4(Shift16(w)) == Shift20(w)
    ensures Shift4(Shift8(w)) == Shift12(w)
  {
  }

  /** The inner loop of the output of sha256: the digits of one word from index `at` on. */
  method PutHex(w: Word, output: array<Byte>, at: nat)
    requires at + 8 <= output.Length
    modifies output
    ensures output[..at + 8] == old(output[..at]) + HexWord(w)
  {
    hide HexDigit, WriteWord, HexWord, HexBytes, Shift4;
    NoBytes();
    var bytes := WriteWord(w);
    for j := 0 to 4
      invariant output[..at + 2 * j] == old(output[..at]) + HexBytes(bytes[..j])
    {
      ghost var front := output[..at + 2 * j];
      output[at + 2 * j] := HexDigit(Shift4(bytes[j]));
      output[at + 2 * j + 1] := HexDigit(bytes[j]);
      assert output[..at + 2 * j] == front;
      assert output[..at + 2 * (j + 1)] == front + Pair(bytes[j]);
      HexBytesMore(bytes, j);
    }
    assert bytes[..4] == bytes;
    DigitsOfBytes(w);
  }

  /** sha256 with its output: 64 hexadecimal digits and a NUL. */
  method Sha256(input: seq<Byte>, output: array<Byte>)
    requires output.Length == 65
    modifies output
    ensures output[..64] == Sha256Text(input) && output[64] == 0
  {
    hide HexWord, Digest;
    var state := Hash(input);
    ghost var digest := state[..];
    for i := 0 to 8
      invariant state[..] == digest && output[..8 * i] == HexText(digest[..i])
    {
      PutHex(state[i], output, 8 * i);
      assert digest[..i + 1][..i] == digest[..i];
    }
    assert digest[..8] == digest;
    output[64] := 0;
  }
}
