/** net_checksum, and what it is used for: sealing IP headers and TCP segments (RFC 1071 section 1,
    RFC 9293 section 3.1). */
module Checksum {
  import opened Bytes

  const WORD := 0x1_0000
  const ONES := 0xFFFF

  /** The two bytes of a 16-bit field in network order. */
  function Be16(v: nat): (r: seq<Byte>)
    requires v < WORD
    ensures |r| == 2
  {
    [v / 256, v % 256]
  }

  function Be32(v: nat): (r: seq<Byte>)
    requires v < 0x1_0000_0000
    ensures |r| == 4
  {
    Be16(v / WORD) + Be16(v % WORD)
  }

  function ReadBe16(s: seq<Byte>, o: nat): (v: nat)
    requires o + 2 <= |s|
    ensures v < WORD
  {
    256 * (s[o] as int) + (s[o + 1] as int)
  }

  function ReadBe32(s: seq<Byte>, o: nat): (v: nat)
    requires o + 4 <= |s|
    ensures v < 0x1_0000_0000
  {
    WORD * ReadBe16(s, o) + ReadBe16(s, o + 2)
  }

  /** net_htons. */
  function Htons(v: nat): (r: nat)
    requires v < WORD
    ensures r < WORD
  {
    v * 256 % WORD + v / 256
  }

  /** A field assigned net_htons(v) holds v in network order: the machine stores its low byte first. */
  lemma HtonsStores(v: nat)
    requires v < WORD
    ensures Le16(Htons(v)) == Be16(v) && Htons(Htons(v)) == v
  {
    var h, l := v / 256, v % 256;
    assert v == 256 * h + l && v * 256 % WORD == l * 256;
    assert Htons(v) == 256 * l + h;
    assert Htons(v) * 256 % WORD == h * 256;
  }

  // ---- the sum ----

  /** The sum of the 16-bit words; an odd last byte counts as the high byte of a word. */
  function WordSum(s: seq<Byte>): nat {
    if |s| == 0 then 0
    else if |s| == 1 then 256 * (s[0] as int)
    else ReadBe16(s, 0) + WordSum(s[2..])
  }

  /** End-around carry: the only number up to 0xFFFF that is congruent to `n` modulo 0xFFFF and is zero
      only when `n` is. */
  function Folded(n: nat): (r: nat)
    ensures r <= ONES
  {
    if n == 0 then 0 else (n - 1) % ONES + 1
  }

  /** net_checksum: the one's complement of the one's complement sum. */
  function Sum16(s: seq<Byte>, initial: nat): (r: nat)
    ensures r <= ONES
  {
    ONES - Folded(initial + WordSum(s))
  }

  lemma {:induction false} WordSumAppend(a: seq<Byte>, b: seq<Byte>)
    requires |a| % 2 == 0
    ensures WordSum(a + b) == WordSum(a) + WordSum(b)
  {
    if a == [] {
      assert a + b == b;
    } else {
      assert (a + b)[2..] == a[2..] + b;
      WordSumAppend(a[2..], b);
    }
  }

  lemma {:induction false} WordSumBound(s: seq<Byte>)
    ensures WordSum(s) <= ONES * ((|s| + 1) / 2)
  {
    if |s| > 1 {
      WordSumBound(s[2..]);
    }
  }

  /** Folding once keeps the sum. */
  lemma FoldOnce(n: nat)
    ensures Folded(n % WORD + n / WORD) == Folded(n)
    ensures n >= WORD ==> n % WORD + n / WORD < n
  {
    var q, r := n / WORD, n % WORD;
    assert n == q * ONES + (q + r);
    if q + r > 0 {
      assert n - 1 == q * ONES + (q + r - 1);
      ModAdd(q, q + r - 1);
    }
  }

  lemma ModAdd(q: nat, x: nat)
    ensures (q * ONES + x) % ONES == x % ONES
  {
    assert x == x / ONES * ONES + x % ONES;
    assert q * ONES + x == (q + x / ONES) * ONES + x % ONES;
  }

  /** A message of odd length is summed as if a zero byte followed. */
  lemma {:induction false} OddByte(s: seq<Byte>)
    requires |s| % 2 == 1
    ensures WordSum(s) == WordSum(s + [0])
    decreases |s|
  {
    if |s| == 1 {
      assert (s + [0])[2..] == [];
    } else {
      assert (s + [0])[2..] == s[2..] + [0];
      OddByte(s[2..]);
    }
  }

  /** What folding means: there is one such number. */
  lemma FoldedIs(n: nat, r: nat)
    ensures r == Folded(n) <==> r <= 0xFFFF && (n - r) % 0xFFFF == 0 && (r == 0 <==> n == 0)
  {
    var f := Folded(n);
    assert n > 0 ==> n - f == (n - 1) / 0xFFFF * 0xFFFF;
    assert (n - f) % 0xFFFF == 0 by {
      MultipleOf((n - f) / 0xFFFF, n - f);
    }
    if r <= 0xFFFF && (n - r) % 0xFFFF == 0 && (r == 0 <==> n == 0) {
      var a, b := (n - r) / 0xFFFF, (n - f) / 0xFFFF;
      assert n - r == a * 0xFFFF && n - f == b * 0xFFFF;
      assert f - r == (a - b) * 0xFFFF;
    }
  }

  lemma MultipleOf(q: int, x: int)
    ensures x == q * 0xFFFF ==> x % 0xFFFF == 0
  {
  }

  /** The example of section 3 of RFC 1071. */
  lemma Example()
    ensures Sum16([0x00, 0x01, 0xf2, 0x03, 0xf4, 0xf5, 0xf6, 0xf7], 0) == 0x220d
  {
    var s := [0x00, 0x01, 0xf2, 0x03, 0xf4, 0xf5, 0xf6, 0xf7];
    assert s[2..] == [0xf2, 0x03, 0xf4, 0xf5, 0xf6, 0xf7];
    assert s[2..][2..] == [0xf4, 0xf5, 0xf6, 0xf7];
    assert s[2..][2..][2..] == [0xf6, 0xf7];
    assert s[2..][2..][2..][2..] == [];
    assert WordSum(s[2..][2..][2..]) == 0xf6f7;
    assert WordSum(s[2..][2..]) == 0xf4f5 + 0xf6f7;
    assert WordSum(s[2..]) == 0xf203 + 0xf4f5 + 0xf6f7;
  }

  lemma FoldedSmall(n: nat)
    requires n < WORD
    ensures Folded(n) == n
  {
  }

  /** net_checksum. */
  method NetChecksum(bytes: seq<Byte>, initial: nat) returns (checksum: nat)
    requires initial + WordSum(bytes) < 0x1_0000_0000
    ensures checksum == Sum16(bytes, initial)
  {
    var sum: nat, at: nat, length: nat := initial, 0, |bytes|;
    assert bytes[0..] == bytes;
    hide Folded;
    while length > 1
      invariant at + length == |bytes| && sum + WordSum(bytes[at..]) == initial + WordSum(bytes)
    {
      assert bytes[at..][2..] == bytes[at + 2..];
      assert WordSum(bytes[at..]) == ReadBe16(bytes, at) + WordSum(bytes[at + 2..]);
      sum := (sum + (256 * (bytes[at] as int) + bytes[at + 1] as int)) % 0x1_0000_0000;
      at, length := at + 2, length - 2;
    }
    if length == 1 {
      sum := (sum + 256 * (bytes[at] as int)) % 0x1_0000_0000;
    }
    while sum / WORD != 0
      invariant Folded(sum) == Folded(initial + WordSum(bytes))
      decreases sum
    {
      FoldOnce(sum);
      sum := sum % WORD + sum / WORD;
    }
    FoldedSmall(sum);
    return ONES - sum;
  }

  // ---- sealing ----

  /** Two bytes at an even offset count as one word. */
  lemma WordSumSplit(s: seq<Byte>, o: nat)
    requires o % 2 == 0 && o + 2 <= |s|
    ensures WordSum(s) == WordSum(s[..o]) + ReadBe16(s, o) + WordSum(s[o + 2..])
  {
    assert s == s[..o] + s[o..];
    WordSumAppend(s[..o], s[o..]);
    assert s[o..][2..] == s[o + 2..];
  }

  /** A packet whose even-offset checksum field was zero sums to zero once the checksum is stored there. */
  lemma SealedVerifies(s: seq<Byte>, o: nat, initial: nat)
    requires o % 2 == 0 && o + 2 <= |s| && s[o] == 0 && s[o + 1] == 0
    ensures Sum16(Splice(s, o, Be16(Sum16(s, initial))), initial) == 0
  {
    var c := Sum16(s, initial);
    var t := Splice(s, o, Be16(c));
    WordSumSplit(s, o);
    WordSumSplit(t, o);
    assert t[o..o + 2] == Be16(c);
    assert ReadBe16(t, o) == c;
    var n := initial + WordSum(s);
    assert initial + WordSum(t) == n + ONES - Folded(n);
    ComplementFolds(n);
  }

  lemma ComplementFolds(n: nat)
    ensures Folded(n + ONES - Folded(n)) == ONES
  {
    if n > 0 {
      var q := (n - 1) / ONES;
      assert n - 1 == q * ONES + (n - 1) % ONES;
      assert n + ONES - Folded(n) - 1 == q * ONES + (ONES - 1);
      ModAdd(q, ONES - 1);
    }
  }

  /** The last steps of ip_send and tcp_send_segment: clear the field, sum, store in network order. */
  method Seal(packet: array<Byte>, length: nat, o: nat, initial: nat)
    requires o % 2 == 0 && o + 2 <= length <= packet.Length && length < WORD && initial < 0x8000_0000
    modifies packet
    ensures Sum16(packet[..length], initial) == 0
    ensures packet[..o] == old(packet[..o]) && packet[o + 2..] == old(packet[o + 2..])
  {
    packet[o], packet[o + 1] := 0, 0;
    ghost var s := packet[..length];
    WordSumBound(s);
    var checksum := NetChecksum(packet[..length], initial);
    var field := Htons(checksum);
    HtonsStores(checksum);
    packet[o], packet[o + 1] := field % 256, field / 256;
    SealedVerifies(s, o, initial);
    assert Le16(field) == Be16(checksum);
    assert packet[..length] == Splice(s, o, Be16(checksum));
  }

  // ---- the pseudo-header ----

  /** What a TCP segment is summed together with. */
  function PseudoHeader(local: nat, remote: nat, protocol: Byte, length: nat): (r: seq<Byte>)
    requires local < 0x1_0000_0000 && remote < 0x1_0000_0000 && length < WORD
    ensures |r| == 12
  {
    Be32(local) + Be32(remote) + [0, protocol] + Be16(length)
  }

  /** The sum tcp_send_segment starts from. */
  function PseudoSum(local: nat, remote: nat, protocol: Byte, length: nat): nat
  {
    local / WORD % WORD + local % WORD + remote / WORD % WORD + remote % WORD + protocol + length
  }

  lemma FieldSum(v: nat, rest: seq<Byte>)
    requires v < WORD
    ensures WordSum(Be16(v) + rest) == v + WordSum(rest)
  {
    assert (Be16(v) + rest)[2..] == rest;
    assert v == 256 * (v / 256) + v % 256;
  }

  lemma ByteField(b: Byte)
    ensures Be16(b) == [0, b]
  {
  }

  /** Seeding the checksum with the pseudo-sum is checksumming the pseudo-header and the segment. */
  lemma PseudoSumSeeds(local: nat, remote: nat, protocol: Byte, segment: seq<Byte>)
    requires local < 0x1_0000_0000 && remote < 0x1_0000_0000 && |segment| < WORD
    ensures Sum16(segment, PseudoSum(local, remote, protocol, |segment|))
         == Sum16(PseudoHeader(local, remote, protocol, |segment|) + segment, 0)
  {
    hide WordSum, Folded, Be16;
    var n := |segment|;
    var e := Be16(n) + segment;
    var d := Be16(protocol) + e;
    var c := Be16(remote % WORD) + d;
    var b := Be16(remote / WORD) + c;
    var a := Be16(local % WORD) + b;
    FieldSum(n, segment);
    FieldSum(protocol, e);
    FieldSum(remote % WORD, d);
    FieldSum(remote / WORD, c);
    FieldSum(local % WORD, b);
    FieldSum(local / WORD, a);
    var pseudo := PseudoHeader(local, remote, protocol, n);
    ByteField(protocol);
    assert pseudo + segment == Be16(local / WORD) + a;
    assert local / WORD % WORD == local / WORD && remote / WORD % WORD == remote / WORD;
  }
}
