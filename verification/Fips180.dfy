/** What the hash is made of, told apart from every other choice: the constants of sections 4.2.2 and 5.3.3 of
    FIPS 180-4 by roots of primes, and one compression by the digest of "abc". */
module Fips180 {
  import opened Bytes
  import opened Sha256

  // ---- the first 64 primes ----

  predicate Prime(n: nat) {
    n >= 2 && forall d :: 2 <= d < n ==> n % d != 0
  }

  predicate NextPrime(p: nat, q: nat) {
    p < q && Prime(q) && forall n :: p < n < q ==> !Prime(n)
  }

  /** Eight to a row. */
  const PRIMES: seq<seq<nat>> := [
    [2, 3, 5, 7, 11, 13, 17, 19],
    [23, 29, 31, 37, 41, 43, 47, 53],
    [59, 61, 67, 71, 73, 79, 83, 89],
    [97, 101, 103, 107, 109, 113, 127, 131],
    [137, 139, 149, 151, 157, 163, 167, 173],
    [179, 181, 191, 193, 197, 199, 211, 223],
    [227, 229, 233, 239, 241, 251, 257, 263],
    [269, 271, 277, 281, 283, 293, 307, 311]]

  function PrimeAt(t: nat): nat
    requires t < 64
  {
    PRIMES[t / 8][t % 8]
  }

  /** No prime up to 17 divides `n`, unless it is `n`. */
  predicate Sieved(n: nat) {
    || n in {2, 3, 5, 7, 11, 13, 17}
    || (n % 2 != 0 && n % 3 != 0 && n % 5 != 0 && n % 7 != 0 && n % 11 != 0 && n % 13 != 0 && n % 17 != 0)
  }

  lemma Divides(n: nat, d: nat, e: nat)
    requires n == d * e && d > 0
    ensures n % d == 0 && n / d == e
  {
    Multiple(e, d);
  }

  lemma Multiple(q: nat, d: nat)
    requires d > 0
    ensures q * d % d == 0 && q * d / d == q
  {
    var x := q * d;
    assert x == x / d * d + x % d;
    assert (q - x / d) * d == x % d;
    Smaller(q - x / d, d, x % d);
  }

  lemma Smaller(a: int, d: nat, r: nat)
    requires a * d == r < d
    ensures a == 0
  {
    AtLeastOnce(a, d);
    AtLeastOnce(-a, d);
    assert (-a) * d == -(a * d);
  }

  lemma AtLeastOnce(a: int, d: nat)
    ensures a >= 1 ==> a * d >= d
  {
    if a >= 1 {
      NotNegative(a - 1, d);
      assert a * d == (a - 1) * d + d;
    }
  }

  lemma NotNegative(a: nat, b: nat)
    ensures a * b >= 0
  {
  }

  /** A number from 2 to 17 has one of the seven as a factor. */
  lemma SmallFactor(d: nat) returns (p: nat, k: nat)
    requires 2 <= d <= 17
    ensures p in {2, 3, 5, 7, 11, 13, 17} && d == p * k && p <= d
  {
    p := if d % 2 == 0 then 2 else if d % 3 == 0 then 3 else if d % 5 == 0 then 5 else if d % 7 == 0 then 7 else d;
    k := d / p;
  }

  /** A divisor that is not too big shows in the sieve. */
  lemma DivisorSieved(n: nat, d: nat, e: nat)
    requires n == d * e && 2 <= d <= 17 && d < n
    ensures !Sieved(n) || n in {2, 3, 5, 7, 11, 13, 17}
  {
    var p, k := SmallFactor(d);
    assert n == p * (k * e);
    Divides(n, p, k * e);
  }

  lemma OneIsSmall(n: nat, d: nat, e: nat)
    requires n == d * e && n < 324 && d > 17
    ensures e <= 17
  {
    if e > 17 {
      assert d * e == 18 * 18 + 18 * (e - 18) + (d - 18) * e;
      NotNegative(d - 18, e);
    }
  }

  lemma SevenArePrime(n: nat)
    ensures n in {2, 3, 5, 7, 11, 13, 17} ==> Prime(n)
  {
  }

  /** Up to 18 squared, the sieve leaves the primes. */
  lemma SieveLeavesPrimes(n: nat)
    requires 2 <= n < 324
    ensures Sieved(n) <==> Prime(n)
  {
    SevenArePrime(n);
    if Sieved(n) && n !in {2, 3, 5, 7, 11, 13, 17} {
      forall d | 2 <= d < n
        ensures n % d != 0
      {
        if n % d == 0 {
          var e := n / d;
          assert n == d * e;
          if d <= 17 {
            DivisorSieved(n, d, e);
          } else {
            OneIsSmall(n, d, e);
            NotOne(n, d, e);
            assert n == e * d;
            DivisorSieved(n, e, d);
          }
          assert false;
        }
      }
    }
    if !Sieved(n) {
      NotSieved(n);
    }
  }

  lemma NotOne(n: nat, d: nat, e: nat)
    requires n == d * e && 2 <= d < n
    ensures 2 <= e < n
  {
    assert e >= n ==> d * e >= 2 * e by {
      NotNegative(d - 2, e);
      assert d * e == 2 * e + (d - 2) * e;
    }
  }

  lemma NotSieved(n: nat)
    requires 2 <= n && !Sieved(n)
    ensures !Prime(n)
  {
    var p := if n % 2 == 0 then 2 else if n % 3 == 0 then 3 else if n % 5 == 0 then 5 else if n % 7 == 0 then 7
             else if n % 11 == 0 then 11 else if n % 13 == 0 then 13 else 17;
    assert n % p == 0 && 2 <= p < n;
  }

  /** The sieve leaves nothing between `p` and `q`. */
  predicate Gap(p: nat, q: nat)
    decreases q - p
  {
    p + 1 >= q || (!Sieved(p + 1) && Gap(p + 1, q))
  }

  lemma {:induction false} InGap(p: nat, q: nat, n: nat)
    requires Gap(p, q) && p < n < q
    ensures !Sieved(n)
    decreases q - p
  {
    if n > p + 1 {
      InGap(p + 1, q, n);
    }
  }

  lemma NextIsPrime(t: nat, p: nat, q: nat)
    requires t < 63 && PrimeAt(t) == p && PrimeAt(t + 1) == q
    requires 2 <= p < q < 324 && Sieved(q) && Gap(p, q)
    ensures NextPrime(PrimeAt(t), PrimeAt(t + 1))
  {
    hide Sieved, Prime, PrimeAt;
    SieveLeavesPrimes(q);
    forall n | p < n < q
      ensures !Prime(n)
    {
      SieveLeavesPrimes(n);
      InGap(p, q, n);
    }
  }

  lemma PrimeRow0()
    ensures PrimeAt(0) == 2 && PrimeAt(1) == 3 && PrimeAt(2) == 5 && PrimeAt(3) == 7
    ensures PrimeAt(4) == 11 && PrimeAt(5) == 13 && PrimeAt(6) == 17 && PrimeAt(7) == 19 && PrimeAt(8) == 23
  {
  }

  lemma Row0()
    ensures forall t :: 0 <= t < 8 ==> NextPrime(PrimeAt(t), PrimeAt(t + 1))
  {
    hide NextPrime, PrimeAt;
    PrimeRow0();
    NextIsPrime(0, 2, 3);
    NextIsPrime(1, 3, 5);
    NextIsPrime(2, 5, 7);
    NextIsPrime(3, 7, 11);
    NextIsPrime(4, 11, 13);
    NextIsPrime(5, 13, 17);
    NextIsPrime(6, 17, 19);
    NextIsPrime(7, 19, 23);
  }

  lemma PrimeRow1()
    ensures PrimeAt(8) == 23 && PrimeAt(9) == 29 && PrimeAt(10) == 31 && PrimeAt(11) == 37
    ensures PrimeAt(12) == 41 && PrimeAt(13) == 43 && PrimeAt(14) == 47 && PrimeAt(15) == 53 && PrimeAt(16) == 59
  {
  }

  lemma Row1()
    ensures forall t :: 8 <= t < 16 ==> NextPrime(PrimeAt(t), PrimeAt(t + 1))
  {
    hide NextPrime, PrimeAt;
    PrimeRow1();
    NextIsPrime(8, 23, 29);
    NextIsPrime(9, 29, 31);
    NextIsPrime(10, 31, 37);
    NextIsPrime(11, 37, 41);
    NextIsPrime(12, 41, 43);
    NextIsPrime(13, 43, 47);
    NextIsPrime(14, 47, 53);
    NextIsPrime(15, 53, 59);
  }

  lemma PrimeRow2()
    ensures PrimeAt(16) == 59 && PrimeAt(17) == 61 && PrimeAt(18) == 67 && PrimeAt(19) == 71
    ensures PrimeAt(20) == 73 && PrimeAt(21) == 79 && PrimeAt(22) == 83 && PrimeAt(23) == 89 && PrimeAt(24) == 97
  {
  }

  lemma Row2()
    ensures forall t :: 16 <= t < 24 ==> NextPrime(PrimeAt(t), PrimeAt(t + 1))
  {
    hide NextPrime, PrimeAt;
    PrimeRow2();
    NextIsPrime(16, 59, 61);
    NextIsPrime(17, 61, 67);
    NextIsPrime(18, 67, 71);
    NextIsPrime(19, 71, 73);
    NextIsPrime(20, 73, 79);
    NextIsPrime(21, 79, 83);
    NextIsPrime(22, 83, 89);
    NextIsPrime(23, 89, 97);
  }

  lemma PrimeRow3()
    ensures PrimeAt(24) == 97 && PrimeAt(25) == 101 && PrimeAt(26) == 103 && PrimeAt(27) == 107
    ensures PrimeAt(28) == 109 && PrimeAt(29) == 113 && PrimeAt(30) == 127 && PrimeAt(31) == 131 && PrimeAt(32) == 137
  {
  }

  lemma Row3()
    ensures forall t :: 24 <= t < 32 ==> NextPrime(PrimeAt(t), PrimeAt(t + 1))
  {
    hide NextPrime, PrimeAt;
    PrimeRow3();
    NextIsPrime(24, 97, 101);
    NextIsPrime(25, 101, 103);
    NextIsPrime(26, 103, 107);
    NextIsPrime(27, 107, 109);
    NextIsPrime(28, 109, 113);
    NextIsPrime(29, 113, 127);
    NextIsPrime(30, 127, 131);
    NextIsPrime(31, 131, 137);
  }

  lemma PrimeRow4()
    ensures PrimeAt(32) == 137 && PrimeAt(33) == 139 && PrimeAt(34) == 149 && PrimeAt(35) == 151
    ensures PrimeAt(36) == 157 && PrimeAt(37) == 163 && PrimeAt(38) == 167 && PrimeAt(39) == 173 && PrimeAt(40) == 179
  {
  }

  lemma Row4()
    ensures forall t :: 32 <= t < 40 ==> NextPrime(PrimeAt(t), PrimeAt(t + 1))
  {
    hide NextPrime, PrimeAt;
    PrimeRow4();
    NextIsPrime(32, 137, 139);
    NextIsPrime(33, 139, 149);
    NextIsPrime(34, 149, 151);
    NextIsPrime(35, 151, 157);
    NextIsPrime(36, 157, 163);
    NextIsPrime(37, 163, 167);
    NextIsPrime(38, 167, 173);
    NextIsPrime(39, 173, 179);
  }

  lemma PrimeRow5()
    ensures PrimeAt(40) == 179 && PrimeAt(41) == 181 && PrimeAt(42) == 191 && PrimeAt(43) == 193
    ensures PrimeAt(44) == 197 && PrimeAt(45) == 199 && PrimeAt(46) == 211 && PrimeAt(47) == 223 && PrimeAt(48) == 227
  {
  }

  lemma Row5()
    ensures forall t :: 40 <= t < 48 ==> NextPrime(PrimeAt(t), PrimeAt(t + 1))
  {
    hide NextPrime, PrimeAt;
    PrimeRow5();
    NextIsPrime(40, 179, 181);
    NextIsPrime(41, 181, 191);
    NextIsPrime(42, 191, 193);
    NextIsPrime(43, 193, 197);
    NextIsPrime(44, 197, 199);
    NextIsPrime(45, 199, 211);
    NextIsPrime(46, 211, 223);
    NextIsPrime(47, 223, 227);
  }

  lemma PrimeRow6()
    ensures PrimeAt(48) == 227 && PrimeAt(49) == 229 && PrimeAt(50) == 233 && PrimeAt(51) == 239
    ensures PrimeAt(52) == 241 && PrimeAt(53) == 251 && PrimeAt(54) == 257 && PrimeAt(55) == 263 && PrimeAt(56) == 269
  {
  }

  lemma Row6()
    ensures forall t :: 48 <= t < 56 ==> NextPrime(PrimeAt(t), PrimeAt(t + 1))
  {
    hide NextPrime, PrimeAt;
    PrimeRow6();
    NextIsPrime(48, 227, 229);
    NextIsPrime(49, 229, 233);
    NextIsPrime(50, 233, 239);
    NextIsPrime(51, 239, 241);
    NextIsPrime(52, 241, 251);
    NextIsPrime(53, 251, 257);
    NextIsPrime(54, 257, 263);
    NextIsPrime(55, 263, 269);
  }

  lemma PrimeRow7()
    ensures PrimeAt(56) == 269 && PrimeAt(57) == 271 && PrimeAt(58) == 277 && PrimeAt(59) == 281
    ensures PrimeAt(60) == 283 && PrimeAt(61) == 293 && PrimeAt(62) == 307 && PrimeAt(63) == 311
  {
  }

  lemma Row7()
    ensures forall t :: 56 <= t < 63 ==> NextPrime(PrimeAt(t), PrimeAt(t + 1))
  {
    hide NextPrime, PrimeAt;
    PrimeRow7();
    NextIsPrime(56, 269, 271);
    NextIsPrime(57, 271, 277);
    NextIsPrime(58, 277, 281);
    NextIsPrime(59, 281, 283);
    NextIsPrime(60, 283, 293);
    NextIsPrime(61, 293, 307);
    NextIsPrime(62, 307, 311);
  }

  /** The table begins with the first prime and goes on with the next one each time. */
  lemma FirstPrimes()
    ensures PrimeAt(0) == 2 && Prime(2) && forall n :: n < 2 ==> n < 0 || !Prime(n)
    ensures forall t :: 0 <= t < 63 ==> NextPrime(PrimeAt(t), PrimeAt(t + 1))
  {
    hide NextPrime;
    Row0();
    Row1();
    Row2();
    Row3();
    Row4();
    Row5();
    Row6();
    Row7();
  }

  // ---- the constants ----

  function Square(x: nat): nat { x * x }
  function Cube(x: nat): nat { x * x * x }

  const TWO32 := 0x1_0000_0000

  /** `h` is the first 32 bits of the fraction of the square root of `p`, whose integer part is `n`. */
  predicate SquareRootBits(p: nat, n: nat, h: nat) {
    && Square(n) <= p < Square(n + 1) && h < TWO32
    && Square(n * TWO32 + h) <= p * Square(TWO32) < Square(n * TWO32 + h + 1)
  }

  /** The same for the cube root. */
  predicate CubeRootBits(p: nat, n: nat, k: nat) {
    && Cube(n) <= p < Cube(n + 1) && k < TWO32
    && Cube(n * TWO32 + k) <= p * Cube(TWO32) < Cube(n * TWO32 + k + 1)
  }

  function Initial(t: nat): nat
    requires t < 8
  {
    H0[t] as nat
  }

  function RoundConstant(t: nat): nat
    requires t < 64
  {
    Constant(t) as nat
  }

  lemma InitialIs(t: nat, n: nat, h: nat)
    requires t < 8 && Initial(t) == h && Square(n) <= PrimeAt(t) < Square(n + 1)
    requires var x := n * 0x1_0000_0000 + h;
      Square(x) <= PrimeAt(t) * 0x1_0000_0000_0000_0000 < Square(x + 1)
    ensures exists m :: SquareRootBits(PrimeAt(t), m, Initial(t))
  {
    assert SquareRootBits(PrimeAt(t), n, h);
  }

  /** Each initial value is the first 32 bits of the fraction of the square root of its prime. */
  lemma InitialValues()
    ensures |H0| == 8 && forall t :: 0 <= t < 8 ==> exists n :: SquareRootBits(PrimeAt(t), n, Initial(t))
  {
    hide SquareRootBits;
    InitialIs(0, 1, 0x6a09e667);
    InitialIs(1, 1, 0xbb67ae85);
    InitialIs(2, 2, 0x3c6ef372);
    InitialIs(3, 2, 0xa54ff53a);
    InitialIs(4, 3, 0x510e527f);
    InitialIs(5, 3, 0x9b05688c);
    InitialIs(6, 4, 0x1f83d9ab);
    InitialIs(7, 4, 0x5be0cd19);
  }

  /** Round constant `t` is the first 32 bits of the fraction of the cube root of prime `t`. */
  ghost predicate RightConstant(t: nat)
    requires t < 64
  {
    exists n :: CubeRootBits(PrimeAt(t), n, RoundConstant(t))
  }

  lemma ConstantIs(t: nat, p: nat, n: nat, k: nat)
    requires t < 64 && PrimeAt(t) == p && RoundConstant(t) == k && k < TWO32 && Cube(n) <= p < Cube(n + 1)
    requires var x := n * 0x1_0000_0000 + k;
      Cube(x) <= p * 0x1_0000_0000_0000_0000_0000_0000 < Cube(x + 1)
    ensures RightConstant(t)
  {
    assert CubeRootBits(PrimeAt(t), n, k);
  }

  lemma ConstantRow0()
    ensures RoundConstant(0) == 0x428a2f98 && RoundConstant(1) == 0x71374491
    ensures RoundConstant(2) == 0xb5c0fbcf && RoundConstant(3) == 0xe9b5dba5
  {
  }

  lemma ConstantRow4()
    ensures RoundConstant(4) == 0x3956c25b && RoundConstant(5) == 0x59f111f1
    ensures RoundConstant(6) == 0x923f82a4 && RoundConstant(7) == 0xab1c5ed5
  {
  }

  lemma Constants0()
    ensures forall t :: 0 <= t < 8 ==> RightConstant(t)
  {
    hide RightConstant, RoundConstant, PrimeAt;
    PrimeRow0();
    ConstantRow0();
    ConstantRow4();
    ConstantIs(0, 2, 1, 0x428a2f98);
    ConstantIs(1, 3, 1, 0x71374491);
    ConstantIs(2, 5, 1, 0xb5c0fbcf);
    ConstantIs(3, 7, 1, 0xe9b5dba5);
    ConstantIs(4, 11, 2, 0x3956c25b);
    ConstantIs(5, 13, 2, 0x59f111f1);
    ConstantIs(6, 17, 2, 0x923f82a4);
    ConstantIs(7, 19, 2, 0xab1c5ed5);
  }

  lemma ConstantRow8()
    ensures RoundConstant(8) == 0xd807aa98 && RoundConstant(9) == 0x12835b01
    ensures RoundConstant(10) == 0x243185be && RoundConstant(11) == 0x550c7dc3
  {
  }

  lemma ConstantRow12()
    ensures RoundConstant(12) == 0x72be5d74 && RoundConstant(13) == 0x80deb1fe
    ensures RoundConstant(14) == 0x9bdc06a7 && RoundConstant(15) == 0xc19bf174
  {
  }

  lemma Constants1()
    ensures forall t :: 8 <= t < 16 ==> RightConstant(t)
  {
    hide RightConstant, RoundConstant, PrimeAt;
    PrimeRow1();
    ConstantRow8();
    ConstantRow12();
    ConstantIs(8, 23, 2, 0xd807aa98);
    ConstantIs(9, 29, 3, 0x12835b01);
    ConstantIs(10, 31, 3, 0x243185be);
    ConstantIs(11, 37, 3, 0x550c7dc3);
    ConstantIs(12, 41, 3, 0x72be5d74);
    ConstantIs(13, 43, 3, 0x80deb1fe);
    ConstantIs(14, 47, 3, 0x9bdc06a7);
    ConstantIs(15, 53, 3, 0xc19bf174);
  }

  lemma ConstantRow16()
    ensures RoundConstant(16) == 0xe49b69c1 && RoundConstant(17) == 0xefbe4786
    ensures RoundConstant(18) == 0x0fc19dc6 && RoundConstant(19) == 0x240ca1cc
  {
  }

  lemma ConstantRow20()
    ensures RoundConstant(20) == 0x2de92c6f && RoundConstant(21) == 0x4a7484aa
    ensures RoundConstant(22) == 0x5cb0a9dc && RoundConstant(23) == 0x76f988da
  {
  }

  lemma Constants2()
    ensures forall t :: 16 <= t < 24 ==> RightConstant(t)
  {
    hide RightConstant, RoundConstant, PrimeAt;
    PrimeRow2();
    ConstantRow16();
    ConstantRow20();
    ConstantIs(16, 59, 3, 0xe49b69c1);
    ConstantIs(17, 61, 3, 0xefbe4786);
    ConstantIs(18, 67, 4, 0x0fc19dc6);
    ConstantIs(19, 71, 4, 0x240ca1cc);
    ConstantIs(20, 73, 4, 0x2de92c6f);
    ConstantIs(21, 79, 4, 0x4a7484aa);
    ConstantIs(22, 83, 4, 0x5cb0a9dc);
    ConstantIs(23, 89, 4, 0x76f988da);
  }

  lemma ConstantRow24()
    ensures RoundConstant(24) == 0x983e5152 && RoundConstant(25) == 0xa831c66d
    ensures RoundConstant(26) == 0xb00327c8 && RoundConstant(27) == 0xbf597fc7
  {
  }

  lemma ConstantRow28()
    ensures RoundConstant(28) == 0xc6e00bf3 && RoundConstant(29) == 0xd5a79147
    ensures RoundConstant(30) == 0x06ca6351 && RoundConstant(31) == 0x14292967
  {
  }

  lemma Constants3()
    ensures forall t :: 24 <= t < 32 ==> RightConstant(t)
  {
    hide RightConstant, RoundConstant, PrimeAt;
    PrimeRow3();
    ConstantRow24();
    ConstantRow28();
    ConstantIs(24, 97, 4, 0x983e5152);
    ConstantIs(25, 101, 4, 0xa831c66d);
    ConstantIs(26, 103, 4, 0xb00327c8);
    ConstantIs(27, 107, 4, 0xbf597fc7);
    ConstantIs(28, 109, 4, 0xc6e00bf3);
    ConstantIs(29, 113, 4, 0xd5a79147);
    ConstantIs(30, 127, 5, 0x06ca6351);
    ConstantIs(31, 131, 5, 0x14292967);
  }

  lemma ConstantRow32()
    ensures RoundConstant(32) == 0x27b70a85 && RoundConstant(33) == 0x2e1b2138
    ensures RoundConstant(34) == 0x4d2c6dfc && RoundConstant(35) == 0x53380d13
  {
  }

  lemma ConstantRow36()
    ensures RoundConstant(36) == 0x650a7354 && RoundConstant(37) == 0x766a0abb
    ensures RoundConstant(38) == 0x81c2c92e && RoundConstant(39) == 0x92722c85
  {
  }

  lemma Constants4()
    ensures forall t :: 32 <= t < 40 ==> RightConstant(t)
  {
    hide RightConstant, RoundConstant, PrimeAt;
    PrimeRow4();
    ConstantRow32();
    ConstantRow36();
    ConstantIs(32, 137, 5, 0x27b70a85);
    ConstantIs(33, 139, 5, 0x2e1b2138);
    ConstantIs(34, 149, 5, 0x4d2c6dfc);
    ConstantIs(35, 151, 5, 0x53380d13);
    ConstantIs(36, 157, 5, 0x650a7354);
    ConstantIs(37, 163, 5, 0x766a0abb);
    ConstantIs(38, 167, 5, 0x81c2c92e);
    ConstantIs(39, 173, 5, 0x92722c85);
  }

  lemma ConstantRow40()
    ensures RoundConstant(40) == 0xa2bfe8a1 && RoundConstant(41) == 0xa81a664b
    ensures RoundConstant(42) == 0xc24b8b70 && RoundConstant(43) == 0xc76c51a3
  {
  }

  lemma ConstantRow44()
    ensures RoundConstant(44) == 0xd192e819 && RoundConstant(45) == 0xd6990624
    ensures RoundConstant(46) == 0xf40e3585 && RoundConstant(47) == 0x106aa070
  {
  }

  lemma Constants5()
    ensures forall t :: 40 <= t < 48 ==> RightConstant(t)
  {
    hide RightConstant, RoundConstant, PrimeAt;
    PrimeRow5();
    ConstantRow40();
    ConstantRow44();
    ConstantIs(40, 179, 5, 0xa2bfe8a1);
    ConstantIs(41, 181, 5, 0xa81a664b);
    ConstantIs(42, 191, 5, 0xc24b8b70);
    ConstantIs(43, 193, 5, 0xc76c51a3);
    ConstantIs(44, 197, 5, 0xd192e819);
    ConstantIs(45, 199, 5, 0xd6990624);
    ConstantIs(46, 211, 5, 0xf40e3585);
    ConstantIs(47, 223, 6, 0x106aa070);
  }

  lemma ConstantRow48()
    ensures RoundConstant(48) == 0x19a4c116 && RoundConstant(49) == 0x1e376c08
    ensures RoundConstant(50) == 0x2748774c && RoundConstant(51) == 0x34b0bcb5
  {
  }

  lemma ConstantRow52()
    ensures RoundConstant(52) == 0x391c0cb3 && RoundConstant(53) == 0x4ed8aa4a
    ensures RoundConstant(54) == 0x5b9cca4f && RoundConstant(55) == 0x682e6ff3
  {
  }

  lemma Constants6()
    ensures forall t :: 48 <= t < 56 ==> RightConstant(t)
  {
    hide RightConstant, RoundConstant, PrimeAt;
    PrimeRow6();
    ConstantRow48();
    ConstantRow52();
    ConstantIs(48, 227, 6, 0x19a4c116);
    ConstantIs(49, 229, 6, 0x1e376c08);
    ConstantIs(50, 233, 6, 0x2748774c);
    ConstantIs(51, 239, 6, 0x34b0bcb5);
    ConstantIs(52, 241, 6, 0x391c0cb3);
    ConstantIs(53, 251, 6, 0x4ed8aa4a);
    ConstantIs(54, 257, 6, 0x5b9cca4f);
    ConstantIs(55, 263, 6, 0x682e6ff3);
  }

  lemma ConstantRow56()
    ensures RoundConstant(56) == 0x748f82ee && RoundConstant(57) == 0x78a5636f
    ensures RoundConstant(58) == 0x84c87814 && RoundConstant(59) == 0x8cc70208
  {
  }

  lemma ConstantRow60()
    ensures RoundConstant(60) == 0x90befffa && RoundConstant(61) == 0xa4506ceb
    ensures RoundConstant(62) == 0xbef9a3f7 && RoundConstant(63) == 0xc67178f2
  {
  }

  lemma Constants7()
    ensures forall t :: 56 <= t < 64 ==> RightConstant(t)
  {
    hide RightConstant, RoundConstant, PrimeAt;
    PrimeRow7();
    ConstantRow56();
    ConstantRow60();
    ConstantIs(56, 269, 6, 0x748f82ee);
    ConstantIs(57, 271, 6, 0x78a5636f);
    ConstantIs(58, 277, 6, 0x84c87814);
    ConstantIs(59, 281, 6, 0x8cc70208);
    ConstantIs(60, 283, 6, 0x90befffa);
    ConstantIs(61, 293, 6, 0xa4506ceb);
    ConstantIs(62, 307, 6, 0xbef9a3f7);
    ConstantIs(63, 311, 6, 0xc67178f2);
  }

  /** Each round constant is the first 32 bits of the fraction of the cube root of its prime. */
  lemma RoundConstants()
    ensures forall t :: 0 <= t < 64 ==> RightConstant(t)
  {
    hide RightConstant;
    Constants0();
    Constants1();
    Constants2();
    Constants3();
    Constants4();
    Constants5();
    Constants6();
    Constants7();
  }

  /** There is one such number for each prime. */
  lemma CubeRootUnique(p: nat, n: nat, k: nat, m: nat, l: nat)
    requires CubeRootBits(p, n, k) && CubeRootBits(p, m, l)
    ensures n == m && k == l
  {
    hide Cube;
    if n != m {
      CubeGrows(Least(n + 1, m + 1), if n < m then m else n);
      assert false;
    }
    if k != l {
      CubeGrows(n * TWO32 + Least(k + 1, l + 1), n * TWO32 + if k < l then l else k);
      assert false;
    }
  }

  function Least(a: nat, b: nat): nat { if a < b then a else b }

  lemma CubeGrows(a: nat, b: nat)
    requires a <= b
    ensures Cube(a) <= Cube(b)
  {
    ProductGrows(a, b, a, b);
    ProductGrows(a * a, b * b, a, b);
  }

  lemma ProductGrows(a: nat, b: nat, c: nat, d: nat)
    requires a <= b && c <= d
    ensures a * c <= b * d
  {
    NotNegative(b - a, d);
    NotNegative(a, d - c);
    assert b * d == a * c + a * (d - c) + (b - a) * d;
  }

  // ---- the digest of "abc" ----

  /** The one padded block. */
  const ABC: seq<Byte> := [97, 98, 99, 128] + Zeros(52) + [0, 0, 0, 0, 0, 0, 0, 24]

  lemma AbcPadded()
    ensures Padded(Text("abc")) == ABC && |ABC| == 64
  {
    var m := Text("abc");
    assert m == [97, 98, 99];
    assert Filler(3) == 52;
    TwentyFour();
    assert m + [0x80] == [97, 98, 99, 128];
  }

  lemma TwentyFour()
    ensures BigEndian(24, 8) == [0, 0, 0, 0, 0, 0, 0, 24]
  {
    assert BigEndian(0, 1) == BigEndian(0, 0) + [0] == [0];
    assert BigEndian(0, 2) == BigEndian(0, 1) + [0] == [0, 0];
    assert BigEndian(0, 3) == BigEndian(0, 2) + [0] == [0, 0, 0];
    assert BigEndian(0, 4) == BigEndian(0, 3) + [0] == [0, 0, 0, 0];
    assert BigEndian(0, 5) == BigEndian(0, 4) + [0] == [0, 0, 0, 0, 0];
    assert BigEndian(0, 6) == BigEndian(0, 5) + [0] == [0, 0, 0, 0, 0, 0];
    assert BigEndian(0, 7) == BigEndian(0, 6) + [0] == [0, 0, 0, 0, 0, 0, 0];
  }

  /** Word `t` of the message schedule. */
  function Scheduled(t: nat): Word
    requires t < 64
  {
    AbcPadded();
    Schedule(ABC, t)
  }

  lemma ScheduleStep(t: nat, a: Word, b: Word, c: Word, d: Word, w: Word)
    requires 16 <= t < 64
    requires Scheduled(t - 16) == a && Scheduled(t - 15) == b && Scheduled(t - 7) == c && Scheduled(t - 2) == d
    requires Plus(Plus(Plus(a, SmallSigma0(b)), c), SmallSigma1(d)) == w
    ensures Scheduled(t) == w
  {
    hide SmallSigma0, SmallSigma1, Plus;
  }

  lemma WordOf(s: seq<Byte>, o: nat, a: Byte, b: Byte, c: Byte, d: Byte, x: Word)
    requires o + 4 <= |s| && s[o] == a && s[o + 1] == b && s[o + 2] == c && s[o + 3] == d
    requires ((a as bv32) << 24) | ((b as bv32) << 16) | ((c as bv32) << 8) | (d as bv32) == x
    ensures ReadWord(s, o) == x
  {
  }

  lemma OuterWords()
    ensures Scheduled(0) == 0x61626380 && Scheduled(15) == 0x18
  {
    hide ReadWord;
    AbcPadded();
    TextWord();
    LengthWord();
    WordOf(ABC, 0, 97, 98, 99, 128, 0x61626380);
    WordOf(ABC, 60, 0, 0, 0, 24, 0x18);
  }

  lemma TextWord()
    ensures ((97 as bv32) << 24) | ((98 as bv32) << 16) | ((99 as bv32) << 8) | (128 as bv32) == 0x61626380
  {
  }

  lemma LengthWord()
    ensures ((0 as bv32) << 24) | ((0 as bv32) << 16) | ((0 as bv32) << 8) | (24 as bv32) == 0x18
  {
  }

  lemma ZeroWord(t: nat)
    requires 1 <= t < 15
    ensures Scheduled(t) == 0
  {
    hide ReadWord;
    AbcPadded();
    WordOf(ABC, 4 * t, 0, 0, 0, 0, 0);
  }

  lemma FirstWords()
    ensures Scheduled(0) == 0x61626380 && Scheduled(15) == 0x18
    ensures forall t :: 1 <= t < 15 ==> Scheduled(t) == 0
  {
    hide Scheduled;
    OuterWords();
    forall t | 1 <= t < 15
      ensures Scheduled(t) == 0
    {
      ZeroWord(t);
    }
  }

  lemma Words16()
    ensures Scheduled(16) == 0x61626380 && Scheduled(17) == 0x000f0000
    ensures Scheduled(18) == 0x7da86405 && Scheduled(19) == 0x600003c6
    ensures Scheduled(20) == 0x3e9d7b78 && Scheduled(21) == 0x0183fc00
    ensures Scheduled(22) == 0x12dcbfdb && Scheduled(23) == 0xe2e2c38e
  {
    hide Scheduled;
    FirstWords();
    ScheduleStep(16, 0x61626380, 0x00000000, 0x00000000, 0x00000000, 0x61626380);
    ScheduleStep(17, 0x00000000, 0x00000000, 0x00000000, 0x00000018, 0x000f0000);
    ScheduleStep(18, 0x00000000, 0x00000000, 0x00000000, 0x61626380, 0x7da86405);
    ScheduleStep(19, 0x00000000, 0x00000000, 0x00000000, 0x000f0000, 0x600003c6);
    ScheduleStep(20, 0x00000000, 0x00000000, 0x00000000, 0x7da86405, 0x3e9d7b78);
    ScheduleStep(21, 0x00000000, 0x00000000, 0x00000000, 0x600003c6, 0x0183fc00);
    ScheduleStep(22, 0x00000000, 0x00000000, 0x00000018, 0x3e9d7b78, 0x12dcbfdb);
    ScheduleStep(23, 0x00000000, 0x00000000, 0x61626380, 0x0183fc00, 0xe2e2c38e);
  }

  lemma Words24()
    ensures Scheduled(24) == 0xc8215c1a && Scheduled(25) == 0xb73679a2
    ensures Scheduled(26) == 0xe5bc3909 && Scheduled(27) == 0x32663c5b
    ensures Scheduled(28) == 0x9d209d67 && Scheduled(29) == 0xec8726cb
    ensures Scheduled(30) == 0x702138a4 && Scheduled(31) == 0xd3b7973b
  {
    hide Scheduled;
    FirstWords();
    Words16();
    ScheduleStep(24, 0x00000000, 0x00000000, 0x000f0000, 0x12dcbfdb, 0xc8215c1a);
    ScheduleStep(25, 0x00000000, 0x00000000, 0x7da86405, 0xe2e2c38e, 0xb73679a2);
    ScheduleStep(26, 0x00000000, 0x00000000, 0x600003c6, 0xc8215c1a, 0xe5bc3909);
    ScheduleStep(27, 0x00000000, 0x00000000, 0x3e9d7b78, 0xb73679a2, 0x32663c5b);
    ScheduleStep(28, 0x00000000, 0x00000000, 0x0183fc00, 0xe5bc3909, 0x9d209d67);
    ScheduleStep(29, 0x00000000, 0x00000000, 0x12dcbfdb, 0x32663c5b, 0xec8726cb);
    ScheduleStep(30, 0x00000000, 0x00000018, 0xe2e2c38e, 0x9d209d67, 0x702138a4);
    ScheduleStep(31, 0x00000018, 0x61626380, 0xc8215c1a, 0xec8726cb, 0xd3b7973b);
  }

  lemma Words32()
    ensures Scheduled(32) == 0x93f5997f && Scheduled(33) == 0x3b68ba73
    ensures Scheduled(34) == 0xaff4ffc1 && Scheduled(35) == 0xf10a5c62
    ensures Scheduled(36) == 0x0a8b3996 && Scheduled(37) == 0x72af830a
    ensures Scheduled(38) == 0x9409e33e && Scheduled(39) == 0x24641522
  {
    hide Scheduled;
    Words24();
    Words16();
    ScheduleStep(32, 0x61626380, 0x000f0000, 0xb73679a2, 0x702138a4, 0x93f5997f);
    ScheduleStep(33, 0x000f0000, 0x7da86405, 0xe5bc3909, 0xd3b7973b, 0x3b68ba73);
    ScheduleStep(34, 0x7da86405, 0x600003c6, 0x32663c5b, 0x93f5997f, 0xaff4ffc1);
    ScheduleStep(35, 0x600003c6, 0x3e9d7b78, 0x9d209d67, 0x3b68ba73, 0xf10a5c62);
    ScheduleStep(36, 0x3e9d7b78, 0x0183fc00, 0xec8726cb, 0xaff4ffc1, 0x0a8b3996);
    ScheduleStep(37, 0x0183fc00, 0x12dcbfdb, 0x702138a4, 0xf10a5c62, 0x72af830a);
    ScheduleStep(38, 0x12dcbfdb, 0xe2e2c38e, 0xd3b7973b, 0x0a8b3996, 0x9409e33e);
    ScheduleStep(39, 0xe2e2c38e, 0xc8215c1a, 0x93f5997f, 0x72af830a, 0x24641522);
  }

  lemma Words40()
    ensures Scheduled(40) == 0x9f47bf94 && Scheduled(41) == 0xf0a64f5a
    ensures Scheduled(42) == 0x3e246a79 && Scheduled(43) == 0x27333ba3
    ensures Scheduled(44) == 0x0c4763f2 && Scheduled(45) == 0x840abf27
    ensures Scheduled(46) == 0x7a290d5d && Scheduled(47) == 0x065c43da
  {
    hide Scheduled;
    Words32();
    Words24();
    ScheduleStep(40, 0xc8215c1a, 0xb73679a2, 0x3b68ba73, 0x9409e33e, 0x9f47bf94);
    ScheduleStep(41, 0xb73679a2, 0xe5bc3909, 0xaff4ffc1, 0x24641522, 0xf0a64f5a);
    ScheduleStep(42, 0xe5bc3909, 0x32663c5b, 0xf10a5c62, 0x9f47bf94, 0x3e246a79);
    ScheduleStep(43, 0x32663c5b, 0x9d209d67, 0x0a8b3996, 0xf0a64f5a, 0x27333ba3);
    ScheduleStep(44, 0x9d209d67, 0xec8726cb, 0x72af830a, 0x3e246a79, 0x0c4763f2);
    ScheduleStep(45, 0xec8726cb, 0x702138a4, 0x9409e33e, 0x27333ba3, 0x840abf27);
    ScheduleStep(46, 0x702138a4, 0xd3b7973b, 0x24641522, 0x0c4763f2, 0x7a290d5d);
    ScheduleStep(47, 0xd3b7973b, 0x93f5997f, 0x9f47bf94, 0x840abf27, 0x065c43da);
  }

  lemma Words48()
    ensures Scheduled(48) == 0xfb3e89cb && Scheduled(49) == 0xcc7617db
    ensures Scheduled(50) == 0xb9e66c34 && Scheduled(51) == 0xa9993667
    ensures Scheduled(52) == 0x84badedd && Scheduled(53) == 0xc21462bc
    ensures Scheduled(54) == 0x1487472c && Scheduled(55) == 0xb20f7a99
  {
    hide Scheduled;
    Words40();
    Words32();
    ScheduleStep(48, 0x93f5997f, 0x3b68ba73, 0xf0a64f5a, 0x7a290d5d, 0xfb3e89cb);
    ScheduleStep(49, 0x3b68ba73, 0xaff4ffc1, 0x3e246a79, 0x065c43da, 0xcc7617db);
    ScheduleStep(50, 0xaff4ffc1, 0xf10a5c62, 0x27333ba3, 0xfb3e89cb, 0xb9e66c34);
    ScheduleStep(51, 0xf10a5c62, 0x0a8b3996, 0x0c4763f2, 0xcc7617db, 0xa9993667);
    ScheduleStep(52, 0x0a8b3996, 0x72af830a, 0x840abf27, 0xb9e66c34, 0x84badedd);
    ScheduleStep(53, 0x72af830a, 0x9409e33e, 0x7a290d5d, 0xa9993667, 0xc21462bc);
    ScheduleStep(54, 0x9409e33e, 0x24641522, 0x065c43da, 0x84badedd, 0x1487472c);
    ScheduleStep(55, 0x24641522, 0x9f47bf94, 0xfb3e89cb, 0xc21462bc, 0xb20f7a99);
  }

  lemma Words56()
    ensures Scheduled(56) == 0xef57b9cd && Scheduled(57) == 0xebe6b238
    ensures Scheduled(58) == 0x9fe3095e && Scheduled(59) == 0x78bc8d4b
    ensures Scheduled(60) == 0xa43fcf15 && Scheduled(61) == 0x668b2ff8
    ensures Scheduled(62) == 0xeeaba2cc && Scheduled(63) == 0x12b1edeb
  {
    hide Scheduled;
    Words48();
    Words40();
    ScheduleStep(56, 0x9f47bf94, 0xf0a64f5a, 0xcc7617db, 0x1487472c, 0xef57b9cd);
    ScheduleStep(57, 0xf0a64f5a, 0x3e246a79, 0xb9e66c34, 0xb20f7a99, 0xebe6b238);
    ScheduleStep(58, 0x3e246a79, 0x27333ba3, 0xa9993667, 0xef57b9cd, 0x9fe3095e);
    ScheduleStep(59, 0x27333ba3, 0x0c4763f2, 0x84badedd, 0xebe6b238, 0x78bc8d4b);
    ScheduleStep(60, 0x0c4763f2, 0x840abf27, 0xc21462bc, 0x9fe3095e, 0xa43fcf15);
    ScheduleStep(61, 0x840abf27, 0x7a290d5d, 0x1487472c, 0x78bc8d4b, 0x668b2ff8);
    ScheduleStep(62, 0x7a290d5d, 0x065c43da, 0xb20f7a99, 0xa43fcf15, 0xeeaba2cc);
    ScheduleStep(63, 0x065c43da, 0xfb3e89cb, 0xef57b9cd, 0x668b2ff8, 0x12b1edeb);
  }

  /** The working variables after `t` rounds. */
  function At(t: nat): Working
    requires t <= 64
  {
    AbcPadded();
    Rounds(H0, ABC, t)
  }

  lemma RoundStep(t: nat, w: Working, k: Word, m: Word, x: Working)
    requires t < 64 && At(t) == w && Constant(t) == k && Scheduled(t) == m && Round(w, k, m) == x
    ensures At(t + 1) == x
  {
    hide Round, Constant, Schedule;
    AbcPadded();
  }

  // The working variables after each round.

  const R0 := Working(0x6a09e667, 0xbb67ae85, 0x3c6ef372, 0xa54ff53a, 0x510e527f, 0x9b05688c, 0x1f83d9ab, 0x5be0cd19)
  const R1 := Working(0x5d6aebcd, 0x6a09e667, 0xbb67ae85, 0x3c6ef372, 0xfa2a4622, 0x510e527f, 0x9b05688c, 0x1f83d9ab)
  const R2 := Working(0x5a6ad9ad, 0x5d6aebcd, 0x6a09e667, 0xbb67ae85, 0x78ce7989, 0xfa2a4622, 0x510e527f, 0x9b05688c)
  const R3 := Working(0xc8c347a7, 0x5a6ad9ad, 0x5d6aebcd, 0x6a09e667, 0xf92939eb, 0x78ce7989, 0xfa2a4622, 0x510e527f)
  const R4 := Working(0xd550f666, 0xc8c347a7, 0x5a6ad9ad, 0x5d6aebcd, 0x24e00850, 0xf92939eb, 0x78ce7989, 0xfa2a4622)
  const R5 := Working(0x04409a6a, 0xd550f666, 0xc8c347a7, 0x5a6ad9ad, 0x43ada245, 0x24e00850, 0xf92939eb, 0x78ce7989)
  const R6 := Working(0x2b4209f5, 0x04409a6a, 0xd550f666, 0xc8c347a7, 0x714260ad, 0x43ada245, 0x24e00850, 0xf92939eb)
  const R7 := Working(0xe5030380, 0x2b4209f5, 0x04409a6a, 0xd550f666, 0x9b27a401, 0x714260ad, 0x43ada245, 0x24e00850)
  const R8 := Working(0x85a07b5f, 0xe5030380, 0x2b4209f5, 0x04409a6a, 0x0c657a79, 0x9b27a401, 0x714260ad, 0x43ada245)
  const R9 := Working(0x8e04ecb9, 0x85a07b5f, 0xe5030380, 0x2b4209f5, 0x32ca2d8c, 0x0c657a79, 0x9b27a401, 0x714260ad)
  const R10 := Working(0x8c87346b, 0x8e04ecb9, 0x85a07b5f, 0xe5030380, 0x1cc92596, 0x32ca2d8c, 0x0c657a79, 0x9b27a401)
  const R11 := Working(0x4798a3f4, 0x8c87346b, 0x8e04ecb9, 0x85a07b5f, 0x436b23e8, 0x1cc92596, 0x32ca2d8c, 0x0c657a79)
  const R12 := Working(0xf71fc5a9, 0x4798a3f4, 0x8c87346b, 0x8e04ecb9, 0x816fd6e9, 0x436b23e8, 0x1cc92596, 0x32ca2d8c)
  const R13 := Working(0x87912990, 0xf71fc5a9, 0x4798a3f4, 0x8c87346b, 0x1e578218, 0x816fd6e9, 0x436b23e8, 0x1cc92596)
  const R14 := Working(0xd932eb16, 0x87912990, 0xf71fc5a9, 0x4798a3f4, 0x745a48de, 0x1e578218, 0x816fd6e9, 0x436b23e8)
  const R15 := Working(0xc0645fde, 0xd932eb16, 0x87912990, 0xf71fc5a9, 0x0b92f20c, 0x745a48de, 0x1e578218, 0x816fd6e9)
  const R16 := Working(0xb0fa238e, 0xc0645fde, 0xd932eb16, 0x87912990, 0x07590dcd, 0x0b92f20c, 0x745a48de, 0x1e578218)
  const R17 := Working(0x21da9a9b, 0xb0fa238e, 0xc0645fde, 0xd932eb16, 0x8034229c, 0x07590dcd, 0x0b92f20c, 0x745a48de)
  const R18 := Working(0xc2fbd9d1, 0x21da9a9b, 0xb0fa238e, 0xc0645fde, 0x846ee454, 0x8034229c, 0x07590dcd, 0x0b92f20c)
  const R19 := Working(0xfe777bbf, 0xc2fbd9d1, 0x21da9a9b, 0xb0fa238e, 0xcc899961, 0x846ee454, 0x8034229c, 0x07590dcd)
  const R20 := Working(0xe1f20c33, 0xfe777bbf, 0xc2fbd9d1, 0x21da9a9b, 0xb0638179, 0xcc899961, 0x846ee454, 0x8034229c)
  const R21 := Working(0x9dc68b63, 0xe1f20c33, 0xfe777bbf, 0xc2fbd9d1, 0x8ada8930, 0xb0638179, 0xcc899961, 0x846ee454)
  const R22 := Working(0xc2606d6d, 0x9dc68b63, 0xe1f20c33, 0xfe777bbf, 0xe1257970, 0x8ada8930, 0xb0638179, 0xcc899961)
  const R23 := Working(0xa7a3623f, 0xc2606d6d, 0x9dc68b63, 0xe1f20c33, 0x49f5114a, 0xe1257970, 0x8ada8930, 0xb0638179)
  const R24 := Working(0xc5d53d8d, 0xa7a3623f, 0xc2606d6d, 0x9dc68b63, 0xaa47c347, 0x49f5114a, 0xe1257970, 0x8ada8930)
  const R25 := Working(0x1c2c2838, 0xc5d53d8d, 0xa7a3623f, 0xc2606d6d, 0x2823ef91, 0xaa47c347, 0x49f5114a, 0xe1257970)
  const R26 := Working(0xcde8037d, 0x1c2c2838, 0xc5d53d8d, 0xa7a3623f, 0x14383d8e, 0x2823ef91, 0xaa47c347, 0x49f5114a)
  const R27 := Working(0xb62ec4bc, 0xcde8037d, 0x1c2c2838, 0xc5d53d8d, 0xc74c6516, 0x14383d8e, 0x2823ef91, 0xaa47c347)
  const R28 := Working(0x77d37528, 0xb62ec4bc, 0xcde8037d, 0x1c2c2838, 0xedffbff8, 0xc74c6516, 0x14383d8e, 0x2823ef91)
  const R29 := Working(0x363482c9, 0x77d37528, 0xb62ec4bc, 0xcde8037d, 0x6112a3b7, 0xedffbff8, 0xc74c6516, 0x14383d8e)
  const R30 := Working(0xa0060b30, 0x363482c9, 0x77d37528, 0xb62ec4bc, 0xade79437, 0x6112a3b7, 0xedffbff8, 0xc74c6516)
  const R31 := Working(0xea992a22, 0xa0060b30, 0x363482c9, 0x77d37528, 0x0109ab3a, 0xade79437, 0x6112a3b7, 0xedffbff8)
  const R32 := Working(0x73b33bf5, 0xea992a22, 0xa0060b30, 0x363482c9, 0xba591112, 0x0109ab3a, 0xade79437, 0x6112a3b7)
  const R33 := Working(0x98e12507, 0x73b33bf5, 0xea992a22, 0xa0060b30, 0x9cd9f5f6, 0xba591112, 0x0109ab3a, 0xade79437)
  const R34 := Working(0xfe604df5, 0x98e12507, 0x73b33bf5, 0xea992a22, 0x59249dd3, 0x9cd9f5f6, 0xba591112, 0x0109ab3a)
  const R35 := Working(0xa9a7738c, 0xfe604df5, 0x98e12507, 0x73b33bf5, 0x085f3833, 0x59249dd3, 0x9cd9f5f6, 0xba591112)
  const R36 := Working(0x65a0cfe4, 0xa9a7738c, 0xfe604df5, 0x98e12507, 0xf4b002d6, 0x085f3833, 0x59249dd3, 0x9cd9f5f6)
  const R37 := Working(0x41a65cb1, 0x65a0cfe4, 0xa9a7738c, 0xfe604df5, 0x0772a26b, 0xf4b002d6, 0x085f3833, 0x59249dd3)
  const R38 := Working(0x34df1604, 0x41a65cb1, 0x65a0cfe4, 0xa9a7738c, 0xa507a53d, 0x0772a26b, 0xf4b002d6, 0x085f3833)
  const R39 := Working(0x6dc57a8a, 0x34df1604, 0x41a65cb1, 0x65a0cfe4, 0xf0781bc8, 0xa507a53d, 0x0772a26b, 0xf4b002d6)
  const R40 := Working(0x79ea687a, 0x6dc57a8a, 0x34df1604, 0x41a65cb1, 0x1efbc0a0, 0xf0781bc8, 0xa507a53d, 0x0772a26b)
  const R41 := Working(0xd6670766, 0x79ea687a, 0x6dc57a8a, 0x34df1604, 0x26352d63, 0x1efbc0a0, 0xf0781bc8, 0xa507a53d)
  const R42 := Working(0xdf46652f, 0xd6670766, 0x79ea687a, 0x6dc57a8a, 0x838b2711, 0x26352d63, 0x1efbc0a0, 0xf0781bc8)
  const R43 := Working(0x17aa0dfe, 0xdf46652f, 0xd6670766, 0x79ea687a, 0xdecd4715, 0x838b2711, 0x26352d63, 0x1efbc0a0)
  const R44 := Working(0x9d4baf93, 0x17aa0dfe, 0xdf46652f, 0xd6670766, 0xfda24c2e, 0xdecd4715, 0x838b2711, 0x26352d63)
  const R45 := Working(0x26628815, 0x9d4baf93, 0x17aa0dfe, 0xdf46652f, 0xa80f11f0, 0xfda24c2e, 0xdecd4715, 0x838b2711)
  const R46 := Working(0x72ab4b91, 0x26628815, 0x9d4baf93, 0x17aa0dfe, 0xb7755da1, 0xa80f11f0, 0xfda24c2e, 0xdecd4715)
  const R47 := Working(0xa14c14b0, 0x72ab4b91, 0x26628815, 0x9d4baf93, 0xd57b94a9, 0xb7755da1, 0xa80f11f0, 0xfda24c2e)
  const R48 := Working(0x4172328d, 0xa14c14b0, 0x72ab4b91, 0x26628815, 0xfecf0bc6, 0xd57b94a9, 0xb7755da1, 0xa80f11f0)
  const R49 := Working(0x05757ceb, 0x4172328d, 0xa14c14b0, 0x72ab4b91, 0xbd714038, 0xfecf0bc6, 0xd57b94a9, 0xb7755da1)
  const R50 := Working(0xf11bfaa8, 0x05757ceb, 0x4172328d, 0xa14c14b0, 0x6e5c390c, 0xbd714038, 0xfecf0bc6, 0xd57b94a9)
  const R51 := Working(0x7a0508a1, 0xf11bfaa8, 0x05757ceb, 0x4172328d, 0x52f1ccf7, 0x6e5c390c, 0xbd714038, 0xfecf0bc6)
  const R52 := Working(0x886e7a22, 0x7a0508a1, 0xf11bfaa8, 0x05757ceb, 0x49231c1e, 0x52f1ccf7, 0x6e5c390c, 0xbd714038)
  const R53 := Working(0x101fd28f, 0x886e7a22, 0x7a0508a1, 0xf11bfaa8, 0x529e7d00, 0x49231c1e, 0x52f1ccf7, 0x6e5c390c)
  const R54 := Working(0xf5702fdb, 0x101fd28f, 0x886e7a22, 0x7a0508a1, 0x9f4787c3, 0x529e7d00, 0x49231c1e, 0x52f1ccf7)
  const R55 := Working(0x3ec45cdb, 0xf5702fdb, 0x101fd28f, 0x886e7a22, 0xe50e1b4f, 0x9f4787c3, 0x529e7d00, 0x49231c1e)
  const R56 := Working(0x38cc9913, 0x3ec45cdb, 0xf5702fdb, 0x101fd28f, 0x54cb266b, 0xe50e1b4f, 0x9f4787c3, 0x529e7d00)
  const R57 := Working(0xfcd1887b, 0x38cc9913, 0x3ec45cdb, 0xf5702fdb, 0x9b5e906c, 0x54cb266b, 0xe50e1b4f, 0x9f4787c3)
  const R58 := Working(0xc062d46f, 0xfcd1887b, 0x38cc9913, 0x3ec45cdb, 0x7e44008e, 0x9b5e906c, 0x54cb266b, 0xe50e1b4f)
  const R59 := Working(0xffb70472, 0xc062d46f, 0xfcd1887b, 0x38cc9913, 0x6d83bfc6, 0x7e44008e, 0x9b5e906c, 0x54cb266b)
  const R60 := Working(0xb6ae8fff, 0xffb70472, 0xc062d46f, 0xfcd1887b, 0xb21bad3d, 0x6d83bfc6, 0x7e44008e, 0x9b5e906c)
  const R61 := Working(0xb85e2ce9, 0xb6ae8fff, 0xffb70472, 0xc062d46f, 0x961f4894, 0xb21bad3d, 0x6d83bfc6, 0x7e44008e)
  const R62 := Working(0x04d24d6c, 0xb85e2ce9, 0xb6ae8fff, 0xffb70472, 0x948d25b6, 0x961f4894, 0xb21bad3d, 0x6d83bfc6)
  const R63 := Working(0xd39a2165, 0x04d24d6c, 0xb85e2ce9, 0xb6ae8fff, 0xfb121210, 0x948d25b6, 0x961f4894, 0xb21bad3d)
  const R64 := Working(0x506e3058, 0xd39a2165, 0x04d24d6c, 0xb85e2ce9, 0x5ef50f24, 0xfb121210, 0x948d25b6, 0x961f4894)

  lemma Start()
    ensures At(0) == R0
  {
  }

  lemma Rounds2()
    ensures At(2) == R2
  {
    hide At, Scheduled;
    Start();
    FirstWords();
    RoundStep(0, R0, 0x428a2f98, 0x61626380, R1);
    RoundStep(1, R1, 0x71374491, 0x00000000, R2);
  }

  lemma Rounds4()
    ensures At(4) == R4
  {
    hide At, Scheduled;
    Rounds2();
    FirstWords();
    RoundStep(2, R2, 0xb5c0fbcf, 0x00000000, R3);
    RoundStep(3, R3, 0xe9b5dba5, 0x00000000, R4);
  }

  lemma Rounds6()
    ensures At(6) == R6
  {
    hide At, Scheduled;
    Rounds4();
    FirstWords();
    RoundStep(4, R4, 0x3956c25b, 0x00000000, R5);
    RoundStep(5, R5, 0x59f111f1, 0x00000000, R6);
  }

  lemma Rounds8()
    ensures At(8) == R8
  {
    hide At, Scheduled;
    Rounds6();
    FirstWords();
    RoundStep(6, R6, 0x923f82a4, 0x00000000, R7);
    RoundStep(7, R7, 0xab1c5ed5, 0x00000000, R8);
  }

  lemma Rounds10()
    ensures At(10) == R10
  {
    hide At, Scheduled;
    Rounds8();
    FirstWords();
    RoundStep(8, R8, 0xd807aa98, 0x00000000, R9);
    RoundStep(9, R9, 0x12835b01, 0x00000000, R10);
  }

  lemma Rounds12()
    ensures At(12) == R12
  {
    hide At, Scheduled;
    Rounds10();
    FirstWords();
    RoundStep(10, R10, 0x243185be, 0x00000000, R11);
    RoundStep(11, R11, 0x550c7dc3, 0x00000000, R12);
  }

  lemma Rounds14()
    ensures At(14) == R14
  {
    hide At, Scheduled;
    Rounds12();
    FirstWords();
    RoundStep(12, R12, 0x72be5d74, 0x00000000, R13);
    RoundStep(13, R13, 0x80deb1fe, 0x00000000, R14);
  }

  lemma Rounds16()
    ensures At(16) == R16
  {
    hide At, Scheduled;
    Rounds14();
    FirstWords();
    RoundStep(14, R14, 0x9bdc06a7, 0x00000000, R15);
    RoundStep(15, R15, 0xc19bf174, 0x00000018, R16);
  }

  lemma Rounds18()
    ensures At(18) == R18
  {
    hide At, Scheduled;
    Rounds16();
    Words16();
    RoundStep(16, R16, 0xe49b69c1, 0x61626380, R17);
    RoundStep(17, R17, 0xefbe4786, 0x000f0000, R18);
  }

  lemma Rounds20()
    ensures At(20) == R20
  {
    hide At, Scheduled;
    Rounds18();
    Words16();
    RoundStep(18, R18, 0x0fc19dc6, 0x7da86405, R19);
    RoundStep(19, R19, 0x240ca1cc, 0x600003c6, R20);
  }

  lemma Rounds22()
    ensures At(22) == R22
  {
    hide At, Scheduled;
    Rounds20();
    Words16();
    RoundStep(20, R20, 0x2de92c6f, 0x3e9d7b78, R21);
    RoundStep(21, R21, 0x4a7484aa, 0x0183fc00, R22);
  }

  lemma Rounds24()
    ensures At(24) == R24
  {
    hide At, Scheduled;
    Rounds22();
    Words16();
    RoundStep(22, R22, 0x5cb0a9dc, 0x12dcbfdb, R23);
    RoundStep(23, R23, 0x76f988da, 0xe2e2c38e, R24);
  }

  lemma Rounds26()
    ensures At(26) == R26
  {
    hide At, Scheduled;
    Rounds24();
    Words24();
    RoundStep(24, R24, 0x983e5152, 0xc8215c1a, R25);
    RoundStep(25, R25, 0xa831c66d, 0xb73679a2, R26);
  }

  lemma Rounds28()
    ensures At(28) == R28
  {
    hide At, Scheduled;
    Rounds26();
    Words24();
    RoundStep(26, R26, 0xb00327c8, 0xe5bc3909, R27);
    RoundStep(27, R27, 0xbf597fc7, 0x32663c5b, R28);
  }

  lemma Rounds30()
    ensures At(30) == R30
  {
    hide At, Scheduled;
    Rounds28();
    Words24();
    RoundStep(28, R28, 0xc6e00bf3, 0x9d209d67, R29);
    RoundStep(29, R29, 0xd5a79147, 0xec8726cb, R30);
  }

  lemma Rounds32()
    ensures At(32) == R32
  {
    hide At, Scheduled;
    Rounds30();
    Words24();
    RoundStep(30, R30, 0x06ca6351, 0x702138a4, R31);
    RoundStep(31, R31, 0x14292967, 0xd3b7973b, R32);
  }

  lemma Rounds34()
    ensures At(34) == R34
  {
    hide At, Scheduled;
    Rounds32();
    Words32();
    RoundStep(32, R32, 0x27b70a85, 0x93f5997f, R33);
    RoundStep(33, R33, 0x2e1b2138, 0x3b68ba73, R34);
  }

  lemma Rounds36()
    ensures At(36) == R36
  {
    hide At, Scheduled;
    Rounds34();
    Words32();
    RoundStep(34, R34, 0x4d2c6dfc, 0xaff4ffc1, R35);
    RoundStep(35, R35, 0x53380d13, 0xf10a5c62, R36);
  }

  lemma Rounds38()
    ensures At(38) == R38
  {
    hide At, Scheduled;
    Rounds36();
    Words32();
    RoundStep(36, R36, 0x650a7354, 0x0a8b3996, R37);
    RoundStep(37, R37, 0x766a0abb, 0x72af830a, R38);
  }

  lemma Rounds40()
    ensures At(40) == R40
  {
    hide At, Scheduled;
    Rounds38();
    Words32();
    RoundStep(38, R38, 0x81c2c92e, 0x9409e33e, R39);
    RoundStep(39, R39, 0x92722c85, 0x24641522, R40);
  }

  lemma Rounds42()
    ensures At(42) == R42
  {
    hide At, Scheduled;
    Rounds40();
    Words40();
    RoundStep(40, R40, 0xa2bfe8a1, 0x9f47bf94, R41);
    RoundStep(41, R41, 0xa81a664b, 0xf0a64f5a, R42);
  }

  lemma Rounds44()
    ensures At(44) == R44
  {
    hide At, Scheduled;
    Rounds42();
    Words40();
    RoundStep(42, R42, 0xc24b8b70, 0x3e246a79, R43);
    RoundStep(43, R43, 0xc76c51a3, 0x27333ba3, R44);
  }

  lemma Rounds46()
    ensures At(46) == R46
  {
    hide At, Scheduled;
    Rounds44();
    Words40();
    RoundStep(44, R44, 0xd192e819, 0x0c4763f2, R45);
    RoundStep(45, R45, 0xd6990624, 0x840abf27, R46);
  }

  lemma Rounds48()
    ensures At(48) == R48
  {
    hide At, Scheduled;
    Rounds46();
    Words40();
    RoundStep(46, R46, 0xf40e3585, 0x7a290d5d, R47);
    RoundStep(47, R47, 0x106aa070, 0x065c43da, R48);
  }

  lemma Rounds50()
    ensures At(50) == R50
  {
    hide At, Scheduled;
    Rounds48();
    Words48();
    RoundStep(48, R48, 0x19a4c116, 0xfb3e89cb, R49);
    RoundStep(49, R49, 0x1e376c08, 0xcc7617db, R50);
  }

  lemma Rounds52()
    ensures At(52) == R52
  {
    hide At, Scheduled;
    Rounds50();
    Words48();
    RoundStep(50, R50, 0x2748774c, 0xb9e66c34, R51);
    RoundStep(51, R51, 0x34b0bcb5, 0xa9993667, R52);
  }

  lemma Rounds54()
    ensures At(54) == R54
  {
    hide At, Scheduled;
    Rounds52();
    Words48();
    RoundStep(52, R52, 0x391c0cb3, 0x84badedd, R53);
    RoundStep(53, R53, 0x4ed8aa4a, 0xc21462bc, R54);
  }

  lemma Rounds56()
    ensures At(56) == R56
  {
    hide At, Scheduled;
    Rounds54();
    Words48();
    RoundStep(54, R54, 0x5b9cca4f, 0x1487472c, R55);
    RoundStep(55, R55, 0x682e6ff3, 0xb20f7a99, R56);
  }

  lemma Rounds58()
    ensures At(58) == R58
  {
    hide At, Scheduled;
    Rounds56();
    Words56();
    RoundStep(56, R56, 0x748f82ee, 0xef57b9cd, R57);
    RoundStep(57, R57, 0x78a5636f, 0xebe6b238, R58);
  }

  lemma Rounds60()
    ensures At(60) == R60
  {
    hide At, Scheduled;
    Rounds58();
    Words56();
    RoundStep(58, R58, 0x84c87814, 0x9fe3095e, R59);
    RoundStep(59, R59, 0x8cc70208, 0x78bc8d4b, R60);
  }

  lemma Rounds62()
    ensures At(62) == R62
  {
    hide At, Scheduled;
    Rounds60();
    Words56();
    RoundStep(60, R60, 0x90befffa, 0xa43fcf15, R61);
    RoundStep(61, R61, 0xa4506ceb, 0x668b2ff8, R62);
  }

  lemma Rounds64()
    ensures At(64) == R64
  {
    hide At, Scheduled;
    Rounds62();
    Words56();
    RoundStep(62, R62, 0xbef9a3f7, 0xeeaba2cc, R63);
    RoundStep(63, R63, 0xc67178f2, 0x12b1edeb, R64);
  }

  /** The example of appendix B.1 of FIPS 180-2. */
  lemma DigestOfAbc()
    ensures Digest(Text("abc")) == [0xba7816bf, 0x8f01cfea, 0x414140de, 0x5dae2223,
                                    0xb00361a3, 0x96177a9c, 0xb410ff61, 0xf20015ad]
  {
    hide Padded, Rounds, Text;
    AbcPadded();
    Rounds64();
    SingleBlock(H0, ABC);
  }

  /** Every eight characters of the text are the digits of one word. */
  lemma {:induction false} DigitsOfWord(ws: seq<Word>, k: nat)
    requires k < |ws|
    ensures HexText(ws)[8 * k..8 * k + 8] == HexWord(ws[k])
    decreases |ws|
  {
    hide HexWord;
    if k + 1 < |ws| {
      DigitsOfWord(ws[..|ws| - 1], k);
    }
  }

  lemma Hex0()
    ensures HexWord(0xba7816bf) == Text("ba7816bf")
  {
  }

  lemma Hex1()
    ensures HexWord(0x8f01cfea) == Text("8f01cfea")
  {
  }

  lemma Hex2()
    ensures HexWord(0x414140de) == Text("414140de")
  {
  }

  lemma Hex3()
    ensures HexWord(0x5dae2223) == Text("5dae2223")
  {
  }

  lemma Hex4()
    ensures HexWord(0xb00361a3) == Text("b00361a3")
  {
  }

  lemma Hex5()
    ensures HexWord(0x96177a9c) == Text("96177a9c")
  {
  }

  lemma Hex6()
    ensures HexWord(0xb410ff61) == Text("b410ff61")
  {
  }

  lemma Hex7()
    ensures HexWord(0xf20015ad) == Text("f20015ad")
  {
  }

  /** Its text, ba7816bf 8f01cfea 414140de 5dae2223 b00361a3 96177a9c b410ff61 f20015ad without the blanks. */
  lemma TextOfAbc()
    ensures var s := Sha256Text(Text("abc"));
      && s[0..8] == Text("ba7816bf") && s[8..16] == Text("8f01cfea") && s[16..24] == Text("414140de")
      && s[24..32] == Text("5dae2223") && s[32..40] == Text("b00361a3") && s[40..48] == Text("96177a9c")
      && s[48..56] == Text("b410ff61") && s[56..64] == Text("f20015ad")
  {
    hide Digest, Text, HexWord, HexText;
    DigestOfAbc();
    var ws := Digest(Text("abc"));
    DigitsOfWord(ws, 0);
    DigitsOfWord(ws, 1);
    DigitsOfWord(ws, 2);
    DigitsOfWord(ws, 3);
    DigitsOfWord(ws, 4);
    DigitsOfWord(ws, 5);
    DigitsOfWord(ws, 6);
    DigitsOfWord(ws, 7);
    Hex0();
    Hex1();
    Hex2();
    Hex3();
    Hex4();
    Hex5();
    Hex6();
    Hex7();
  }

}
