/** The 32-bit arithmetic of bin/numix.c: what each operation means on unbounded integers, and the
    fast exponentiation loop. */
module Integers {

  const INT_MAX := 0x7FFF_FFFF
  const INT_MIN := -0x8000_0000

  datatype Error =
    | NegativeExponent | Overflow | IntegersOnly | InvalidOperation | TooDeep | MissingParenthesis | DivisionByZero

  datatype Result<+T> = Ok(value: T) | Err(error: Error)

  /** The value of an `int`: the overflow-checking builtins report exactly the other values. */
  predicate InRange(x: int) {
    INT_MIN <= x <= INT_MAX
  }

  function Checked(x: int): Result<int> {
    if InRange(x) then Ok(x) else Err(Overflow)
  }

  // ---- powers ----

  function Pow(b: int, e: nat): int {
    if e == 0 then 1 else b * Pow(b, e - 1)
  }

  function Abs(x: int): nat {
    if x < 0 then -x else x
  }

  lemma {:induction false} PowAdd(b: int, m: nat, n: nat)
    ensures Pow(b, m + n) == Pow(b, m) * Pow(b, n)
  {
    if m > 0 {
      PowAdd(b, m - 1, n);
      Associate(b, Pow(b, m - 1), Pow(b, n));
    }
  }

  lemma Associate(a: int, b: int, c: int)
    ensures a * (b * c) == a * b * c
  {
  }

  lemma {:induction false} PowSquare(b: int, n: nat)
    ensures Pow(b * b, n) == Pow(b, 2 * n)
  {
    if n > 0 {
      PowSquare(b, n - 1);
      PowAdd(b, 2, 2 * (n - 1));
      assert Pow(b, 2) == b * Pow(b, 1) && Pow(b, 1) == b;
    }
  }

  lemma MulAtLeast(a: nat, b: nat)
    requires 1 <= b
    ensures a * b >= a
  {
    assert a * b == a * (b - 1) + a;
  }

  lemma AbsMul(a: int, b: int)
    ensures Abs(a * b) == Abs(a) * Abs(b)
  {
  }

  /** The power of a square of a nonzero number is at least 1. */
  lemma {:induction false} SquarePowers(b: int, n: nat)
    requires b != 0
    ensures Pow(b * b, n) >= 1
    ensures n > 0 ==> Pow(b * b, n) >= b * b
  {
    SquarePositive(b);
    if n > 0 {
      SquarePowers(b, n - 1);
      MulAtLeast(b * b, Pow(b * b, n - 1));
    }
  }

  lemma SquarePositive(b: int)
    requires b != 0
    ensures b * b >= 1
  {
    if b < 0 {
      assert b * b == (-b) * (-b);
    }
  }

  /** A square outside the range is too big whatever it is multiplied with. */
  lemma SquareTooBig(r: int, b: int, n: nat)
    requires r != 0 && n > 0 && !InRange(b * b)
    ensures !InRange(r * Pow(b * b, n))
  {
    SquarePowers(b, n);
    NoSquareIsMinimum(b);
    var x := Pow(b * b, n);
    AbsMul(r, x);
    MulAtLeast(x, Abs(r));
    assert Abs(r) * x == x * Abs(r);
  }

  lemma NoSquareIsMinimum(b: int)
    requires !InRange(b * b)
    ensures b * b > 0x8000_0000
  {
    var a := Abs(b);
    assert b * b == a * a;
    if a <= 46340 {
      Monotone(a, 46340);
    } else {
      Monotone(46341, a);
    }
  }

  lemma Monotone(a: nat, b: nat)
    requires a <= b
    ensures a * a <= b * b
  {
    assert b * b == a * a + (b - a) * (b + a);
    NatProduct(b - a, b + a);
  }

  lemma NatProduct(a: nat, b: nat)
    ensures a * b >= 0
  {
  }

  /** A product outside the range stays outside when multiplied by a positive number. */
  lemma TooBigStays(v: int, x: nat)
    requires !InRange(v) && x >= 1
    ensures !InRange(v * x)
  {
    if v >= 0 {
      MulAtLeast(v, x);
    } else {
      MulAtLeast(-v, x);
      assert (-v) * x == -(v * x);
    }
  }

  /** ipow on a nonnegative exponent: the exact power, or overflow when that does not fit. */
  function PowerOf(b: int, e: int): Result<int> {
    if e < 0 then Err(NegativeExponent) else Checked(Pow(b, e))
  }

  /** What one pass of the loop of ipow, with result so far `r`, does to the rest of the product. */
  lemma PowStep(r: int, b: int, e: nat)
    requires e > 0
    ensures e % 2 == 1 ==> r * Pow(b, e) == r * b * Pow(b * b, e / 2)
    ensures e % 2 == 0 ==> r * Pow(b, e) == r * Pow(b * b, e / 2)
  {
    PowSquare(b, e / 2);
    if e % 2 == 1 {
      assert e == 2 * (e / 2) + 1;
      Associate(r, b, Pow(b, e - 1));
    } else {
      assert e == 2 * (e / 2);
    }
  }

  /** ipow returns the exact power whenever that fits in an int, and reports overflow exactly when it
      does not: neither the last square nor an intermediate product ever overflows falsely. */
  method IPow(base: int, exponent: int) returns (result: Result<int>)
    requires InRange(base) && InRange(exponent)
    ensures result == PowerOf(base, exponent)
  {
    if exponent < 0 {
      return Err(NegativeExponent);
    }
    var r, b, e := 1, base, exponent;
    while e != 0
      invariant 0 <= e && InRange(r) && InRange(b) && r * Pow(b, e) == Pow(base, exponent)
      invariant r == 0 ==> b == 0
    {
      PowStep(r, b, e);
      ghost var half := e / 2;
      if e % 2 == 1 {
        if !InRange(r * b) {
          SquarePowers(b, half);
          TooBigStays(r * b, Pow(b * b, half));
          return Err(Overflow);
        }
        r := r * b;
      }
      e := e / 2;
      if e != 0 {
        if !InRange(b * b) {
          SquareTooBig(r, b, half);
          return Err(Overflow);
        }
        b := b * b;
      }
    }
    return Ok(r);
  }

  // ---- division ----

  datatype BinOp = Add | Sub | Mul | Div | FloorDiv | Mod

  /** The quotient rounded toward zero. */
  function Truncated(a: int, b: int): int
    requires b != 0
  {
    var q := Abs(a) / Abs(b);
    if (a < 0) == (b < 0) then q else -q
  }

  /** The remainder that goes with it: `a % b` of the C language. */
  function Remainder(a: int, b: int): int
    requires b != 0
  {
    a - b * Truncated(a, b)
  }

  /** The quotient rounded down. */
  function Floored(a: int, b: int): int
    requires b != 0
  {
    if b > 0 then a / b else (-a) / (-b)
  }

  /** What an operation means on unbounded integers; division by zero has no meaning. */
  function Exact(op: BinOp, a: int, b: int): int
    requires op in {Div, FloorDiv, Mod} ==> b != 0
  {
    match op
    case Add => a + b
    case Sub => a - b
    case Mul => a * b
    case Div => Truncated(a, b)
    case FloorDiv => Floored(a, b)
    case Mod => a - b * Floored(a, b)
  }

  /** What the calculator computes: the exact value, or the error that stands for it. */
  function Apply(op: BinOp, a: int, b: int): (r: Result<int>)
    ensures r.Ok? ==> InRange(r.value)
  {
    if op in {Div, FloorDiv, Mod} && b == 0 then Err(DivisionByZero) else Checked(Exact(op, a, b))
  }

  lemma Commute(a: int, b: int)
    ensures a * b == b * a
  {
  }

  lemma SmallMultiple(b: int, x: int)
    requires Abs(b * x) < Abs(b)
    ensures x == 0
  {
    AbsMul(b, x);
    if x != 0 {
      MulAtLeast(Abs(b), Abs(x));
    }
  }

  lemma DivFacts(a: nat, b: nat)
    requires b > 0
    ensures a == b * (a / b) + a % b && 0 <= a % b < b && 0 <= a / b <= a
  {
    MulAtLeast(a / b, b);
    Commute(a / b, b);
  }

  /** Truncation: the remainder is smaller than the divisor and has the sign of the dividend. */
  lemma TruncatedIs(a: int, b: int)
    requires b != 0
    ensures a == b * Truncated(a, b) + Remainder(a, b)
    ensures Abs(Remainder(a, b)) < Abs(b) && (Remainder(a, b) != 0 ==> (Remainder(a, b) < 0) == (a < 0))
    ensures Abs(Truncated(a, b)) <= Abs(a)
  {
    DivFacts(Abs(a), Abs(b));
    SignedQuotient(a, b, Abs(a) / Abs(b));
  }

  lemma SignedQuotient(a: int, b: int, q: int)
    ensures b * (if (a < 0) == (b < 0) then q else -q) == if a < 0 then -(Abs(b) * q) else Abs(b) * q
  {
  }

  /** Floor: the remainder lies between zero and the divisor and has the sign of the divisor. */
  lemma FlooredIs(a: int, b: int)
    requires b != 0
    ensures var r := a - b * Floored(a, b);
      if b > 0 then 0 <= r < b else b < r <= 0
  {
    if b < 0 {
      assert b * ((-a) / (-b)) == -((-b) * ((-a) / (-b)));
    }
  }

  lemma FlooredUnique(a: int, b: int, q: int)
    requires b != 0 && (if b > 0 then 0 <= a - b * q < b else b < a - b * q <= 0)
    ensures q == Floored(a, b)
  {
    FlooredIs(a, b);
    var f := Floored(a, b);
    assert b * (q - f) == b * q - b * f;
    SmallMultiple(b, q - f);
  }

  /** From the C quotient and remainder to the floor pair: one step down when the signs differ. */
  lemma FloorFromTruncated(a: int, b: int)
    requires b != 0
    ensures var q, r := Truncated(a, b), Remainder(a, b);
            var down := r != 0 && (r < 0) != (b < 0);
      && Floored(a, b) == (if down then q - 1 else q)
      && a - b * Floored(a, b) == (if down then r + b else r)
  {
    TruncatedIs(a, b);
    var q, r := Truncated(a, b), Remainder(a, b);
    var down := r != 0 && (r < 0) != (b < 0);
    var f := if down then q - 1 else q;
    assert b * (q - 1) == b * q - b;
    FlooredUnique(a, b, f);
  }

  lemma MinusOne(a: int)
    ensures Truncated(a, -1) == -a && Floored(a, -1) == -a && a - (-1) * Floored(a, -1) == 0
  {
  }

  /** The quotient of two ints fits in an int unless the divisor is -1. */
  lemma QuotientFits(a: int, b: int)
    requires InRange(a) && InRange(b) && b != 0 && b != -1
    ensures InRange(Truncated(a, b)) && InRange(Floored(a, b)) && InRange(a - b * Floored(a, b))
  {
    TruncatedIs(a, b);
    FlooredIs(a, b);
    FloorFromTruncated(a, b);
    if Abs(b) >= 2 {
      HalfAtMost(Abs(a), Abs(b));
    }
  }

  lemma HalfAtMost(a: nat, b: nat)
    requires b >= 2
    ensures 2 * (a / b) <= a
  {
    DivFacts(a, b);
    MulAtLeast(a / b, b - 1);
    assert b * (a / b) == (a / b) * (b - 1) + a / b;
  }

  /** The switch of term() after both operands are known. */
  method Operate(op: BinOp, a: int, b: int) returns (result: Result<int>)
    requires InRange(a) && InRange(b)
    ensures result == Apply(op, a, b)
  {
    if op == Add {
      return Checked(a + b);
    }
    if op == Sub {
      return Checked(a - b);
    }
    if op == Mul {
      return Checked(a * b);
    }
    if b == 0 {
      return Err(DivisionByZero);
    }
    if b == -1 {
      MinusOne(a);
      return if op == Mod then Ok(0) else Checked(0 - a);
    }
    QuotientFits(a, b);
    FloorFromTruncated(a, b);
    var q, r := Truncated(a, b), Remainder(a, b);
    if op == Mod {
      if r != 0 && (r < 0) != (b < 0) {
        r := r + b;
      }
      return Ok(r);
    }
    if op == FloorDiv && r != 0 && (r < 0) != (b < 0) {
      q := q - 1;
    }
    return Ok(q);
  }
}
