/** What each operator of the calculator means, told by equations that leave one result open, and the
    texts that use it: pairs and triples of numbers in every sign. */
module Operators {
  import opened Integers
  import opened Expressions
  import opened Evaluation

  // ---- one result for each operation ----

  /** `a`, added up `n` times. */
  function AddedUp(a: int, n: nat): int {
    if n == 0 then 0 else AddedUp(a, n - 1) + a
  }

  /** What the result `r` of an operation has to do with its operands: sums and differences undo each other, a
      product is a repeated sum, `/` leaves a rest smaller than the divisor with the sign of the dividend,
      `//` and `%` one with the sign of the divisor. */
  ghost predicate Meets(op: BinOp, a: int, b: int, r: int) {
    match op
    case Add => r - b == a
    case Sub => r + b == a
    case Mul => r == if b >= 0 then AddedUp(a, b) else -AddedUp(a, -b)
    case Div => Abs(a - b * r) < Abs(b) && (a - b * r != 0 ==> (a - b * r < 0) == (a < 0))
    case FloorDiv => if b > 0 then 0 <= a - b * r < b else b < a - b * r <= 0
    case Mod => (if b > 0 then 0 <= r < b else b < r <= 0) && exists q :: a == b * q + r
  }

  lemma {:induction false} AddedUpIs(a: int, n: nat)
    ensures AddedUp(a, n) == a * n
    decreases n
  {
    if n > 0 {
      AddedUpIs(a, n - 1);
      assert a * n == a * (n - 1) + a;
    }
  }

  /** The table of operations: on any operands it holds the one result that meets these equations. */
  lemma ExactMeets(op: BinOp, a: int, b: int, r: int)
    requires op in {Div, FloorDiv, Mod} ==> b != 0
    ensures Meets(op, a, b, r) <==> r == Exact(op, a, b)
  {
    match op
    case Add =>
    case Sub =>
    case Mul =>
      AddedUpIs(a, Abs(b));
    case Div =>
      QuotientMeets(a, b, r);
    case FloorDiv =>
      FlooredIs(a, b);
      if Meets(op, a, b, r) {
        FlooredUnique(a, b, r);
      }
    case Mod =>
      RestMeets(a, b, r);
  }

  lemma QuotientMeets(a: int, b: int, r: int)
    requires b != 0
    ensures Meets(Div, a, b, r) <==> r == Truncated(a, b)
  {
    hide Truncated;
    TruncatedIs(a, b);
    var q := Truncated(a, b);
    if Meets(Div, a, b, r) {
      Distribute(b, q, r);
      CloseRests(a, a - b * r, a - b * q, Abs(b));
      SmallMultiple(b, q - r);
    }
  }

  lemma Distribute(b: int, q: int, r: int)
    ensures b * (q - r) == b * q - b * r
  {
  }

  /** Two rests with the sign of `a` differ by less than the divisor. */
  lemma CloseRests(a: int, x: int, y: int, d: nat)
    requires Abs(x) < d && (x != 0 ==> (x < 0) == (a < 0)) && Abs(y) < d && (y != 0 ==> (y < 0) == (a < 0))
    ensures Abs(x - y) < d
  {
  }

  lemma RestMeets(a: int, b: int, r: int)
    requires b != 0
    ensures Meets(Mod, a, b, r) <==> r == a - b * Floored(a, b)
  {
    FlooredIs(a, b);
    var f := Floored(a, b);
    assert a == b * f + (a - b * f);
    if Meets(Mod, a, b, r) {
      var q :| a == b * q + r;
      FlooredUnique(a, b, q);
    }
  }

  /** The calculator answers with the one result that meets the equations, or says why there is none to show. */
  lemma ApplyMeets(op: BinOp, a: int, b: int, r: int)
    ensures Apply(op, a, b) == Ok(r)
      <==> (op in {Div, FloorDiv, Mod} ==> b != 0) && Meets(op, a, b, r) && -0x8000_0000 <= r <= 0x7FFF_FFFF
    ensures Apply(op, a, b) == Err(DivisionByZero) <==> op in {Div, FloorDiv, Mod} && b == 0
    ensures Apply(op, a, b).Err? ==> Apply(op, a, b).error in {DivisionByZero, Overflow}
  {
    hide Meets, Exact;
    if op in {Div, FloorDiv, Mod} ==> b != 0 {
      ExactMeets(op, a, b, r);
    }
  }

  // ---- texts ----

  lemma Symbols()
    ensures OpText(Add) == "+" && OpText(Sub) == "-" && OpText(Mul) == "*"
    ensures OpText(Div) == "/" && OpText(FloorDiv) == "//" && OpText(Mod) == "%"
  {
  }

  /** The decimal text of a number that is not negative: its digits, the last one last. */
  lemma DigitsAre(n: nat, d: nat)
    requires d < 10
    ensures Digits(d) == ["0123456789"[d]]
    ensures n > 0 ==> Digits(10 * n + d) == Digits(n) + ["0123456789"[d]]
  {
    assert (10 * n + d) / 10 == n && (10 * n + d) % 10 == d;
  }

  /** The ints but the smallest: those whose text is an operand. */
  predicate Operand(v: int) {
    -0x7FFF_FFFF <= v <= 0x7FFF_FFFF
  }

  function OperandTree(v: int): Signed {
    var u := Unsigned("", Plain(Num("", Digits(Abs(v)))));
    if v < 0 then Sign("", true, u) else u
  }

  lemma OperandTreeOk(v: int, depth: int)
    requires Operand(v) && depth >= 1
    ensures SignedOk(OperandTree(v), depth) && SignedMeans(OperandTree(v)) == v
    ensures SignedText(OperandTree(v)) == Decimal(v)
  {
    hide NumberValue, Digits;
    var n := Abs(v);
    DigitsMean(n);
    var p := Num("", Digits(n));
    var u := Unsigned("", Plain(p));
    assert PrimOk(p, depth) && PrimOk(p, depth - 1) && PrimMeans(p) == n;
    assert RaisedOk(Plain(p), depth) && RaisedOk(Plain(p), depth - 1) && RaisedMeans(Plain(p)) == n;
    assert SignedOk(u, depth) && SignedOk(u, depth - 1) && SignedMeans(u) == n;
    assert "" + Digits(n) == Digits(n) && PrimText(p) == Digits(n) && RaisedText(Plain(p)) == Digits(n);
    assert SignedText(u) == Digits(n);
    assert v < 0 ==> "" + "-" + SignedText(u) == "-" + SignedText(u);
  }

  lemma OperandHead(v: int)
    ensures Decimal(v) != [] && (Digit(Decimal(v)[0]) || Decimal(v)[0] == '-')
  {
    DigitsMean(Abs(v));
  }

  lemma OperandReads(v: int, rest: string, depth: int)
    requires Operand(v) && FollowsPower(rest) && depth < NX_MAXDEPTH
    ensures Unary(Decimal(v) + rest, depth) == Value(v, Skip(rest))
  {
    hide Unary, Skip, Decimal, OperandTree;
    OperandTreeOk(v, NX_MAXDEPTH - depth);
    SignedComplete(OperandTree(v), rest, depth);
  }

  /** The value of the first operand goes into the loop of term. */
  lemma FirstOperand(v: int, rest: string, depth: int)
    requires Operand(v) && FollowsPower(rest) && depth < NX_MAXDEPTH
    ensures Term(Decimal(v) + rest, depth) == TermLoop(v, rest, depth)
  {
    hide Unary, TermLoop, Skip, Decimal;
    OperandReads(v, rest, depth);
    TermLoopSkips(v, rest, depth);
  }

  function After(r: Result<int>, rest: string, depth: int, summing: bool): Eval {
    match r
    case Err(e) => Failed(e)
    case Ok(v) => if summing then ExprLoop(v, rest, depth) else TermLoop(v, rest, depth)
  }

  lemma NextFactor(a: int, op: BinOp, b: int, rest: string, depth: int)
    requires Operand(b) && FollowsPower(rest) && depth < NX_MAXDEPTH && op in {Mul, Div, FloorDiv, Mod}
    ensures TermLoop(a, OpText(op) + (Decimal(b) + rest), depth) == After(Apply(op, a, b), rest, depth, false)
  {
    hide Unary, Decimal, Apply, TermOperator, OpText;
    OperandHead(b);
    OperatorRead(op, Decimal(b) + rest);
    OperandReads(b, rest, depth);
    if Apply(op, a, b).Ok? {
      TermLoopSkips(Apply(op, a, b).value, rest, depth);
    }
  }

  lemma NextSummand(a: int, op: BinOp, s: string, b: int, rest: string, depth: int)
    requires op in {Add, Sub} && Term(s, depth) == Value(b, rest)
    ensures ExprLoop(a, OpText(op) + s, depth) == After(Apply(op, a, b), rest, depth, true)
  {
    hide Term, Apply, SumOperator, OpText;
    SumOperatorRead(op, s);
  }

  lemma FailedSummand(a: int, op: BinOp, s: string, e: Error, depth: int)
    requires op in {Add, Sub} && Term(s, depth) == Failed(e)
    ensures ExprLoop(a, OpText(op) + s, depth) == Failed(e)
  {
    hide Term, Apply, SumOperator, OpText;
    SumOperatorRead(op, s);
  }

  lemma EndOfText()
    ensures FollowsPower("")
    ensures forall v, depth :: TermLoop(v, "", depth) == Value(v, "") && ExprLoop(v, "", depth) == Value(v, "")
  {
  }

  /** The loop of term stops where a sum goes on. */
  lemma TermStops(v: int, op: BinOp, s: string, depth: int)
    requires op in {Add, Sub}
    ensures TermLoop(v, OpText(op) + s, depth) == Value(v, OpText(op) + s) && FollowsPower(OpText(op) + s)
  {
  }

  lemma FactorFollows(op: BinOp, b: int, rest: string)
    requires op in {Mul, Div, FloorDiv, Mod}
    ensures FollowsPower(OpText(op) + (Decimal(b) + rest))
  {
    hide Decimal;
    OperandHead(b);
    OperatorRead(op, Decimal(b) + rest);
  }

  predicate Tight(op: BinOp) {
    op in {Mul, Div, FloorDiv, Mod}
  }

  /** Two operands and an operator between them. */
  lemma PairEvaluates(op: BinOp, a: int, b: int)
    requires Operand(a) && Operand(b)
    ensures Evaluate(Decimal(a) + OpText(op) + Decimal(b)) == Apply(op, a, b)
  {
    hide Decimal, Apply, OpText, TermLoop, ExprLoop, Term, Skip;
    var text := Decimal(a) + OpText(op) + Decimal(b);
    var rest := OpText(op) + (Decimal(b) + "");
    assert text == Decimal(a) + rest;
    EndOfText();
    if Tight(op) {
      FactorFollows(op, b, "");
      FirstOperand(a, rest, 0);
      NextFactor(a, op, b, "", 0);
    } else {
      TermStops(a, op, Decimal(b) + "", 0);
      FirstOperand(a, rest, 0);
      FirstOperand(b, "", 0);
      NextSummand(a, op, Decimal(b) + "", b, "", 0);
    }
    Ends(text, Apply(op, a, b));
  }

  /** Nothing is left to read after the result `r`. */
  lemma Ends(text: string, r: Result<int>)
    requires Expr(text, 0) == match r { case Err(e) => Failed(e) case Ok(v) => Value(v, "") }
    ensures Evaluate(text) == r
  {
    hide Expr;
  }

  /** The same in numbers: `//` and `%` of two texts are a quotient and a rest with the sign of the divisor. */
  lemma DivisionTexts(a: int, b: int) returns (q: int, r: int)
    requires Operand(a) && Operand(b)
    ensures b == 0 ==>
      && Evaluate(Decimal(a) + "//" + Decimal(b)) == Err(DivisionByZero)
      && Evaluate(Decimal(a) + "%" + Decimal(b)) == Err(DivisionByZero)
    ensures b != 0 ==>
      && Evaluate(Decimal(a) + "//" + Decimal(b)) == Ok(q) && Evaluate(Decimal(a) + "%" + Decimal(b)) == Ok(r)
      && a == b * q + r && (if b > 0 then 0 <= r < b else b < r <= 0)
  {
    hide Evaluate, Decimal;
    Symbols();
    PairEvaluates(FloorDiv, a, b);
    PairEvaluates(Mod, a, b);
    q, r := 0, 0;
    if b != 0 {
      q, r := Floored(a, b), a - b * Floored(a, b);
      FlooredIs(a, b);
      if b == -1 {
        MinusOne(a);
      } else {
        QuotientFits(a, b);
      }
    }
  }

  /** `a` `first` `b` `second` `c`, the tighter operation first, equally tight ones from the left. */
  function Grouped(first: BinOp, second: BinOp, a: int, b: int, c: int): Result<int> {
    if Tight(second) && !Tight(first) then
      match Apply(second, b, c)
      case Err(e) => Err(e)
      case Ok(v) => Apply(first, a, v)
    else
      match Apply(first, a, b)
      case Err(e) => Err(e)
      case Ok(v) => Apply(second, v, c)
  }

  /** Three operands with any two operators between them. */
  lemma TripleEvaluates(first: BinOp, second: BinOp, a: int, b: int, c: int)
    requires Operand(a) && Operand(b) && Operand(c)
    ensures Evaluate(Decimal(a) + OpText(first) + Decimal(b) + OpText(second) + Decimal(c))
         == Grouped(first, second, a, b, c)
  {
    hide Decimal, Apply, OpText, TermLoop, ExprLoop, Expr, Evaluate;
    var text := Decimal(a) + OpText(first) + Decimal(b) + OpText(second) + Decimal(c);
    var more := OpText(second) + (Decimal(c) + "");
    assert text == Decimal(a) + (OpText(first) + (Decimal(b) + more));
    TripleReads(first, second, a, b, c, more);
    Ends(text, Grouped(first, second, a, b, c));
  }

  lemma TripleReads(first: BinOp, second: BinOp, a: int, b: int, c: int, more: string)
    requires Operand(a) && Operand(b) && Operand(c) && more == OpText(second) + (Decimal(c) + "")
    ensures Expr(Decimal(a) + (OpText(first) + (Decimal(b) + more)), 0)
         == match Grouped(first, second, a, b, c) { case Err(e) => Failed(e) case Ok(v) => Value(v, "") }
  {
    hide Decimal, Apply, OpText, TermLoop, ExprLoop, Term, Skip;
    var rest := OpText(first) + (Decimal(b) + more);
    EndOfText();
    if Tight(second) {
      FactorFollows(second, c, "");
      if Tight(first) {
        FactorFollows(first, b, more);
        FirstOperand(a, rest, 0);
        NextFactor(a, first, b, more, 0);
        if Apply(first, a, b).Ok? {
          NextFactor(Apply(first, a, b).value, second, c, "", 0);
        }
      } else {
        TermStops(a, first, Decimal(b) + more, 0);
        FirstOperand(a, rest, 0);
        FirstOperand(b, more, 0);
        NextFactor(b, second, c, "", 0);
        match Apply(second, b, c)
        case Err(e) =>
          FailedSummand(a, first, Decimal(b) + more, e, 0);
        case Ok(v) =>
          NextSummand(a, first, Decimal(b) + more, v, "", 0);
      }
    } else {
      TermStops(0, second, Decimal(c) + "", 0);
      SumLast(first, second, a, b, c, more);
    }
  }

  /** The second operator is a plus or a minus. */
  lemma SumLast(first: BinOp, second: BinOp, a: int, b: int, c: int, more: string)
    requires Operand(a) && Operand(b) && Operand(c) && !Tight(second) && more == OpText(second) + (Decimal(c) + "")
    ensures Expr(Decimal(a) + (OpText(first) + (Decimal(b) + more)), 0)
         == match Grouped(first, second, a, b, c) { case Err(e) => Failed(e) case Ok(v) => Value(v, "") }
  {
    hide Decimal, Apply, OpText, TermLoop, ExprLoop, Term, Skip;
    var rest := OpText(first) + (Decimal(b) + more);
    EndOfText();
    TermStops(b, second, Decimal(c) + "", 0);
    FirstOperand(c, "", 0);
    var r := Apply(first, a, b);
    if Tight(first) {
      FactorFollows(first, b, more);
      FirstOperand(a, rest, 0);
      NextFactor(a, first, b, more, 0);
    } else {
      TermStops(a, first, Decimal(b) + more, 0);
      FirstOperand(a, rest, 0);
      FirstOperand(b, more, 0);
      NextSummand(a, first, Decimal(b) + more, b, more, 0);
    }
    if r.Ok? {
      TermStops(r.value, second, Decimal(c) + "", 0);
      NextSummand(r.value, second, Decimal(c) + "", c, "", 0);
    }
  }

  // ---- powers ----

  /** A power is a repeated product. */
  lemma PowIs(b: int, e: nat)
    ensures Pow(b, 0) == 1 && Pow(b, e + 1) == Pow(b, e) * b
  {
    Commute(b, Pow(b, e));
  }

  /** What a power with base `b`, written with its sign, comes to: the sign is taken last. */
  function SignedPower(b: int, e: int): Result<int> {
    if b >= 0 then PowerOf(b, e)
    else match PowerOf(-b, e) { case Err(x) => Err(x) case Ok(v) => Checked(-v) }
  }

  /** Two operands and either sign of exponentiation between them. */
  lemma PowerEvaluates(stars: bool, b: int, e: int)
    requires Operand(b) && Operand(e)
    ensures Evaluate(Decimal(b) + (if stars then "**" else "^") + Decimal(e)) == SignedPower(b, e)
  {
    hide Decimal, PowerOf, Unary, Expr, Evaluate, Checked;
    var sign := if stars then "**" else "^";
    var text := Decimal(b) + sign + Decimal(e);
    assert text == Decimal(b) + (sign + (Decimal(e) + ""));
    EndOfText();
    PowerReads(stars, b, e, "", 0);
    PowerAlone(text, SignedPower(b, e));
    Ends(text, SignedPower(b, e));
  }

  lemma PowerAlone(text: string, r: Result<int>)
    requires Unary(text, 0) == Lift(r, "")
    ensures Expr(text, 0) == match r { case Err(e) => Failed(e) case Ok(v) => Value(v, "") }
  {
    hide Unary, TermLoop, ExprLoop;
    EndOfText();
    if r.Ok? {
      assert Term(text, 0) == TermLoop(r.value, "", 0);
    }
  }

  lemma PowerReads(stars: bool, b: int, e: int, rest: string, depth: int)
    requires Operand(b) && Operand(e) && FollowsPower(rest) && depth + 2 < NX_MAXDEPTH
    ensures Unary(Decimal(b) + ((if stars then "**" else "^") + (Decimal(e) + rest)), depth)
         == Lift(SignedPower(b, e), Skip(rest))
  {
    hide PowerOf, Power, Checked, Skip, Decimal, Digits;
    var tail := (if stars then "**" else "^") + (Decimal(e) + rest);
    if b >= 0 {
      NoSign(b, tail, depth);
      BaseReads(stars, b, e, rest, depth);
    } else {
      NoSign(-b, tail, depth + 1);
      BaseReads(stars, -b, e, rest, depth + 1);
      MinusSign(b, tail, depth);
    }
  }

  lemma MinusSign(b: int, tail: string, depth: int)
    requires b < 0 && Deeper(depth)
    ensures Unary(Decimal(b) + tail, depth)
         == match Unary(Decimal(-b) + tail, depth + 1) {
              case Failed(e) => Failed(e)
              case Value(v, r) => Lift(Checked(-v), r)
            }
  {
    hide Digits, Power, Checked;
    var s := Decimal(b) + tail;
    assert s == "-" + (Decimal(-b) + tail) && Skip(s) == s && s[1..] == Decimal(-b) + tail;
  }

  lemma NoSign(b: nat, tail: string, depth: int)
    ensures Unary(Decimal(b) + tail, depth) == Power(Decimal(b) + tail, depth)
  {
    hide Power;
    DigitsMean(b);
    var s := Decimal(b) + tail;
    assert Digit(s[0]) && Skip(s) == s && !StartsSign(s);
  }

  lemma BaseReads(stars: bool, b: nat, e: int, rest: string, depth: int)
    requires Operand(b) && Operand(e) && FollowsPower(rest) && depth + 1 < NX_MAXDEPTH
    ensures Power(Decimal(b) + ((if stars then "**" else "^") + (Decimal(e) + rest)), depth)
         == Lift(PowerOf(b, e), Skip(rest))
  {
    hide PowerOf, Primary, Unary, Decimal;
    var sign := if stars then "**" else "^";
    var tail := sign + (Decimal(e) + rest);
    assert Skip(tail) == tail && PowerSign(tail) == |sign| && tail[|sign|..] == Decimal(e) + rest;
    BaseRead(b, tail, depth);
    OperandReads(e, rest, depth + 1);
  }

  lemma BaseRead(b: nat, tail: string, depth: int)
    requires Operand(b) && FollowsNumber(tail)
    ensures Primary(Decimal(b) + tail, depth) == Value(b, tail)
  {
    hide Digits, NumberValue;
    DigitsMean(b);
    var p := Num("", Digits(b));
    assert "" + Digits(b) == Digits(b) && PrimText(p) == Decimal(b) && PrimOk(p, NX_MAXDEPTH - depth);
    PrimComplete(p, tail, depth);
  }

  // ---- numbers and parentheses ----

  /** A number on its own is its value, or too big for an int. */
  lemma LiteralEvaluates(n: nat)
    ensures Evaluate(Digits(n)) == if n <= 0x7FFF_FFFF then Ok(n) else Err(Overflow)
  {
    hide Evaluate, Expr, Unary, Digits;
    LiteralReads(n, "", 0);
    assert Digits(n) + "" == Digits(n) && Skip("") == "";
    PowerAlone(Digits(n), Checked(n));
    Ends(Digits(n), Checked(n));
  }

  lemma LiteralReads(n: nat, rest: string, depth: int)
    requires FollowsNumber(rest) && PowerSign(Skip(rest)) == 0
    ensures Unary(Digits(n) + rest, depth) == Lift(Checked(n), Skip(rest))
  {
    hide Digits, NumberValue, Number;
    DigitsMean(n);
    var s := Digits(n) + rest;
    EmptyNumber();
    assert "" + Digits(n) == Digits(n) && Digit(s[0]) && Skip(s) == s && !StartsSign(s);
    NumberReads("", Digits(n), rest);
    assert Primary(s, depth) == Lift(Checked(n), rest);
  }

  function Opening(n: nat): string {
    if n == 0 then "" else "(" + Opening(n - 1)
  }

  function Closing(n: nat): string {
    if n == 0 then "" else Closing(n - 1) + ")"
  }

  /** Parentheses around an operand change nothing up to 64 of them, and are too many from 65 on. */
  lemma NestedEvaluates(n: nat, v: nat)
    requires Operand(v)
    ensures Evaluate(Opening(n) + Digits(v) + Closing(n)) == if n <= 64 then Ok(v) else Err(TooDeep)
  {
    hide Evaluate, Expr, Digits;
    NestedReads(n, v, "", 0);
    assert Opening(n) + (Digits(v) + Closing(n)) + "" == Opening(n) + Digits(v) + Closing(n);
    Ends(Opening(n) + Digits(v) + Closing(n), if n <= 64 then Ok(v) else Err(TooDeep));
  }

  lemma {:induction false} NestedReads(n: nat, v: nat, rest: string, depth: nat)
    requires Operand(v) && depth <= 64 && (rest == "" || rest[0] == ')')
    ensures Expr(Opening(n) + (Digits(v) + Closing(n)) + rest, depth)
         == if n + depth <= 64 then Value(v, rest) else Failed(TooDeep)
    decreases n
  {
    hide Digits, Unary, TermLoop, ExprLoop;
    assert Skip(rest) == rest;
    var s := Opening(n) + (Digits(v) + Closing(n)) + rest;
    if n == 0 {
      assert s == Digits(v) + rest;
      LiteralReads(v, rest, depth);
      Alone(s, v, rest, depth);
    } else {
      var inner := Opening(n - 1) + (Digits(v) + Closing(n - 1)) + (")" + rest);
      assert s == "(" + inner;
      if depth < 64 {
        NestedReads(n - 1, v, ")" + rest, depth + 1);
      }
      ParenthesisAlone(s, inner, v, n, rest, depth);
      if n + depth <= 64 {
        Alone(s, v, rest, depth);
      }
    }
  }

  lemma Alone(s: string, v: int, rest: string, depth: int)
    requires Unary(s, depth) == Value(v, rest) && (rest == "" || rest[0] == ')')
    ensures Expr(s, depth) == Value(v, rest)
  {
    hide Unary;
    assert Skip(rest) == rest;
    assert Term(s, depth) == TermLoop(v, rest, depth) == Value(v, rest);
  }

  lemma ParenthesisAlone(s: string, inner: string, v: int, n: nat, rest: string, depth: nat)
    requires s == "(" + inner && (rest == "" || rest[0] == ')') && depth <= 64 && n > 0
    requires depth < 64 ==>
      Expr(inner, depth + 1) == if n + depth <= 64 then Value(v, ")" + rest) else Failed(TooDeep)
    ensures Unary(s, depth) == if n + depth <= 64 then Value(v, rest) else Failed(TooDeep)
    ensures n + depth > 64 ==> Expr(s, depth) == Failed(TooDeep)
  {
    hide Expr;
    assert Skip(s) == s && s[1..] == inner && (")" + rest)[1..] == rest && Skip(rest) == rest;
    assert Primary(s, depth) == if n + depth <= 64 then Value(v, rest) else Failed(TooDeep);
    assert Unary(s, depth) == Power(s, depth);
    if n + depth > 64 {
      UnaryFails(s, TooDeep, depth);
    }
  }

  lemma UnaryFails(s: string, e: Error, depth: int)
    requires Unary(s, depth) == Failed(e)
    ensures Expr(s, depth) == Failed(e)
  {
    hide Unary;
    assert Term(s, depth) == Failed(e);
  }
}
