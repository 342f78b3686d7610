/** The recursive-descent evaluator of bin/numix.c as functions on the text that is left to read, a grammar
    of expression trees, and the theorem that the two agree. */
module Expressions {
  import opened Integers

  const NX_MAXDEPTH := 64

  // ---- the evaluator ----

  /** A value and the text after the expression, or the first error. */
  datatype Eval = Value(value: int, rest: string) | Failed(error: Error)

  predicate Blank(c: char) { c == ' ' || c == '\t' }

  predicate Digit(c: char) { '0' <= c <= '9' }

  function DigitValue(c: char): (d: int)
    requires Digit(c)
    ensures 0 <= d <= 9
  {
    c as int - '0' as int
  }

  /** skip. */
  function Skip(s: string): (r: string)
    ensures |r| <= |s|
    ensures r == [] || !Blank(r[0])
  {
    if s != [] && Blank(s[0]) then Skip(s[1..]) else s
  }

  predicate Starts(s: string, c: char) {
    s != [] && s[0] == c
  }

  /** The two characters that follow are both `c`. */
  predicate StartsTwice(s: string, c: char) {
    |s| >= 2 && s[0] == c && s[1] == c
  }

  /** number, after the digits read so far gave `v`. */
  function Number(s: string, v: int, any: bool): (r: Eval)
    requires 0 <= v
    ensures r.Value? ==> |r.rest| <= |s| && (!any ==> |r.rest| < |s|)
    decreases |s|
  {
    if s != [] && Digit(s[0]) then
      var v' := v * 10 + DigitValue(s[0]);
      if InRange(v') then Number(s[1..], v', true) else Failed(Overflow)
    else if any && (Starts(s, '.') || Starts(s, ',')) then Failed(IntegersOnly)
    else if any then Value(v, s)
    else Failed(InvalidOperation)
  }

  /** Enter one more level of nesting. */
  predicate Deeper(depth: int) {
    depth + 1 <= NX_MAXDEPTH
  }

  /** primary. */
  function Primary(s: string, depth: int): (r: Eval)
    ensures r.Value? ==> |r.rest| < |s|
    decreases |s|, 0
  {
    var t := Skip(s);
    if Starts(t, '(') then
      if !Deeper(depth) then Failed(TooDeep)
      else
        match Expr(t[1..], depth + 1)
        case Failed(e) => Failed(e)
        case Value(v, r) =>
          var u := Skip(r);
          if Starts(u, ')') then Value(v, u[1..]) else Failed(MissingParenthesis)
    else Number(t, 0, false)
  }

  /** Length of the operator of exponentiation at the start of `s`, 0 if there is none. */
  function PowerSign(s: string): (n: nat)
    ensures n <= |s|
  {
    if Starts(s, '^') then 1 else if StartsTwice(s, '*') then 2 else 0
  }

  function Lift(r: Result<int>, rest: string): Eval {
    match r
    case Ok(v) => Value(v, rest)
    case Err(e) => Failed(e)
  }

  /** power. */
  function Power(s: string, depth: int): (r: Eval)
    ensures r.Value? ==> |r.rest| < |s|
    decreases |s|, 1
  {
    match Primary(s, depth)
    case Failed(e) => Failed(e)
    case Value(b, r) =>
      var t := Skip(r);
      var n := PowerSign(t);
      if n == 0 then Value(b, t)
      else if !Deeper(depth) then Failed(TooDeep)
      else
        match Unary(t[n..], depth + 1)
        case Failed(e) => Failed(e)
        case Value(e, r2) => Lift(PowerOf(b, e), r2)
  }

  predicate StartsSign(s: string) {
    Starts(s, '-') || Starts(s, '+')
  }

  /** unary. */
  function Unary(s: string, depth: int): (r: Eval)
    ensures r.Value? ==> |r.rest| < |s|
    decreases |s|, 2
  {
    var t := Skip(s);
    if StartsSign(t) then
      if !Deeper(depth) then Failed(TooDeep)
      else
        match Unary(t[1..], depth + 1)
        case Failed(e) => Failed(e)
        case Value(v, r) => if t[0] == '-' then Lift(Checked(-v), r) else Value(v, r)
    else Power(t, depth)
  }

  datatype Operator = NoOperator | Operator(op: BinOp, length: nat)

  /** The operator of a term at the start of `s`. */
  function TermOperator(s: string): (o: Operator)
    ensures o.Operator? ==> 0 < o.length <= |s|
  {
    if Starts(s, '*') && !StartsTwice(s, '*') then Operator(Mul, 1)
    else if StartsTwice(s, '/') then Operator(FloorDiv, 2)
    else if Starts(s, '/') then Operator(Div, 1)
    else if Starts(s, '%') then Operator(Mod, 1)
    else NoOperator
  }

  function SumOperator(s: string): (o: Operator)
    ensures o.Operator? ==> 0 < o.length <= |s|
  {
    if Starts(s, '+') then Operator(Add, 1) else if Starts(s, '-') then Operator(Sub, 1) else NoOperator
  }

  /** term. */
  function Term(s: string, depth: int): (r: Eval)
    ensures r.Value? ==> |r.rest| < |s|
    decreases |s|, 3
  {
    match Unary(s, depth)
    case Failed(e) => Failed(e)
    case Value(a, r) => TermLoop(a, r, depth)
  }

  /** The loop of term with value `a` so far. */
  function TermLoop(a: int, s: string, depth: int): (r: Eval)
    ensures r.Value? ==> |r.rest| <= |s|
    decreases |s|, 3
  {
    var t := Skip(s);
    match TermOperator(t)
    case NoOperator => Value(a, t)
    case Operator(op, n) =>
      match Unary(t[n..], depth)
      case Failed(e) => Failed(e)
      case Value(b, r) =>
        match Apply(op, a, b)
        case Err(e) => Failed(e)
        case Ok(v) => TermLoop(v, r, depth)
  }

  /** expr. */
  function Expr(s: string, depth: int): (r: Eval)
    ensures r.Value? ==> |r.rest| < |s|
    decreases |s|, 4
  {
    match Term(s, depth)
    case Failed(e) => Failed(e)
    case Value(a, r) => ExprLoop(a, r, depth)
  }

  function ExprLoop(a: int, s: string, depth: int): (r: Eval)
    ensures r.Value? ==> |r.rest| <= |s|
    decreases |s|, 4
  {
    var t := Skip(s);
    match SumOperator(t)
    case NoOperator => Value(a, t)
    case Operator(op, n) =>
      match Term(t[n..], depth)
      case Failed(e) => Failed(e)
      case Value(b, r) =>
        match Apply(op, a, b)
        case Err(e) => Failed(e)
        case Ok(v) => ExprLoop(v, r, depth)
  }

  /** cmd_numix on an operand: the value of the whole text. */
  function Evaluate(text: string): Result<int> {
    match Expr(text, 0)
    case Failed(e) => Err(e)
    case Value(v, r) => if Skip(r) == [] then Ok(v) else Err(InvalidOperation)
  }

  // ---- expression trees ----

  /** Every token carries the blanks in front of it. */
  datatype Prim = Num(ws: string, digits: string) | Paren(ws: string, inner: Sum, close: string)
  datatype Raised = Plain(base: Prim) | Raise(base: Prim, ws: string, stars: bool, exponent: Signed)
  datatype Signed = Unsigned(ws: string, power: Raised) | Sign(ws: string, minus: bool, operand: Signed)
  datatype Product = Factor(first: Signed) | Times(left: Product, ws: string, op: BinOp, right: Signed)
  datatype Sum = Summand(only: Product) | Plus(left: Sum, ws: string, op: BinOp, right: Product)

  predicate Blanks(s: string) {
    forall k :: 0 <= k < |s| ==> Blank(s[k])
  }

  function OpText(op: BinOp): (s: string)
    ensures 1 <= |s| <= 2
  {
    match op
    case Add => "+"
    case Sub => "-"
    case Mul => "*"
    case Div => "/"
    case FloorDiv => "//"
    case Mod => "%"
  }

  function PowerText(stars: bool): string {
    if stars then "**" else "^"
  }

  function PrimText(p: Prim): string {
    match p
    case Num(ws, digits) => ws + digits
    case Paren(ws, e, close) => ws + "(" + SumText(e) + close + ")"
  }

  function RaisedText(r: Raised): string {
    match r
    case Plain(b) => PrimText(b)
    case Raise(b, ws, stars, e) => PrimText(b) + ws + PowerText(stars) + SignedText(e)
  }

  function SignedText(u: Signed): string {
    match u
    case Unsigned(ws, p) => ws + RaisedText(p)
    case Sign(ws, minus, v) => ws + (if minus then "-" else "+") + SignedText(v)
  }

  function ProductText(t: Product): string {
    match t
    case Factor(u) => SignedText(u)
    case Times(l, ws, op, u) => ProductText(l) + ws + OpText(op) + SignedText(u)
  }

  function SumText(e: Sum): string {
    match e
    case Summand(t) => ProductText(t)
    case Plus(l, ws, op, t) => SumText(l) + ws + OpText(op) + ProductText(t)
  }

  // ---- what a tree means ----

  function NumberValue(digits: string): int
    requires forall k :: 0 <= k < |digits| ==> Digit(digits[k])
  {
    if digits == [] then 0
    else NumberValue(digits[..|digits| - 1]) * 10 + DigitValue(digits[|digits| - 1])
  }

  predicate AllDigits(s: string) {
    forall k :: 0 <= k < |s| ==> Digit(s[k])
  }

  /** The exact integer value; 0 where there is none. */
  function PrimMeans(p: Prim): int {
    match p
    case Num(_, digits) => if AllDigits(digits) then NumberValue(digits) else 0
    case Paren(_, e, _) => SumMeans(e)
  }

  function RaisedMeans(r: Raised): int {
    match r
    case Plain(b) => PrimMeans(b)
    case Raise(b, _, _, e) => if SignedMeans(e) < 0 then 0 else Pow(PrimMeans(b), SignedMeans(e))
  }

  function SignedMeans(u: Signed): int {
    match u
    case Unsigned(_, p) => RaisedMeans(p)
    case Sign(_, minus, v) => if minus then -SignedMeans(v) else SignedMeans(v)
  }

  function ProductMeans(t: Product): int {
    match t
    case Factor(u) => SignedMeans(u)
    case Times(l, _, op, u) =>
      if op in {Div, FloorDiv, Mod} && SignedMeans(u) == 0 then 0 else Exact(op, ProductMeans(l), SignedMeans(u))
  }

  function SumMeans(e: Sum): int {
    match e
    case Summand(t) => ProductMeans(t)
    case Plus(l, _, op, t) => if op == Sub then SumMeans(l) - ProductMeans(t) else SumMeans(l) + ProductMeans(t)
  }

  // ---- which trees are expressions with a value ----

  /** Well formed, nested at most `depth` levels, and every subexpression has a value that fits an int. */
  predicate PrimOk(p: Prim, depth: int) {
    && InRange(PrimMeans(p))
    && match p
       case Num(ws, digits) => Blanks(ws) && digits != [] && AllDigits(digits)
       case Paren(ws, e, close) => Blanks(ws) && Blanks(close) && depth >= 1 && SumOk(e, depth - 1)
  }

  predicate RaisedOk(r: Raised, depth: int) {
    && InRange(RaisedMeans(r))
    && match r
       case Plain(b) => PrimOk(b, depth)
       case Raise(b, ws, _, e) =>
         PrimOk(b, depth) && Blanks(ws) && depth >= 1 && SignedOk(e, depth - 1) && SignedMeans(e) >= 0
  }

  predicate SignedOk(u: Signed, depth: int) {
    && InRange(SignedMeans(u))
    && match u
       case Unsigned(ws, p) => Blanks(ws) && RaisedOk(p, depth)
       case Sign(ws, _, v) => Blanks(ws) && depth >= 1 && SignedOk(v, depth - 1)
  }

  predicate ProductOk(t: Product, depth: int) {
    && InRange(ProductMeans(t))
    && match t
       case Factor(u) => SignedOk(u, depth)
       case Times(l, ws, op, u) =>
         && ProductOk(l, depth) && Blanks(ws) && op in {Mul, Div, FloorDiv, Mod} && SignedOk(u, depth)
         && (op != Mul ==> SignedMeans(u) != 0)
  }

  predicate SumOk(e: Sum, depth: int) {
    && InRange(SumMeans(e))
    && match e
       case Summand(t) => ProductOk(t, depth)
       case Plus(l, ws, op, t) => SumOk(l, depth) && Blanks(ws) && op in {Add, Sub} && ProductOk(t, depth)
  }
}
