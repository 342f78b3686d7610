/** Blanks between the tokens of a text do not matter to the calculator. */
module Spacing {
  import opened Integers
  import opened Expressions

  /** A blank may come between `p` and `q` without cutting a token, or a number from the point behind it. */
  predicate Free(p: char, q: char) {
    && !(Digit(p) && (Digit(q) || q == '.' || q == ','))
    && !(p == '*' && q == '*') && !(p == '/' && q == '/')
  }

  /** `y` is `x` with the space or tab `c` put in before its character `k`, or at its end. */
  predicate Spaced(x: string, y: string, k: nat, c: char) {
    && k <= |x| && (c == ' ' || c == '\t') && y == x[..k] + [c] + x[k..]
    && (0 < k < |x| ==> Free(x[k - 1], x[k]))
  }

  ghost predicate Alike(x: string, y: string) {
    x == y || exists k, c :: Spaced(x, y, k, c)
  }

  /** The same, with no blank put in front. */
  ghost predicate Firm(x: string, y: string) {
    x == y || exists k, c :: k > 0 && Spaced(x, y, k, c)
  }

  lemma Drop(x: string, y: string, k: nat, c: char, n: nat)
    requires Spaced(x, y, k, c) && n <= k
    ensures Spaced(x[n..], y[n..], k - n, c) && y[..n] == x[..n]
  {
    assert y[n..] == x[n..][..k - n] + [c] + x[n..][k - n..];
  }

  /** The first characters agree, one and two of them where an operator has two. */
  lemma FirmHead(x: string, y: string)
    requires Firm(x, y)
    ensures x == [] <==> y == []
    ensures x != [] ==> x[0] == y[0] && Alike(x[1..], y[1..])
    ensures StartsTwice(x, '*') <==> StartsTwice(y, '*')
    ensures StartsTwice(x, '/') <==> StartsTwice(y, '/')
    ensures StartsTwice(x, '*') || StartsTwice(x, '/') ==> Alike(x[2..], y[2..])
  {
    if x != y {
      var k, c :| k > 0 && Spaced(x, y, k, c);
      Drop(x, y, k, c, 1);
      if k > 1 {
        Drop(x, y, k, c, 2);
      }
    }
  }

  lemma {:induction false} SkipAlike(x: string, y: string)
    requires Alike(x, y)
    ensures Firm(Skip(x), Skip(y))
    decreases |x|
  {
    if x != y {
      var k, c :| Spaced(x, y, k, c);
      if k == 0 {
        assert y[1..] == x;
      } else {
        Drop(x, y, k, c, 1);
        if Blank(x[0]) {
          SkipAlike(x[1..], y[1..]);
        }
      }
    }
  }

  /** Both fail with the same error, or both give the same value and leave texts that are alike. */
  ghost predicate Agree(r: Eval, s: Eval) {
    match r
    case Failed(e) => s == Failed(e)
    case Value(v, rest) => s.Value? && s.value == v && Alike(rest, s.rest)
  }

  lemma {:induction false} NumberAlike(x: string, y: string, k: nat, c: char, v: int, any: bool)
    requires 0 <= v && Spaced(x, y, k, c)
    requires k == 0 ==> any && (x == [] || !(Digit(x[0]) || x[0] == '.' || x[0] == ','))
    ensures Agree(Number(x, v, any), Number(y, v, any))
    decreases |x|
  {
    if k > 0 {
      Drop(x, y, k, c, 1);
      if Digit(x[0]) && InRange(v * 10 + DigitValue(x[0])) {
        NumberAlike(x[1..], y[1..], k - 1, c, v * 10 + DigitValue(x[0]), true);
      }
    }
  }

  lemma NumberFirm(x: string, y: string)
    requires Firm(x, y)
    ensures Agree(Number(x, 0, false), Number(y, 0, false))
  {
    if x != y {
      var k, c :| k > 0 && Spaced(x, y, k, c);
      NumberAlike(x, y, k, c, 0, false);
    }
  }

  lemma {:induction false} PrimaryAlike(x: string, y: string, depth: int)
    requires Alike(x, y)
    ensures Agree(Primary(x, depth), Primary(y, depth))
    decreases |x|, 0
  {
    hide Alike, Firm, Number, Skip;
    SkipAlike(x, y);
    var t, u := Skip(x), Skip(y);
    FirmHead(t, u);
    if Starts(t, '(') {
      if Deeper(depth) {
        ExprAlike(t[1..], u[1..], depth + 1);
        var r, s := Expr(t[1..], depth + 1), Expr(u[1..], depth + 1);
        if r.Value? {
          SkipAlike(r.rest, s.rest);
          FirmHead(Skip(r.rest), Skip(s.rest));
        }
      }
    } else {
      NumberFirm(t, u);
    }
  }

  lemma {:induction false} PowerAlike(x: string, y: string, depth: int)
    requires Alike(x, y)
    ensures Agree(Power(x, depth), Power(y, depth))
    decreases |x|, 1
  {
    hide Alike, Firm, Primary, Unary, Skip, PowerOf;
    PrimaryAlike(x, y, depth);
    var r, s := Primary(x, depth), Primary(y, depth);
    if r.Value? {
      SkipAlike(r.rest, s.rest);
      var t, u := Skip(r.rest), Skip(s.rest);
      FirmHead(t, u);
      var n := PowerSign(t);
      if n == 0 {
        FirmAlike(t, u);
      } else if Deeper(depth) {
        UnaryAlike(t[n..], u[n..], depth + 1);
      }
    }
  }

  lemma FirmAlike(x: string, y: string)
    requires Firm(x, y)
    ensures Alike(x, y)
  {
  }

  lemma {:induction false} UnaryAlike(x: string, y: string, depth: int)
    requires Alike(x, y)
    ensures Agree(Unary(x, depth), Unary(y, depth))
    decreases |x|, 2
  {
    hide Alike, Firm, Power, Skip, Checked;
    SkipAlike(x, y);
    var t, u := Skip(x), Skip(y);
    FirmHead(t, u);
    if StartsSign(t) {
      if Deeper(depth) {
        UnaryAlike(t[1..], u[1..], depth + 1);
      }
    } else {
      FirmAlike(t, u);
      PowerAlike(t, u, depth);
    }
  }

  lemma {:induction false} TermAlike(x: string, y: string, depth: int)
    requires Alike(x, y)
    ensures Agree(Term(x, depth), Term(y, depth))
    decreases |x|, 3
  {
    hide Alike, Unary, TermLoop;
    UnaryAlike(x, y, depth);
    var r, s := Unary(x, depth), Unary(y, depth);
    if r.Value? {
      TermLoopAlike(r.value, r.rest, s.rest, depth);
    }
  }

  lemma {:induction false} TermLoopAlike(a: int, x: string, y: string, depth: int)
    requires Alike(x, y)
    ensures Agree(TermLoop(a, x, depth), TermLoop(a, y, depth))
    decreases |x|, 3
  {
    hide Alike, Firm, Unary, Skip, Apply;
    SkipAlike(x, y);
    var t, u := Skip(x), Skip(y);
    FirmHead(t, u);
    match TermOperator(t)
    case NoOperator =>
      FirmAlike(t, u);
    case Operator(op, n) =>
      UnaryAlike(t[n..], u[n..], depth);
      var r, s := Unary(t[n..], depth), Unary(u[n..], depth);
      if r.Value? && Apply(op, a, r.value).Ok? {
        TermLoopAlike(Apply(op, a, r.value).value, r.rest, s.rest, depth);
      }
  }

  lemma {:induction false} ExprAlike(x: string, y: string, depth: int)
    requires Alike(x, y)
    ensures Agree(Expr(x, depth), Expr(y, depth))
    decreases |x|, 4
  {
    hide Alike, Term, ExprLoop;
    TermAlike(x, y, depth);
    var r, s := Term(x, depth), Term(y, depth);
    if r.Value? {
      ExprLoopAlike(r.value, r.rest, s.rest, depth);
    }
  }

  lemma {:induction false} ExprLoopAlike(a: int, x: string, y: string, depth: int)
    requires Alike(x, y)
    ensures Agree(ExprLoop(a, x, depth), ExprLoop(a, y, depth))
    decreases |x|, 4
  {
    hide Alike, Firm, Term, Skip, Apply;
    SkipAlike(x, y);
    var t, u := Skip(x), Skip(y);
    FirmHead(t, u);
    match SumOperator(t)
    case NoOperator =>
      FirmAlike(t, u);
    case Operator(op, n) =>
      TermAlike(t[n..], u[n..], depth);
      var r, s := Term(t[n..], depth), Term(u[n..], depth);
      if r.Value? && Apply(op, a, r.value).Ok? {
        ExprLoopAlike(Apply(op, a, r.value).value, r.rest, s.rest, depth);
      }
  }

  /** A space or a tab put in anywhere but inside a token, in front and behind included, changes neither the
      value of a text nor the error it is refused with. */
  lemma BlanksBetweenTokens(before: string, after: string, tab: bool)
    requires before != [] && after != [] ==> Free(before[|before| - 1], after[0])
    ensures Evaluate(before + (if tab then "\t" else " ") + after) == Evaluate(before + after)
  {
    hide Expr, Skip;
    var x := before + after;
    var c := if tab then '\t' else ' ';
    var y := before + [c] + after;
    assert x[..|before|] == before && x[|before|..] == after;
    assert Spaced(x, y, |before|, c);
    ExprAlike(x, y, 0);
    var r, s := Expr(x, 0), Expr(y, 0);
    if r.Value? {
      SkipAlike(r.rest, s.rest);
      FirmHead(Skip(r.rest), Skip(s.rest));
    }
  }
}
