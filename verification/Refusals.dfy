/** What bin/numix.c says of texts that are no expressions: one lemma for each of its complaints. */
module Refusals {
  import opened Integers
  import opened Expressions
  import opened Evaluation
  import opened Operators

  lemma ExprFails(s: string, e: Error)
    requires Primary(s, 0) == Failed(e) && Skip(s) == s && !StartsSign(s)
    ensures Evaluate(s) == Err(e)
  {
    hide Primary, Expr;
    assert Unary(s, 0) == Failed(e);
    UnaryFails(s, e, 0);
  }

  /** Where a number must stand and something else does: neither a digit, a blank, a sign nor a parenthesis. */
  lemma NoNumber(s: string)
    requires s == "" || (!Digit(s[0]) && s[0] !in " \t+-(")
    ensures Evaluate(s) == Err(InvalidOperation)
  {
    assert Skip(s) == s;
    assert Primary(s, 0) == Failed(InvalidOperation);
    ExprFails(s, InvalidOperation);
  }

  /** A number with a point or a comma behind it. */
  lemma PointRefused(n: nat, c: char, s: string)
    requires n <= 0x7FFF_FFFF && c in ".,"
    ensures Evaluate(Digits(n) + [c] + s) == Err(IntegersOnly)
  {
    hide Digits, NumberValue, Number, Expr;
    DigitsMean(n);
    var text := Digits(n) + [c] + s;
    var rest := [c] + s;
    assert text == Digits(n) + rest && "" + Digits(n) == Digits(n);
    EmptyNumber();
    assert Digit(text[0]) && Skip(text) == text && !StartsSign(text);
    PointAfter("", Digits(n), rest);
    assert Primary(text, 0) == Failed(IntegersOnly);
    ExprFails(text, IntegersOnly);
  }

  lemma {:induction false} PointAfter(done: string, todo: string, rest: string)
    requires AllDigits(done) && AllDigits(todo) && done + todo != [] && rest != "" && rest[0] in ".,"
    requires InRange(NumberValue(done)) && InRange(NumberValue(done + todo)) && 0 <= NumberValue(done)
    ensures Number(todo + rest, NumberValue(done), done != []) == Failed(IntegersOnly)
    decreases |todo|
  {
    hide NumberValue;
    if todo == [] {
      assert todo + rest == rest && done + todo == done;
    } else {
      var done' := done + [todo[0]];
      NumberValueMore(done, todo[0]);
      assert (todo + rest)[1..] == todo[1..] + rest && done' + todo[1..] == done + todo;
      NumberValueGrows(done, [todo[0]]);
      NumberValueGrows(done', todo[1..]);
      PointAfter(done', todo[1..], rest);
    }
  }

  /** A parenthesis that is not closed. */
  lemma UnclosedRefused(v: nat)
    requires Operand(v)
    ensures Evaluate("(" + Digits(v)) == Err(MissingParenthesis)
  {
    hide Digits, Expr, Unary;
    var text := "(" + Digits(v);
    LiteralReads(v, "", 1);
    assert Digits(v) + "" == Digits(v) && Skip("") == "";
    Alone(Digits(v), v, "", 1);
    assert text[1..] == Digits(v) && Skip(text) == text;
    assert Primary(text, 0) == Failed(MissingParenthesis);
    ExprFails(text, MissingParenthesis);
  }

  /** Anything behind the expression that could not go on with it. */
  lemma TrailingRefused(v: nat, c: char, s: string)
    requires Operand(v) && !Digit(c) && c !in " \t.,+-*/%^"
    ensures Evaluate(Digits(v) + [c] + s) == Err(InvalidOperation)
  {
    hide Digits, Expr, Unary;
    var rest := [c] + s;
    assert Digits(v) + [c] + s == Digits(v) + rest && Skip(rest) == rest;
    LiteralReads(v, rest, 0);
    Stops(Digits(v) + rest, v, rest);
  }

  lemma Stops(s: string, v: int, rest: string)
    requires Unary(s, 0) == Value(v, rest) && rest != "" && rest[0] !in " \t+-*/%"
    ensures Expr(s, 0) == Value(v, rest)
  {
    hide Unary;
    assert Skip(rest) == rest;
    assert Term(s, 0) == TermLoop(v, rest, 0) == Value(v, rest);
  }

  /** A negative exponent, whatever the base. */
  lemma NegativeExponentRefused(stars: bool, b: int, e: int)
    requires Operand(b) && Operand(e) && e < 0
    ensures Evaluate(Decimal(b) + (if stars then "**" else "^") + Decimal(e)) == Err(NegativeExponent)
  {
    hide Decimal, Evaluate;
    PowerEvaluates(stars, b, e);
  }
}
