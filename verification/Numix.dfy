/** bin/numix.c: the calculator with its global cursor, error and nesting depth. */
module Numix {
  import opened Bytes
  import opened Integers
  import opened Expressions
  import opened Evaluation

  /** What cmd_numix prints: the two fixed texts are left symbolic. */
  datatype Shown = Usage | Help | Answer(text: string) | Failure(error: Error)

  predicate IsHelp(s: string) {
    |s| >= 4 && s[..4] == "help" && (|s| == 4 || Blank(s[4]))
  }

  /** What the command is for: the value of its operand in decimal, or the first error in it. */
  function Reply(param: string): Shown {
    var s := Skip(param);
    if s == [] then Usage
    else if IsHelp(s) then Help
    else
      match Evaluate(s)
      case Ok(v) => Answer(Decimal(v))
      case Err(e) => Failure(e)
  }

  lemma DecimalInjective(v: int, w: int)
    requires Decimal(v) == Decimal(w)
    ensures v == w
  {
    hide NumberValue, Digits;
    var m, n := if v < 0 then -v else v, if w < 0 then -w else w;
    DigitsMean(m);
    DigitsMean(n);
    assert v < 0 ==> Decimal(v)[0] == '-' && Decimal(v)[1..] == Digits(m);
    assert w < 0 ==> Decimal(w)[0] == '-' && Decimal(w)[1..] == Digits(n);
  }

  /** The calculator prints a number exactly when its operand denotes that number. */
  lemma ReplyAnswers(param: string, v: int)
    ensures Reply(param) == Answer(Decimal(v)) <==> Denotes(Skip(param), v)
  {
    hide Decimal, Denotes, Skip, Expr;
    var s := Skip(param);
    EvaluateCorrect(s, v);
    WordsHaveNoValue(s);
    if Evaluate(s).Ok? && Decimal(Evaluate(s).value) == Decimal(v) {
      DecimalInjective(Evaluate(s).value, v);
    }
  }

  lemma WordsHaveNoValue(s: string)
    ensures s == [] || IsHelp(s) ==> Evaluate(s).Err?
  {
    if s == [] || IsHelp(s) {
      assert Skip(s) == s;
      assert Primary(s, 0) == Failed(InvalidOperation);
      assert Power(s, 0) == Failed(InvalidOperation);
      assert Unary(s, 0) == Failed(InvalidOperation);
      assert Term(s, 0) == Failed(InvalidOperation);
    }
  }

  /** Values the evaluator hands on fit an int. */
  lemma ValuesFit(s: string, depth: int)
    ensures Primary(s, depth).Value? ==> InRange(Primary(s, depth).value)
    ensures Unary(s, depth).Value? ==> InRange(Unary(s, depth).value)
    ensures Term(s, depth).Value? ==> InRange(Term(s, depth).value)
    ensures Expr(s, depth).Value? ==> InRange(Expr(s, depth).value)
  {
    hide Primary, Unary, Term, Expr;
    if Primary(s, depth).Value? {
      var p := PrimSound(s, depth);
    }
    if Unary(s, depth).Value? {
      var u, ws := SignedSound(s, depth);
    }
    if Term(s, depth).Value? {
      var t, ws := ProductSound(s, depth);
    }
    if Expr(s, depth).Value? {
      var e, ws := SumSound(s, depth);
    }
  }

  /** What primary makes of a parenthesis. */
  function InParentheses(t: string, depth: int): Eval
    requires t != []
  {
    if !Deeper(depth) then Failed(TooDeep)
    else
      match Expr(t[1..], depth + 1)
      case Failed(e) => Failed(e)
      case Value(v, r) =>
        var u := Skip(r);
        if Starts(u, ')') then Value(v, u[1..]) else Failed(MissingParenthesis)
  }

  lemma PrimaryAt(s: string, depth: int)
    ensures var t := Skip(s);
      Primary(s, depth) == if Starts(t, '(') then InParentheses(t, depth) else Number(t, 0, false)
  {
    hide Expr, Number, Skip;
  }

  /** One pass of the loop of term. */
  lemma TermLoopAt(a: int, s: string, depth: int)
    ensures var t := Skip(s);
            var o := TermOperator(t);
      && (o.NoOperator? ==> TermLoop(a, s, depth) == Value(a, t))
      && (o.Operator? ==>
            var u := Unary(t[o.length..], depth);
            && (u.Failed? ==> TermLoop(a, s, depth) == Failed(u.error))
            && (u.Value? ==>
                  var v := Apply(o.op, a, u.value);
                  TermLoop(a, s, depth) == if v.Err? then Failed(v.error) else TermLoop(v.value, u.rest, depth)))
  {
    hide Unary, Skip, Apply;
  }

  /** One pass of the loop of expr. */
  lemma ExprLoopAt(a: int, s: string, depth: int)
    ensures var t := Skip(s);
            var o := SumOperator(t);
      && (o.NoOperator? ==> ExprLoop(a, s, depth) == Value(a, t))
      && (o.Operator? ==>
            var u := Term(t[o.length..], depth);
            && (u.Failed? ==> ExprLoop(a, s, depth) == Failed(u.error))
            && (u.Value? ==>
                  var v := Apply(o.op, a, u.value);
                  ExprLoop(a, s, depth) == if v.Err? then Failed(v.error) else ExprLoop(v.value, u.rest, depth)))
  {
    hide Term, Skip, Apply;
  }

  class Calculator {
    var text: string
    var p: nat
    var err: Option<Error>
    var depth: int

    constructor ()
      ensures fresh(this)
    {
      text, p, err, depth := "", 0, None, 0;
    }

    /** The characters left to read. */
    function Rest(): string
      requires p <= |text|
      reads this`text, this`p
    {
      text[p..]
    }

    /** `p[k]`: the string ends with a NUL. */
    function Peek(k: nat): char
      requires p <= |text|
      reads this`text, this`p
    {
      if p + k < |text| then text[p + k] else '\0'
    }

    /** In the middle of a string without NUL, no error so far. */
    ghost predicate Reading()
      reads this
    {
      p <= |text| && err == None && '\0' !in text
    }

    /** The state after a call whose meaning is `r`, made with nesting depth `d`: on success the cursor is
        behind the expression and the depth is back where it was. */
    ghost predicate After(r: Eval, v: int, d: int)
      reads this
    {
      && p <= |text|
      && match r
         case Value(x, rest) => err == None && v == x && InRange(v) && Rest() == rest && depth == d
         case Failed(e) => err == Some(e) && v == 0
    }

    /** Looking ahead is looking at what is left. */
    lemma PeekIs()
      requires p <= |text| && '\0' !in text
      ensures forall c: char :: c != '\0' ==> (Peek(0) == c <==> Starts(Rest(), c))
      ensures forall c: char :: c != '\0' ==> (Peek(0) == c && Peek(1) == c <==> StartsTwice(Rest(), c))
      ensures Peek(0) == '\0' <==> p == |text|
    {
    }

    method SkipBlanks()
      requires p <= |text| && '\0' !in text
      modifies this`p
      ensures p <= |text| && Rest() == Skip(old(Rest())) && old(p) <= p
    {
      while Peek(0) == ' ' || Peek(0) == '\t'
        invariant old(p) <= p <= |text| && Skip(Rest()) == Skip(old(Rest()))
        decreases |text| - p
      {
        assert Rest()[1..] == text[p + 1..];
        p := p + 1;
      }
    }

    /** number. */
    method ReadNumber() returns (v: int)
      requires Reading()
      modifies this`p, this`err
      ensures After(Number(old(Rest()), 0, false), v, old(depth))
    {
      var any := false;
      v := 0;
      while '0' <= Peek(0) <= '9'
        invariant old(p) <= p <= |text| && 0 <= v && InRange(v) && err == None && (!any ==> v == 0)
        invariant Number(old(Rest()), 0, false) == Number(Rest(), v, any)
        decreases |text| - p
      {
        PeekIs();
        assert Rest()[1..] == text[p + 1..];
        var d := DigitValue(Peek(0));
        p := p + 1;
        if !InRange(v * 10) || !InRange(v * 10 + d) {
          err := Some(Overflow);
          return 0;
        }
        v := v * 10 + d;
        any := true;
      }
      PeekIs();
      if any && (Peek(0) == '.' || Peek(0) == ',') {
        err := Some(IntegersOnly);
        return 0;
      }
      if !any {
        err := Some(InvalidOperation);
      }
    }

    /** primary. */
    method ReadPrimary() returns (v: int)
      requires Reading()
      modifies this`p, this`err, this`depth
      ensures After(Primary(old(Rest()), old(depth)), v, old(depth))
      decreases |text| - p, 0, 1
    {
      hide Number, Skip, InRange, Primary;
      PrimaryAt(Rest(), depth);
      SkipBlanks();
      PeekIs();
      if Peek(0) == '(' {
        v := ReadParenthesis();
      } else {
        v := ReadNumber();
      }
    }

    /** The parenthesis branch of primary. */
    method ReadParenthesis() returns (v: int)
      requires Reading() && Starts(Rest(), '(')
      modifies this`p, this`err, this`depth
      ensures After(InParentheses(old(Rest()), old(depth)), v, old(depth))
      decreases |text| - p, 0, 0
    {
      hide Expr, Skip, InRange;
      ghost var t := Rest();
      depth := depth + 1;
      if depth > NX_MAXDEPTH {
        err := Some(TooDeep);
        return 0;
      }
      p := p + 1;
      assert Rest() == t[1..];
      v := ReadSum();
      depth := depth - 1;
      if err.Some? {
        return 0;
      }
      SkipBlanks();
      PeekIs();
      if Peek(0) != ')' {
        err := Some(MissingParenthesis);
        return 0;
      }
      assert Rest()[1..] == text[p + 1..];
      p := p + 1;
    }

    /** power. */
    method ReadPower() returns (v: int)
      requires Reading()
      modifies this`p, this`err, this`depth
      ensures After(Power(old(Rest()), old(depth)), v, old(depth))
      decreases |text| - p, 1
    {
      hide Primary, Unary, Skip, Pow;
      ghost var s := Rest();
      var b := ReadPrimary();
      if err.Some? {
        return 0;
      }
      SkipBlanks();
      PeekIs();
      ghost var t := Rest();
      if Peek(0) == '^' || (Peek(0) == '*' && Peek(1) == '*') {
        ghost var n := PowerSign(t);
        p := p + (if Peek(0) == '^' then 1 else 2);
        assert Rest() == t[n..];
        depth := depth + 1;
        if depth > NX_MAXDEPTH {
          err := Some(TooDeep);
          return 0;
        }
        var e := ReadSigned();
        depth := depth - 1;
        if err.Some? {
          return 0;
        }
        var power := IPow(b, e);
        match power {
          case Ok(x) => return x;
          case Err(error) =>
            err := Some(error);
            return 0;
        }
      }
      return b;
    }

    /** unary. */
    method ReadSigned() returns (v: int)
      requires Reading()
      modifies this`p, this`err, this`depth
      ensures After(Unary(old(Rest()), old(depth)), v, old(depth))
      decreases |text| - p, 2
    {
      hide Power, Skip;
      SkipBlanks();
      PeekIs();
      ghost var t := Rest();
      if Peek(0) == '-' || Peek(0) == '+' {
        var c := Peek(0);
        p := p + 1;
        assert Rest() == t[1..];
        depth := depth + 1;
        if depth > NX_MAXDEPTH {
          err := Some(TooDeep);
          return 0;
        }
        v := ReadSigned();
        depth := depth - 1;
        if err.Some? {
          return 0;
        }
        if c == '-' {
          if !InRange(0 - v) {
            err := Some(Overflow);
            return 0;
          }
          v := 0 - v;
        }
        return v;
      }
      v := ReadPower();
    }

    /** The operator tests of term. */
    method ReadTermOperator() returns (o: Operator)
      requires p <= |text| && '\0' !in text
      modifies this`p
      ensures o == TermOperator(old(Rest()))
      ensures p <= |text| && Rest() == (if o.NoOperator? then old(Rest()) else old(Rest())[o.length..])
      ensures old(p) <= p && (o.Operator? ==> old(p) < p)
    {
      PeekIs();
      ghost var t := Rest();
      var op, length := Mul, 1;
      if Peek(0) == '*' && Peek(1) != '*' {
      } else if Peek(0) == '/' || Peek(0) == '%' {
        if Peek(0) == '/' && Peek(1) == '/' {
          op, length := FloorDiv, 2;
        } else {
          op := if Peek(0) == '/' then Div else Mod;
        }
      } else {
        return NoOperator;
      }
      p := p + length;
      assert Rest() == t[length..];
      return Operator(op, length);
    }

    /** term. */
    method ReadTerm() returns (v: int)
      requires Reading()
      modifies this`p, this`err, this`depth
      ensures After(Term(old(Rest()), old(depth)), v, old(depth))
      decreases |text| - p, 3
    {
      hide Unary, Skip, Apply, TermLoop, InRange, TermOperator;
      ghost var s, d := Rest(), depth;
      var a := ReadSigned();
      while err == None
        invariant p <= |text| && '\0' !in text
        invariant err == None ==> depth == d && InRange(a) && old(p) < p && Term(s, d) == TermLoop(a, Rest(), d)
        invariant err.Some? ==> Term(s, d) == Failed(err.value)
        decreases if err == None then 1 else 0, |text| - p
      {
        TermLoopAt(a, Rest(), d);
        SkipBlanks();
        var operator := ReadTermOperator();
        if operator.NoOperator? {
          return a;
        }
        var b := ReadSigned();
        if err.Some? {
          break;
        }
        var result := Operate(operator.op, a, b);
        match result {
          case Ok(x) => a := x;
          case Err(error) => err := Some(error);
        }
      }
      return 0;
    }

    /** expr. */
    method ReadSum() returns (v: int)
      requires Reading()
      modifies this`p, this`err, this`depth
      ensures After(Expr(old(Rest()), old(depth)), v, old(depth))
      decreases |text| - p, 4
    {
      hide Term, Skip, Apply, ExprLoop, InRange;
      ghost var s, d := Rest(), depth;
      var a := ReadTerm();
      while err == None
        invariant p <= |text| && '\0' !in text
        invariant err == None ==> depth == d && InRange(a) && old(p) < p && Expr(s, d) == ExprLoop(a, Rest(), d)
        invariant err.Some? ==> Expr(s, d) == Failed(err.value)
        decreases if err == None then 1 else 0, |text| - p
      {
        ExprLoopAt(a, Rest(), d);
        SkipBlanks();
        PeekIs();
        ghost var t := Rest();
        if Peek(0) != '+' && Peek(0) != '-' {
          return a;
        }
        var op := if Peek(0) == '+' then Add else Sub;
        p := p + 1;
        assert SumOperator(t) == Operator(op, 1) && Rest() == t[1..];
        var b := ReadTerm();
        if err.Some? {
          break;
        }
        var result := Operate(op, a, b);
        match result {
          case Ok(x) => a := x;
          case Err(error) => err := Some(error);
        }
      }
      return 0;
    }

    /** cmd_numix. */
    method Command(param: string) returns (shown: Shown)
      requires '\0' !in param
      modifies this
      ensures shown == Reply(param)
    {
      hide Expr, Digits;
      text, p, err, depth := param, 0, None, 0;
      assert Rest() == param;
      SkipBlanks();
      text := Rest();
      p := 0;
      assert Rest() == text;
      if Peek(0) == '\0' {
        return Usage;
      }
      if IsHelp(text) {
        return Help;
      }
      var r := ReadSum();
      if err == None {
        SkipBlanks();
        if Peek(0) != '\0' {
          err := Some(InvalidOperation);
        }
      }
      match err {
        case Some(e) => return Failure(e);
        case None =>
          var decimal := PutInt(r);
          return Answer(decimal);
      }
    }
  }

  function Pow10(k: nat): (n: nat)
    ensures n > 0
  {
    if k == 0 then 1 else 10 * Pow10(k - 1)
  }

  lemma {:induction false} Pow10Grows(j: nat, k: nat)
    requires j <= k
    ensures Pow10(j) <= Pow10(k)
  {
    if j < k {
      Pow10Grows(j, k - 1);
    }
  }

  /** put_int: the digits are written backwards into a buffer of 12 characters, which always suffices. */
  method PutInt(v: int) returns (out: string)
    requires InRange(v)
    ensures out == Decimal(v)
  {
    var buf := new char[12](_ => '\0');
    var n := if v < 0 then -v else v;
    var u := n;
    var i := 11;
    assert Pow10(10) == 10_000_000_000;
    var again := true;
    while again
      invariant 1 <= i <= 11 && 0 <= u && (again ==> 2 <= i)
      invariant again ==> Digits(n) == Digits(u) + buf[i..11]
      invariant !again ==> Digits(n) == buf[i..11]
      invariant again && i < 11 ==> 0 < u
      invariant u * Pow10(11 - i) <= n
      decreases if again then 1 else 0, u
    {
      i := i - 1;
      ghost var was := u;
      ghost var tail := buf[i + 1..11];
      buf[i] := DigitChar(u % 10);
      assert buf[i..11] == [DigitChar(was % 10)] + tail;
      u := u / 10;
      again := u != 0;
      DigitsStep(n, was, tail);
      assert u * Pow10(11 - i) <= n by {
        TenTimes(u, was, Pow10(10 - i));
      }
      if again {
        RoomLeft(u, 11 - i, n);
      }
    }
    if v < 0 {
      i := i - 1;
      buf[i] := '-';
      assert buf[i..11] == ['-'] + buf[i + 1..11];
    }
    return buf[i..11];
  }

  lemma DigitsStep(n: nat, u: nat, tail: string)
    requires Digits(n) == Digits(u) + tail
    ensures Digits(n)
      == (if u / 10 == 0 then [DigitChar(u % 10)] + tail else Digits(u / 10) + ([DigitChar(u % 10)] + tail))
  {
  }

  lemma TenTimes(u: nat, was: nat, x: nat)
    requires u == was / 10
    ensures u * (10 * x) <= was * x
  {
    assert was == 10 * u + was % 10;
    assert was * x == 10 * u * x + (was % 10) * x;
  }

  lemma RoomLeft(u: nat, k: nat, n: nat)
    requires u > 0 && u * Pow10(k) <= n <= 0x8000_0000
    ensures k <= 9
  {
    assert Pow10(10) == 10_000_000_000;
    MulAtLeast(Pow10(k), u);
    if k > 9 {
      Pow10Grows(10, k);
    }
  }
}
