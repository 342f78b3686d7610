/** The evaluator accepts exactly the texts of expression trees whose every intermediate value fits, and
    returns the exact value. */
module Evaluation {
  import opened Integers
  import opened Expressions

  // ---- blanks ----

  lemma {:induction false} SkipBlanks(ws: string, s: string)
    requires Blanks(ws)
    ensures Skip(ws + s) == Skip(s)
  {
    if ws == [] {
      assert ws + s == s;
    } else {
      assert (ws + s)[1..] == ws[1..] + s;
      SkipBlanks(ws[1..], s);
    }
  }

  lemma SkipTwice(s: string)
    ensures Skip(Skip(s)) == Skip(s)
  {
  }

  lemma {:induction false} SkipSplit(s: string) returns (ws: string)
    ensures Blanks(ws) && s == ws + Skip(s)
  {
    if s != [] && Blank(s[0]) {
      ws := SkipSplit(s[1..]);
      ws := [s[0]] + ws;
      assert s == [s[0]] + s[1..];
    } else {
      ws := [];
    }
  }

  lemma SkipToken(ws: string, token: string, rest: string)
    requires Blanks(ws) && token != [] && !Blank(token[0])
    ensures Skip(ws + token + rest) == token + rest
  {
    assert ws + token + rest == ws + (token + rest);
    SkipBlanks(ws, token + rest);
  }

  // ---- numbers ----

  lemma NumberValueMore(digits: string, c: char)
    requires AllDigits(digits) && Digit(c)
    ensures NumberValue(digits + [c]) == NumberValue(digits) * 10 + DigitValue(c)
  {
    assert (digits + [c])[..|digits|] == digits;
  }

  lemma {:induction false} NumberValueGrows(digits: string, more: string)
    requires AllDigits(digits) && AllDigits(more)
    ensures 0 <= NumberValue(digits) <= NumberValue(digits + more)
    decreases |digits| + |more|
  {
    if more == [] {
      assert digits + more == digits;
      if digits != [] {
        NumberValueGrows(digits[..|digits| - 1], []);
      }
    } else {
      var front := more[..|more| - 1];
      NumberValueGrows(digits, front);
      assert digits + more == (digits + front) + [more[|more| - 1]];
      NumberValueMore(digits + front, more[|more| - 1]);
    }
  }

  /** What may follow a number. */
  predicate FollowsNumber(rest: string) {
    rest == [] || (!Digit(rest[0]) && rest[0] != '.' && rest[0] != ',')
  }

  /** number reads all the digits, and overflows exactly when their value does not fit. */
  lemma {:induction false} NumberReads(done: string, todo: string, rest: string)
    requires AllDigits(done) && AllDigits(todo) && done + todo != [] && FollowsNumber(rest)
    requires InRange(NumberValue(done))
    ensures 0 <= NumberValue(done)
    ensures Number(todo + rest, NumberValue(done), done != [])
         == if InRange(NumberValue(done + todo)) then Value(NumberValue(done + todo), rest) else Failed(Overflow)
    decreases |todo|
  {
    hide NumberValue;
    NumberValueGrows(done, []);
    if todo == [] {
      assert todo + rest == rest && done + todo == done;
    } else {
      var done' := done + [todo[0]];
      NumberValueMore(done, todo[0]);
      assert (todo + rest)[1..] == todo[1..] + rest && done' + todo[1..] == done + todo;
      if InRange(NumberValue(done')) {
        NumberReads(done', todo[1..], rest);
      } else {
        NumberValueGrows(done, [todo[0]]);
        NumberValueGrows(done', todo[1..]);
      }
    }
  }

  lemma {:induction false} NumberSound(done: string, s: string) returns (digits: string)
    requires AllDigits(done) && InRange(NumberValue(done)) && 0 <= NumberValue(done)
    requires Number(s, NumberValue(done), done != []).Value?
    ensures AllDigits(digits) && done + digits != []
    ensures var r := Number(s, NumberValue(done), done != []);
      s == digits + r.rest && r.value == NumberValue(done + digits) && InRange(r.value)
    decreases |s|
  {
    hide NumberValue;
    if s != [] && Digit(s[0]) {
      var done' := done + [s[0]];
      NumberValueMore(done, s[0]);
      var more := NumberSound(done', s[1..]);
      digits := [s[0]] + more;
      assert done' + more == done + digits;
    } else {
      digits := [];
      assert done + digits == done;
    }
  }

  // ---- from trees to values ----

  /** Nothing that would extend a power. */
  predicate FollowsPower(rest: string) {
    FollowsNumber(rest) && PowerSign(Skip(rest)) == 0
  }

  predicate FollowsTerm(rest: string) {
    FollowsPower(rest) && TermOperator(Skip(rest)) == NoOperator
  }

  /** A primary begins with an opening parenthesis or a digit. */
  lemma PrimHead(p: Prim, depth: int, rest: string)
    requires PrimOk(p, depth)
    ensures var t := Skip(PrimText(p) + rest);
      t != [] && (t[0] == '(' || Digit(t[0]))
    ensures PrimText(p) != [] && (Blank(PrimText(p)[0]) || PrimText(p)[0] == '(' || Digit(PrimText(p)[0]))
  {
    match p
    case Num(ws, digits) =>
      SkipToken(ws, digits, rest);
    case Paren(ws, e, close) =>
      var body := "(" + SumText(e) + close + ")";
      assert PrimText(p) == ws + body;
      SkipToken(ws, body, rest);
  }

  lemma RaisedHead(r: Raised, depth: int, rest: string)
    requires RaisedOk(r, depth)
    ensures !StartsSign(Skip(RaisedText(r) + rest))
    ensures RaisedText(r) != [] && (Blank(RaisedText(r)[0]) || RaisedText(r)[0] == '(' || Digit(RaisedText(r)[0]))
  {
    match r
    case Plain(b) =>
      PrimHead(b, depth, rest);
    case Raise(b, ws, stars, e) =>
      var tail := ws + PowerText(stars) + SignedText(e);
      assert RaisedText(r) == PrimText(b) + tail && RaisedText(r) + rest == PrimText(b) + (tail + rest);
      PrimHead(b, depth, tail + rest);
  }

  /** No operator begins with the character that a signed operand begins with. */
  lemma SignedHead(u: Signed, depth: int)
    requires SignedOk(u, depth)
    ensures SignedText(u) != [] && SignedText(u)[0] != '*' && SignedText(u)[0] != '/' && SignedText(u)[0] != '^'
  {
    match u
    case Unsigned(ws, p) =>
      RaisedHead(p, depth, []);
      assert SignedText(u) == ws + RaisedText(p);
    case Sign(ws, minus, v) =>
      assert SignedText(u) == ws + ((if minus then "-" else "+") + SignedText(v));
  }

  /** power begins by skipping. */
  lemma PowerSkips(s: string, depth: int)
    ensures Power(Skip(s), depth) == Power(s, depth)
  {
    SkipTwice(s);
    assert Primary(Skip(s), depth) == Primary(s, depth);
  }

  lemma {:induction false} PrimComplete(p: Prim, rest: string, depth: int)
    requires PrimOk(p, NX_MAXDEPTH - depth) && FollowsNumber(rest)
    ensures Primary(PrimText(p) + rest, depth) == Value(PrimMeans(p), rest)
    decreases p
  {
    hide Expr, ExprLoop, Skip;
    match p
    case Num(ws, digits) =>
      SkipToken(ws, digits, rest);
      NumberReads("", digits, rest);
      assert "" + digits == digits;
    case Paren(ws, e, close) =>
      var tail := close + ")" + rest;
      var body := "(" + SumText(e) + close + ")";
      assert PrimText(p) + rest == ws + body + rest && body + rest == "(" + (SumText(e) + tail);
      SkipToken(ws, body, rest);
      ClosingFollows(close, rest);
      SumComplete(e, tail, depth + 1);
      ParenthesisReads(PrimText(p) + rest, SumText(e) + tail, depth, SumMeans(e), tail, rest);
  }

  lemma ClosingFollows(close: string, rest: string)
    requires Blanks(close)
    ensures var tail := close + ")" + rest;
      FollowsTerm(tail) && Skip(tail) == ")" + rest
        && forall v, depth :: ExprLoop(v, tail, depth) == Value(v, Skip(tail))
  {
    SkipToken(close, ")", rest);
  }

  lemma ParenthesisReads(s: string, inner: string, depth: int, v: int, tail: string, rest: string)
    requires Skip(s) == "(" + inner && Deeper(depth) && Skip(tail) == ")" + rest
    requires Expr(inner, depth + 1) == Value(v, Skip(tail))
    ensures Primary(s, depth) == Value(v, rest)
  {
    hide Expr, Skip;
    SkipTwice(tail);
    assert ("(" + inner)[1..] == inner && (")" + rest)[1..] == rest;
  }

  lemma {:induction false} RaisedComplete(r: Raised, rest: string, depth: int)
    requires RaisedOk(r, NX_MAXDEPTH - depth) && FollowsPower(rest)
    ensures Power(RaisedText(r) + rest, depth) == Value(RaisedMeans(r), Skip(rest))
    decreases r
  {
    hide Primary, Unary, Skip;
    match r
    case Plain(b) =>
      PrimComplete(b, rest, depth);
    case Raise(b, ws, stars, e) =>
      var sign := PowerText(stars);
      var tail := ws + sign + (SignedText(e) + rest);
      assert RaisedText(r) + rest == PrimText(b) + tail;
      PrimComplete(b, tail, depth);
      SkipToken(ws, sign, SignedText(e) + rest);
      assert Skip(tail)[|sign|..] == SignedText(e) + rest;
      SignedComplete(e, rest, depth + 1);
  }

  lemma {:induction false} SignedComplete(u: Signed, rest: string, depth: int)
    requires SignedOk(u, NX_MAXDEPTH - depth) && FollowsPower(rest)
    ensures Unary(SignedText(u) + rest, depth) == Value(SignedMeans(u), Skip(rest))
    decreases u
  {
    hide Power, Skip;
    match u
    case Unsigned(ws, p) =>
      assert SignedText(u) + rest == ws + (RaisedText(p) + rest);
      SkipBlanks(ws, RaisedText(p) + rest);
      RaisedHead(p, NX_MAXDEPTH - depth, rest);
      RaisedComplete(p, rest, depth);
      PowerSkips(RaisedText(p) + rest, depth);
    case Sign(ws, minus, v) =>
      var sign := if minus then "-" else "+";
      assert SignedText(u) + rest == ws + sign + (SignedText(v) + rest);
      SkipToken(ws, sign, SignedText(v) + rest);
      assert (sign + (SignedText(v) + rest))[1..] == SignedText(v) + rest;
      SignedComplete(v, rest, depth + 1);
  }

  lemma TermLoopSkips(a: int, s: string, depth: int)
    ensures TermLoop(a, Skip(s), depth) == TermLoop(a, s, depth)
  {
    SkipTwice(s);
  }

  lemma ExprLoopSkips(a: int, s: string, depth: int)
    ensures ExprLoop(a, Skip(s), depth) == ExprLoop(a, s, depth)
  {
    SkipTwice(s);
  }

  /** A product operator is read back whole when an operand follows. */
  lemma OperatorRead(op: BinOp, tail: string)
    requires op in {Mul, Div, FloorDiv, Mod} && tail != [] && tail[0] != '*' && tail[0] != '/'
    ensures var s := OpText(op) + tail;
      TermOperator(s) == Operator(op, |OpText(op)|) && s[|OpText(op)|..] == tail && PowerSign(s) == 0
      && !Blank(s[0]) && FollowsNumber(s)
  {
    var s := OpText(op) + tail;
    assert s[|OpText(op)|] == tail[0];
  }

  /** One pass of the loop of term. */
  lemma TermLoopReads(a: int, s: string, op: BinOp, tail: string, depth: int, b: int, r: string, v: int)
    requires op in {Mul, Div, FloorDiv, Mod} && tail != [] && tail[0] != '*' && tail[0] != '/'
    requires Skip(s) == OpText(op) + tail && Unary(tail, depth) == Value(b, r) && Apply(op, a, b) == Ok(v)
    ensures TermLoop(a, s, depth) == TermLoop(v, r, depth)
  {
    hide Unary, Skip, Apply, TermOperator, OpText;
    OperatorRead(op, tail);
  }

  lemma {:induction false} ProductComplete(t: Product, rest: string, depth: int)
    requires ProductOk(t, NX_MAXDEPTH - depth) && FollowsPower(rest)
    ensures Term(ProductText(t) + rest, depth) == TermLoop(ProductMeans(t), rest, depth)
    decreases t
  {
    hide Unary, TermLoop, Skip, TermOperator, OpText, PowerSign;
    match t
    case Factor(u) =>
      SignedComplete(u, rest, depth);
      TermLoopSkips(SignedMeans(u), rest, depth);
    case Times(l, ws, op, u) =>
      var tail := SignedText(u) + rest;
      SignedHead(u, NX_MAXDEPTH - depth);
      OperatorRead(op, tail);
      assert ProductText(t) + rest == ProductText(l) + (ws + OpText(op) + tail);
      SkipToken(ws, OpText(op), tail);
      BlanksFollow(ws, OpText(op) + tail);
      assert ws + OpText(op) + tail == ws + (OpText(op) + tail);
      ProductComplete(l, ws + OpText(op) + tail, depth);
      SignedComplete(u, rest, depth);
      TermLoopReads(ProductMeans(l), ws + OpText(op) + tail, op, tail, depth, SignedMeans(u), Skip(rest),
                    ProductMeans(t));
      TermLoopSkips(ProductMeans(t), rest, depth);
  }

  lemma BlanksFollow(ws: string, s: string)
    requires Blanks(ws) && FollowsNumber(s)
    ensures FollowsNumber(ws + s)
  {
  }

  lemma TermEnds(a: int, rest: string, depth: int)
    requires FollowsTerm(rest)
    ensures TermLoop(a, rest, depth) == Value(a, Skip(rest))
  {
  }

  lemma SumOperatorRead(op: BinOp, tail: string)
    requires op in {Add, Sub}
    ensures var s := OpText(op) + tail;
      && SumOperator(s) == Operator(op, 1) && s[1..] == tail && TermOperator(s) == NoOperator && PowerSign(s) == 0
      && !Blank(s[0]) && FollowsNumber(s)
  {
  }

  /** One pass of the loop of expr. */
  lemma ExprLoopReads(a: int, s: string, op: BinOp, tail: string, depth: int, b: int, r: string, v: int)
    requires op in {Add, Sub} && Skip(s) == OpText(op) + tail
    requires Term(tail, depth) == Value(b, r) && Apply(op, a, b) == Ok(v)
    ensures ExprLoop(a, s, depth) == ExprLoop(v, r, depth)
  {
    hide Term, Skip, Apply, SumOperator, OpText;
    SumOperatorRead(op, tail);
  }

  lemma {:induction false} SumComplete(e: Sum, rest: string, depth: int)
    requires SumOk(e, NX_MAXDEPTH - depth) && FollowsTerm(rest)
    ensures Expr(SumText(e) + rest, depth) == ExprLoop(SumMeans(e), rest, depth)
    decreases e
  {
    hide Term, TermLoop, ExprLoop, Skip, TermOperator, SumOperator, OpText, PowerSign;
    match e
    case Summand(t) =>
      ProductComplete(t, rest, depth);
      TermEnds(ProductMeans(t), rest, depth);
      ExprLoopSkips(ProductMeans(t), rest, depth);
    case Plus(l, ws, op, t) =>
      var tail := ProductText(t) + rest;
      SumOperatorRead(op, tail);
      assert SumText(e) + rest == SumText(l) + (ws + OpText(op) + tail);
      SkipToken(ws, OpText(op), tail);
      BlanksFollow(ws, OpText(op) + tail);
      assert ws + OpText(op) + tail == ws + (OpText(op) + tail);
      SumComplete(l, ws + OpText(op) + tail, depth);
      ProductComplete(t, rest, depth);
      TermEnds(ProductMeans(t), rest, depth);
      ExprLoopReads(SumMeans(l), ws + OpText(op) + tail, op, tail, depth, ProductMeans(t), Skip(rest), SumMeans(e));
      ExprLoopSkips(SumMeans(e), rest, depth);
  }

  // ---- from values to trees ----

  lemma {:induction false} PrimSound(s: string, depth: int) returns (p: Prim)
    requires Primary(s, depth).Value?
    ensures PrimOk(p, NX_MAXDEPTH - depth) && PrimMeans(p) == Primary(s, depth).value
    ensures s == PrimText(p) + Primary(s, depth).rest
    decreases |s|, 0
  {
    hide Expr, Skip, Number, SumText, SumMeans, NumberValue;
    var ws := SkipSplit(s);
    var t := Skip(s);
    if Starts(t, '(') {
      var e, more := SumSound(t[1..], depth + 1);
      var r := Expr(t[1..], depth + 1).rest;
      var close := SkipSplit(r);
      p := Paren(ws, e, more + close);
      ParenthesisText(s, ws, t, SumText(e), more, r, close, Skip(r));
    } else {
      EmptyNumber();
      var digits := NumberSound("", t);
      assert "" + digits == digits;
      p := Num(ws, digits);
    }
  }

  lemma ParenthesisText(s: string, ws: string, t: string, e: string, more: string, r: string, close: string, u: string)
    requires s == ws + t && Starts(t, '(') && t[1..] == e + more + r && r == close + u && Starts(u, ')')
    ensures s == ws + "(" + e + (more + close) + ")" + u[1..]
  {
    assert t == "(" + (e + more + r) && u == ")" + u[1..];
  }

  lemma {:induction false} RaisedSound(s: string, depth: int) returns (w: Raised, ws: string)
    requires Power(s, depth).Value?
    ensures RaisedOk(w, NX_MAXDEPTH - depth) && RaisedMeans(w) == Power(s, depth).value && Blanks(ws)
    ensures s == RaisedText(w) + ws + Power(s, depth).rest
    decreases |s|, 1
  {
    hide Primary, Unary, Skip, PrimText, SignedText, PrimMeans, SignedMeans, Pow;
    var b := PrimSound(s, depth);
    var r := Primary(s, depth).rest;
    ws := SkipSplit(r);
    var t := Skip(r);
    var n := PowerSign(t);
    if n == 0 {
      w := Plain(b);
      assert s == PrimText(b) + ws + t;
    } else {
      var e, after := SignedSound(t[n..], depth + 1);
      w := Raise(b, ws, n == 2, e);
      var rest := Unary(t[n..], depth + 1).rest;
      assert t == PowerText(n == 2) + t[n..];
      RaisedIs(s, PrimText(b), ws, r, t, PowerText(n == 2), SignedText(e), after, rest);
      ws := after;
    }
  }

  lemma RaisedIs(s: string, b: string, ws: string, r: string, t: string, sign: string, e: string, after: string,
                 rest: string)
    requires s == b + r && r == ws + t && t == sign + (e + after + rest)
    ensures s == b + ws + sign + e + after + rest
  {
  }

  lemma Regroup(s: string, before: string, sign: string, text: string, ws: string, rest: string)
    requires s == before + (sign + (text + ws + rest))
    ensures s == before + sign + text + ws + rest
  {
  }

  lemma {:induction false} SignedSound(s: string, depth: int) returns (u: Signed, ws: string)
    requires Unary(s, depth).Value?
    ensures SignedOk(u, NX_MAXDEPTH - depth) && SignedMeans(u) == Unary(s, depth).value && Blanks(ws)
    ensures s == SignedText(u) + ws + Unary(s, depth).rest
    decreases |s|, 2
  {
    hide Power, Skip;
    var before := SkipSplit(s);
    var t := Skip(s);
    if StartsSign(t) {
      var v;
      v, ws := SignedSound(t[1..], depth + 1);
      u := Sign(before, t[0] == '-', v);
      var rest := Unary(t[1..], depth + 1).rest;
      var sign := if t[0] == '-' then "-" else "+";
      assert t == sign + t[1..];
      Regroup(s, before, sign, SignedText(v), ws, rest);
    } else {
      var w;
      w, ws := RaisedSound(t, depth);
      u := Unsigned(before, w);
      assert s == before + (RaisedText(w) + ws + Power(t, depth).rest);
    }
  }

  lemma {:induction false} ProductSound(s: string, depth: int) returns (t: Product, ws: string)
    requires Term(s, depth).Value?
    ensures ProductOk(t, NX_MAXDEPTH - depth) && ProductMeans(t) == Term(s, depth).value && Blanks(ws)
    ensures s == ProductText(t) + ws + Term(s, depth).rest
    decreases |s|, 3
  {
    hide Unary, TermLoop;
    var u, before := SignedSound(s, depth);
    var r := Unary(s, depth).rest;
    t, ws := ProductLoopSound(Factor(u), before, r, depth);
    assert ProductText(Factor(u)) == SignedText(u);
  }

  /** The loop of term extends the tree on the left of what is left to read. */
  lemma {:induction false} ProductLoopSound(l: Product, before: string, s: string, depth: int)
    returns (t: Product, ws: string)
    requires ProductOk(l, NX_MAXDEPTH - depth) && Blanks(before) && TermLoop(ProductMeans(l), s, depth).Value?
    ensures ProductOk(t, NX_MAXDEPTH - depth) && Blanks(ws)
    ensures ProductMeans(t) == TermLoop(ProductMeans(l), s, depth).value
    ensures ProductText(l) + before + s == ProductText(t) + ws + TermLoop(ProductMeans(l), s, depth).rest
    decreases |s|, 3
  {
    hide Unary, Skip, SignedText;
    var gap := SkipSplit(s);
    var x := Skip(s);
    match TermOperator(x)
    case NoOperator =>
      t, ws := l, before + gap;
      assert ProductText(l) + before + s == ProductText(l) + (before + gap) + x;
    case Operator(op, n) =>
      var u, after := SignedSound(x[n..], depth);
      var r := Unary(x[n..], depth).rest;
      TermOperatorText(x);
      var l' := Times(l, before + gap, op, u);
      assert ProductText(l') == ProductText(l) + (before + gap) + OpText(op) + SignedText(u);
      OneStepText(ProductText(l), before, gap, OpText(op), SignedText(u), after, r, s, x);
      t, ws := ProductLoopSound(l', after, r, depth);
  }

  lemma TermOperatorText(x: string)
    requires TermOperator(x).Operator?
    ensures var o := TermOperator(x);
      o.op in {Mul, Div, FloorDiv, Mod} && o.length == |OpText(o.op)| && x == OpText(o.op) + x[o.length..]
  {
  }

  /** The text of one operator and operand, with the blanks around it. */
  lemma OneStepText(l: string, before: string, gap: string, op: string, u: string, after: string, r: string, s: string,
                    x: string)
    requires s == gap + x && x == op + (u + after + r)
    ensures l + before + s == l + (before + gap) + op + u + after + r
  {
    assert l + before + s == l + (before + (gap + (op + (u + (after + r)))));
  }

  lemma {:induction false} SumSound(s: string, depth: int) returns (e: Sum, ws: string)
    requires Expr(s, depth).Value?
    ensures SumOk(e, NX_MAXDEPTH - depth) && SumMeans(e) == Expr(s, depth).value && Blanks(ws)
    ensures s == SumText(e) + ws + Expr(s, depth).rest
    decreases |s|, 4
  {
    hide Term, ExprLoop;
    var t, before := ProductSound(s, depth);
    var r := Term(s, depth).rest;
    e, ws := SumLoopSound(Summand(t), before, r, depth);
    assert SumText(Summand(t)) == ProductText(t);
  }

  lemma {:induction false} SumLoopSound(l: Sum, before: string, s: string, depth: int) returns (e: Sum, ws: string)
    requires SumOk(l, NX_MAXDEPTH - depth) && Blanks(before) && ExprLoop(SumMeans(l), s, depth).Value?
    ensures SumOk(e, NX_MAXDEPTH - depth) && Blanks(ws)
    ensures SumMeans(e) == ExprLoop(SumMeans(l), s, depth).value
    ensures SumText(l) + before + s == SumText(e) + ws + ExprLoop(SumMeans(l), s, depth).rest
    decreases |s|, 4
  {
    hide Term, Skip, ProductText;
    var gap := SkipSplit(s);
    var x := Skip(s);
    match SumOperator(x)
    case NoOperator =>
      e, ws := l, before + gap;
      assert SumText(l) + before + s == SumText(l) + (before + gap) + x;
    case Operator(op, n) =>
      var t, after := ProductSound(x[n..], depth);
      var r := Term(x[n..], depth).rest;
      assert x == OpText(op) + x[n..];
      var l' := Plus(l, before + gap, op, t);
      assert SumText(l') == SumText(l) + (before + gap) + OpText(op) + ProductText(t);
      OneStepText(SumText(l), before, gap, OpText(op), ProductText(t), after, r, s, x);
      e, ws := SumLoopSound(l', after, r, depth);
  }

  // ---- the theorem ----

  /** `text` is the text of a tree, nested at most 64 levels, whose every subexpression has a value in the
      range of an int, and `v` is the value of the whole. */
  ghost predicate Denotes(text: string, v: int) {
    exists e, ws :: SpelledBy(text, v, e, ws)
  }

  predicate SpelledBy(text: string, v: int, e: Sum, ws: string) {
    Blanks(ws) && text == SumText(e) + ws && SumOk(e, NX_MAXDEPTH) && SumMeans(e) == v
  }

  /** The calculator answers `v` exactly when the text denotes `v`. */
  lemma EvaluateCorrect(text: string, v: int)
    ensures Evaluate(text) == Ok(v) <==> Denotes(text, v)
  {
    hide Expr, SumOk, SumText, Skip;
    if Evaluate(text) == Ok(v) {
      var e, ws := SumSound(text, 0);
      var r := Expr(text, 0).rest;
      var last := SkipSplit(r);
      assert r == last + Skip(r) == last;
      assert text == SumText(e) + (ws + last);
      assert SpelledBy(text, v, e, ws + last);
    }
    if Denotes(text, v) {
      var e, ws :| SpelledBy(text, v, e, ws);
      EvaluateSpelled(text, v, e, ws);
    }
  }

  lemma EvaluateSpelled(text: string, v: int, e: Sum, ws: string)
    requires SpelledBy(text, v, e, ws)
    ensures Evaluate(text) == Ok(v)
  {
    hide Expr, SumOk, SumText;
    OnlyBlanksLeft(ws);
    SumComplete(e, ws, 0);
  }

  lemma OnlyBlanksLeft(ws: string)
    requires Blanks(ws)
    ensures Skip(ws) == [] && FollowsTerm(ws) && forall v, depth :: ExprLoop(v, ws, depth) == Value(v, [])
  {
    assert ws + [] == ws;
    SkipBlanks(ws, []);
  }

  // ---- printing ----

  function DigitChar(d: nat): (c: char)
    requires d < 10
    ensures Digit(c) && DigitValue(c) == d
  {
    ('0' as int + d) as char
  }

  function Digits(n: nat): (s: string)
    ensures s != []
  {
    if n < 10 then [DigitChar(n)] else Digits(n / 10) + [DigitChar(n % 10)]
  }

  /** The text put_int writes. */
  function Decimal(v: int): string {
    if v < 0 then "-" + Digits(-v) else Digits(v)
  }

  lemma {:induction false} DigitsMean(n: nat)
    ensures AllDigits(Digits(n)) && NumberValue(Digits(n)) == n
  {
    if n < 10 {
      assert Digits(n)[..0] == [];
    } else {
      DigitsMean(n / 10);
      NumberValueMore(Digits(n / 10), DigitChar(n % 10));
    }
  }

  /** What put_int writes evaluates back to the same number, except for the smallest int: its magnitude
      is read before its sign is applied, and does not fit. */
  lemma PrintedReadsBack(v: int)
    requires InRange(v)
    ensures Evaluate(Decimal(v)) == Ok(v) <==> v != INT_MIN
    ensures Evaluate(Decimal(INT_MIN)) == Err(Overflow)
  {
    hide Digits, Decimal, SumText, SumOk, SumMeans, Evaluate;
    if v != INT_MIN {
      var n := if v < 0 then -v else v;
      var u := Unsigned("", Plain(Num("", Digits(n))));
      var w := if v < 0 then Sign("", true, u) else u;
      var e := Summand(Factor(w));
      DecimalText(v, n, w);
      DecimalOk(v, n, w);
      assert SpelledBy(Decimal(v), v, e, "");
      EvaluateCorrect(Decimal(v), v);
    }
    SmallestOverflows();
  }

  lemma DecimalText(v: int, n: nat, w: Signed)
    requires n == if v < 0 then -v else v
    requires w == if v < 0 then Sign("", true, Unsigned("", Plain(Num("", Digits(n)))))
      else Unsigned("", Plain(Num("", Digits(n))))
    ensures SumText(Summand(Factor(w))) + "" == Decimal(v)
  {
    var p := Num("", Digits(n));
    var u := Unsigned("", Plain(p));
    assert "" + Digits(n) == Digits(n);
    assert PrimText(p) == Digits(n);
    assert RaisedText(Plain(p)) == Digits(n);
    assert SignedText(u) == Digits(n);
    assert SignedText(w) == Decimal(v) by {
      assert v < 0 ==> "" + "-" + SignedText(u) == "-" + SignedText(u);
    }
    assert ProductText(Factor(w)) == Decimal(v);
  }

  lemma DecimalOk(v: int, n: nat, w: Signed)
    requires n == if v < 0 then -v else v
    requires InRange(v) && InRange(n)
    requires w == if v < 0 then Sign("", true, Unsigned("", Plain(Num("", Digits(n)))))
      else Unsigned("", Plain(Num("", Digits(n))))
    ensures SumOk(Summand(Factor(w)), NX_MAXDEPTH) && SumMeans(Summand(Factor(w))) == v
  {
    hide NumberValue, Digits;
    DigitsMean(n);
    var p := Num("", Digits(n));
    var u := Unsigned("", Plain(p));
    forall depth | depth >= 0
      ensures SignedOk(u, depth) && SignedMeans(u) == n
    {
      assert PrimOk(p, depth) && PrimMeans(p) == n;
      assert RaisedOk(Plain(p), depth) && RaisedMeans(Plain(p)) == n;
    }
    assert SignedOk(u, NX_MAXDEPTH - 1);
    assert SignedMeans(w) == v;
    assert SignedOk(w, NX_MAXDEPTH);
    assert ProductOk(Factor(w), NX_MAXDEPTH) && ProductMeans(Factor(w)) == v;
  }

  lemma SmallestOverflows()
    ensures Evaluate(Decimal(INT_MIN)) == Err(Overflow)
  {
    hide NumberValue, Digits;
    var digits := Digits(-INT_MIN);
    DigitsMean(-INT_MIN);
    assert digits + "" == digits && "" + digits == digits;
    EmptyNumber();
    NumberReads("", digits, "");
    assert Digit(digits[0]);
    assert Skip(digits) == digits;
    assert Primary(digits, 1) == Failed(Overflow);
    assert Power(digits, 1) == Failed(Overflow);
    assert digits[0] != '-' && digits[0] != '+' && !StartsSign(digits);
    assert Unary(digits, 1) == Failed(Overflow);
    assert Decimal(INT_MIN)[1..] == digits;
    assert Unary(Decimal(INT_MIN), 0) == Failed(Overflow);
    assert Term(Decimal(INT_MIN), 0) == Failed(Overflow);
    assert Expr(Decimal(INT_MIN), 0) == Failed(Overflow);
  }

  lemma EmptyNumber()
    ensures NumberValue("") == 0
  {
  }
}
