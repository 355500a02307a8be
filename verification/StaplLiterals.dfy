/** Printed Boolean literals cannot be read back. */
module StaplLiterals {
  import opened StaplExpr
  import opened StaplGrammar
  import opened StaplRoundTrip

  /** `<n bits>` is no operand. */
  lemma {:induction false} LiteralFails(n: nat, post: string)
    ensures ParseUnary(("<" + Decimal(n) + " bits>") + post) == Fail(ValueError)
  {
    var t := ("<" + Decimal(n) + " bits>") + post;
    assert t[0] == '<' && SkipBlanks(t) == t;
  }

  lemma {:induction false} BracketFails(name: string, s: string, post: string)
    requires IsName(name) && Begins(s) && ParseExpr(s + post, 0) == Fail(ValueError)
    ensures ParseUnary(name + ("[" + (s + post))) == Fail(ValueError)
  {
    BracketReads(name, "", s + post);
    assert "" + ("[" + (s + post)) == "[" + (s + post);
    BeginsFront(s, post);
  }

  /** The upper bound is read, the lower one is not. */
  lemma {:induction false} RangeFails(name: string, s: string, h: Expr, rest: string)
    requires IsName(name) && Begins(s) && ParseExpr(s + (".." + rest), 0) == Ok(h, ".." + rest)
    requires ParseExpr(rest, 0) == Fail(ValueError)
    ensures ParseUnary(name + ("[" + (s + (".." + rest)))) == Fail(ValueError)
  {
    var w := ".." + rest;
    BracketReads(name, "", s + w);
    assert "" + ("[" + (s + w)) == "[" + (s + w);
    BeginsFront(s, w);
    assert w[0] == '.' && w[..2] == ".." && w[2..] == rest;
  }

  lemma {:induction false} UnaryFails(op: Unary, s: string, post: string)
    requires Begins(s) && ParseUnary(s + post) == Fail(ValueError)
    ensures ParseUnary([Mark(op)] + (s + post)) == Fail(ValueError)
  {
    var t := [Mark(op)] + (s + post);
    assert t[0] == Mark(op) && t[1..] == s + post && t[1] == s[0] && SkipBlanks(t) == t;
  }

  lemma {:induction false} GroupFails(inner: string)
    requires ParseExpr(inner, 0) == Fail(ValueError)
    ensures ParseUnary("(" + inner) == Fail(ValueError)
  {
    var t := "(" + inner;
    assert t[0] == '(' && t[1..] == inner;
  }

  lemma {:induction false} CallFails(f: Builtin, inner: string)
    requires ParseExpr(inner, 0) == Fail(ValueError)
    ensures ParseUnary(NameOf(f) + ("(" + inner)) == Fail(ValueError)
  {
    if f == Chr {
      assert "$"[..0] == "" && "$"[1..] == "" && Upper("CHR") == "CHR";
      CallReads(f, "CHR", "$", inner);
      assert "CHR" + ("$" + ("(" + inner)) == NameOf(f) + ("(" + inner);
    } else {
      UpperNames(f);
      CallReads(f, NameOf(f), "", inner);
      assert "" + ("(" + inner) == "(" + inner;
    }
  }

  /** The left operand is read, the right one is not. */
  lemma {:induction false} RightFails(op: Binary, left: Expr, tail: string, min: nat)
    requires min <= Prec(op) && ParseExpr(tail, Prec(op) + 1) == Fail(ValueError)
    ensures Climb(" " + (Symbol(op) + (" " + tail)), left, min) == Fail(ValueError)
  {
    PeekSymbol(op, " " + tail);
    SkipGap(" ", Symbol(op) + (" " + tail));
    LeadingGap(" ", tail, Prec(op) + 1);
    ClimbFails(" " + (Symbol(op) + (" " + tail)), op, left, min);
  }

  lemma {:induction false} Between(l: string, sym: string, r: string, post: string)
    ensures (l + (" " + sym + " ") + r) + post == l + (" " + (sym + (" " + (r + post))))
  {}

  /** What follows the left operand of `e`. */
  lemma {:induction false} OperatorYields(e: Expr, wrap: Expr -> bool, tail: string, mid: string)
    requires e.BinOp? && mid == " " + (Symbol(e.op) + (" " + tail))
    ensures Follows(mid) && Yields(mid, Top(e.left, Prec(e.op), wrap))
  {
    PeekSymbol(e.op, " " + tail);
    SkipGap(" ", Symbol(e.op) + (" " + tail));
  }

  lemma {:induction false} Regroup4(a: string, b: string, c: string, d: string, post: string)
    ensures (a + b + c + d) + post == a + (b + (c + (d + post)))
  {}

  lemma {:induction false} Regroup6(a: string, b: string, c: string, d: string, e: string, f: string, post: string)
    ensures (a + b + c + d + e + f) + post == a + (b + (c + (d + (e + (f + post)))))
  {
    Regroup4(a, b, c, d, e + f + post);
    assert (a + b + c + d + e + f) + post == (a + b + c + d) + (e + f + post);
    assert e + f + post == e + (f + post);
  }

  lemma {:induction false} OpenFails(e: Expr, wrap: Expr -> bool, post: string, min: nat)
    requires e.BinOp? && WellNamed(e) && !NoLiteral(e) && min <= Prec(e.op)
    ensures ParseExpr(ShowOpen(e, wrap) + post, min) == Fail(ValueError)
    decreases e, 1
  {
    var p := Prec(e.op);
    var r := Show(e.right, p + 1, wrap);
    var mid := " " + (Symbol(e.op) + (" " + (r + post)));
    Between(Show(e.left, p, wrap), Symbol(e.op), r, post);
    if NoLiteral(e.left) {
      ExprFails(e.right, p + 1, wrap, post, p + 1);
      RightOperandFails(e, wrap, r + post, mid, min);
    } else {
      ExprFails(e.left, p, wrap, mid, min);
    }
  }

  lemma {:induction false} RightOperandFails(e: Expr, wrap: Expr -> bool, tail: string, mid: string, min: nat)
    requires e.BinOp? && WellNamed(e) && NoLiteral(e.left) && min <= Prec(e.op)
    requires mid == " " + (Symbol(e.op) + (" " + tail)) && ParseExpr(tail, Prec(e.op) + 1) == Fail(ValueError)
    ensures ParseExpr(Show(e.left, Prec(e.op), wrap) + mid, min) == Fail(ValueError)
  {
    RightFails(e.op, e.left, tail, min);
    OperatorYields(e, wrap, tail, mid);
    ExprReads(e.left, Prec(e.op), wrap, mid, min);
  }

  lemma {:induction false} ExprFails(e: Expr, ctx: nat, wrap: Expr -> bool, post: string, min: nat)
    requires WellNamed(e) && !NoLiteral(e) && min <= ctx
    ensures ParseExpr(Show(e, ctx, wrap) + post, min) == Fail(ValueError)
    decreases e, 3
  {
    if Open(e, ctx, wrap) {
      OpenFails(e, wrap, post, min);
    } else {
      OperandFails(e, ctx, wrap, post);
    }
  }

  lemma {:induction false} OperandFails(e: Expr, ctx: nat, wrap: Expr -> bool, post: string)
    requires WellNamed(e) && !NoLiteral(e) && !Open(e, ctx, wrap)
    ensures ParseUnary(Show(e, ctx, wrap) + post) == Fail(ValueError)
    decreases e, 2
  {
    match e
    case BooleanLiteral(n) => LiteralFails(n, post);
    case ArrayIndex(n, i) => IndexFails(n, i, wrap, post);
    case ArraySubrange(n, h, l) => SubrangeFails(n, h, l, wrap, post, e);
    case UnaryOp(op, a) =>
      var s := Show(a, TIGHTEST, wrap);
      ShowBegins(a, TIGHTEST, wrap);
      OperandFails(a, TIGHTEST, wrap, post);
      UnaryFails(op, s, post);
      assert ([Mark(op)] + s) + post == [Mark(op)] + (s + post);
    case BinOp(_, _, _) =>
      var s := ShowOpen(e, wrap);
      OpenFails(e, wrap, ")" + post, 0);
      GroupFails(s + (")" + post));
      assert ("(" + s + ")") + post == "(" + (s + (")" + post));
    case FuncCall(f, a) =>
      var s := Show(a, 0, wrap);
      ExprFails(a, 0, wrap, ")" + post, 0);
      CallFails(f, s + (")" + post));
      Regroup4(NameOf(f), "(", s, ")", post);
  }

  lemma {:induction false} IndexFails(n: string, i: Expr, wrap: Expr -> bool, post: string)
    requires IsName(n) && WellNamed(i) && !NoLiteral(i)
    ensures ParseUnary((n + "[" + Show(i, 0, wrap) + "]") + post) == Fail(ValueError)
    decreases i, 4
  {
    ShowBegins(i, 0, wrap);
    ExprFails(i, 0, wrap, "]" + post, 0);
    BracketFails(n, Show(i, 0, wrap), "]" + post);
    Regroup4(n, "[", Show(i, 0, wrap), "]", post);
  }

  lemma {:induction false} SubrangeFails(n: string, h: Expr, l: Expr, wrap: Expr -> bool, post: string, e: Expr)
    requires e == ArraySubrange(n, h, l) && WellNamed(e) && !NoLiteral(e)
    ensures ParseUnary((n + "[" + Show(h, 0, wrap) + ".." + Show(l, 0, wrap) + "]") + post) == Fail(ValueError)
    decreases e, 0
  {
    var s, u := Show(h, 0, wrap), Show(l, 0, wrap);
    var rest := u + ("]" + post);
    ShowBegins(h, 0, wrap);
    Regroup6(n, "[", s, "..", u, "]", post);
    if NoLiteral(h) {
      assert ".." + rest == "." + ("." + rest);
      CloserFollows('.', "." + rest);
      ExprReads(h, 0, wrap, ['.'] + ("." + rest), 0);
      ClimbStops(['.'] + ("." + rest), h, 0);
      ExprFails(l, 0, wrap, "]" + post, 0);
      RangeFails(n, s, h, rest);
    } else {
      ExprFails(h, 0, wrap, ".." + rest, 0);
      BracketFails(n, s, ".." + rest);
    }
  }

  lemma {:induction false} ShowFails(e: Expr, wrap: Expr -> bool)
    requires WellNamed(e) && !NoLiteral(e)
    ensures ParseText(Show(e, 0, wrap)) == Fail(ValueError)
  {
    var s := Show(e, 0, wrap);
    ShowBegins(e, 0, wrap);
    ShowEnds(e, 0, wrap);
    ExprFails(e, 0, wrap, "", 0);
    assert s + "" == s;
  }

  /** The printed form is read back if and only if it holds no Boolean literal, and
      refused with a ValueError otherwise. */
  lemma {:induction false} FmtRoundTripIff(e: Expr)
    requires WellNamed(e)
    ensures ParseText(Fmt(e)) == if NoLiteral(e) then Ok(e, "") else Fail(ValueError)
  {
    if NoLiteral(e) {
      FmtRoundTrip(e);
    } else {
      FmtIsShow(e, 0);
      ShowFails(e, (_: Expr) => true);
    }
  }
}
