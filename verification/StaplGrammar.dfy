/** The texts of an expression, whoever wrote them: the parser takes all of them and
    nothing else. */
module StaplGrammar {
  import opened Wrappers
  import opened StaplExpr

  // ----- The language -----------------------------------------------------------------------------

  const TIGHTEST := 11

  /** An expression as it is written. Blanks may be before and behind any part, and
      parentheses round it; built-in names may be in either case. */
  datatype Writing =
    | Number(digits: string)
    | Name(name: string)
    | Whole(array: string, gap: string, inside: string)
    | Index(array: string, gap: string, index: Writing)
    | Subrange(array: string, gap: string, high: Writing, low: Writing)
    | Prefix(uop: Unary, operand: Writing)
    | Infix(op: Binary, left: Writing, right: Writing)
    | Call(func: Builtin, called: string, gap: string, arg: Writing)
    | Group(inner: Writing)
    | Spaced(before: string, inner: Writing, behind: string)

  function TextOf(w: Writing): string {
    match w
    case Number(d) => d
    case Name(n) => n
    case Whole(n, gap, inside) => n + (gap + ("[" + (inside + "]")))
    case Index(n, gap, x) => n + (gap + ("[" + (TextOf(x) + "]")))
    case Subrange(n, gap, h, l) => n + (gap + ("[" + (TextOf(h) + (".." + (TextOf(l) + "]")))))
    case Prefix(op, x) => [Mark(op)] + TextOf(x)
    case Infix(op, l, r) => TextOf(l) + (Symbol(op) + TextOf(r))
    case Call(_, n, gap, x) => n + (gap + ("(" + (TextOf(x) + ")")))
    case Group(x) => "(" + (TextOf(x) + ")")
    case Spaced(b, x, a) => b + (TextOf(x) + a)
  }

  function ExprOf(w: Writing): Expr
    requires Right(w)
  {
    match w
    case Number(d) => IntLiteral(NumberOf(d))
    case Name(n) => VarRef(n)
    case Whole(n, _, _) => ArrayWhole(n)
    case Index(n, _, x) => ArrayIndex(n, ExprOf(x))
    case Subrange(n, _, h, l) => ArraySubrange(n, ExprOf(h), ExprOf(l))
    case Prefix(op, x) => UnaryOp(op, ExprOf(x))
    case Infix(op, l, r) => BinOp(op, ExprOf(l), ExprOf(r))
    case Call(f, _, _, x) => FuncCall(f, ExprOf(x))
    case Group(x) => ExprOf(x)
    case Spaced(_, x, _) => ExprOf(x)
  }

  predicate Blank(s: string) { forall i :: 0 <= i < |s| ==> IsBlank(s[i]) }

  /** How tightly a text holds together. */
  function Level(w: Writing): nat {
    match w
    case Infix(op, _, _) => Prec(op)
    case Spaced(_, x, _) => Level(x)
    case _ => TIGHTEST
  }

  /** What stands between a function and its parenthesis: a dollar sign belongs to CHR. */
  predicate CallGap(f: Builtin, gap: string) {
    if f == Chr then exists i :: 0 <= i < |gap| && Blank(gap[..i]) && gap[i] == '$' && Blank(gap[i + 1..]) else Blank(gap)
  }

  predicate CallName(f: Builtin, name: string) {
    IsName(name) && Upper(name) == if f == Chr then "CHR" else NameOf(f)
  }

  /** Operators take operands that hold together better than they do, and to the left
      as well. */
  predicate Right(w: Writing) {
    match w
    case Number(d) => d != [] && forall i :: 0 <= i < |d| ==> IsDigit(d[i])
    case Name(n) => IsName(n)
    case Whole(n, gap, inside) => IsName(n) && Blank(gap) && Blank(inside)
    case Index(n, gap, x) => IsName(n) && Blank(gap) && Right(x)
    case Subrange(n, gap, h, l) => IsName(n) && Blank(gap) && Right(h) && Right(l)
    case Prefix(_, x) => Right(x) && Level(x) == TIGHTEST
    case Infix(op, l, r) => Right(l) && Right(r) && Level(l) >= Prec(op) && Level(r) > Prec(op)
    case Call(f, n, gap, x) => CallName(f, n) && CallGap(f, gap) && Right(x)
    case Group(x) => Right(x)
    case Spaced(b, x, a) => Blank(b) && Right(x) && Blank(a)
  }

  // ----- Steps of the parser --------------------------------------------------------------------------

  /** The text after an operand: no part of a name or number, and, blanks aside,
      no bracket or dollar sign. */
  predicate Follows(post: string) {
    && (post == [] || !IsIdent(post[0]))
    && var u := SkipBlanks(post); u == [] || (u[0] != '(' && u[0] != '[' && u[0] != '$')
  }

  /** The operator after an expression binds no tighter than `p`. */
  predicate Yields(post: string, p: nat) {
    var op := PeekOperator(SkipBlanks(post));
    op.None? || Prec(op.value) <= p
  }

  predicate Same(rest: string, post: string) { SkipBlanks(rest) == SkipBlanks(post) }

  /** The parser reads `e` off the front and stops at `post`, up to blanks. */
  predicate Reads(r: Parsed, e: Expr, post: string) { r.Ok? && r.value == e && Same(r.rest, post) }

  lemma {:induction false} SkipTwice(s: string)
    ensures SkipBlanks(SkipBlanks(s)) == SkipBlanks(s)
  {}

  lemma {:induction false} SkipGap(gap: string, s: string)
    requires Blank(gap)
    ensures SkipBlanks(gap + s) == SkipBlanks(s)
    decreases |gap|
  {
    if gap == [] {
      assert gap + s == s;
    } else {
      assert (gap + s)[0] == gap[0] && (gap + s)[1..] == gap[1..] + s;
      SkipGap(gap[1..], s);
    }
  }

  /** Blanks are what is skipped. */
  lemma {:induction false} SkippedBlank(s: string) returns (gap: string)
    ensures Blank(gap) && s == gap + SkipBlanks(s)
    decreases |s|
  {
    if s != [] && IsBlank(s[0]) {
      var more := SkippedBlank(s[1..]);
      gap := [s[0]] + more;
      assert s == [s[0]] + s[1..];
    } else {
      gap := [];
      assert s == [] + s;
    }
  }

  lemma {:induction false} ClimbSame(a: string, b: string, left: Expr, min: nat)
    requires Same(a, b)
    ensures Climb(a, left, min) == Climb(b, left, min)
  {
    var t := SkipBlanks(a);
    var op := PeekOperator(t);
    if op.None? || Prec(op.value) < min {
      ClimbStops(a, left, min);
      ClimbStops(b, left, min);
    } else {
      ClimbGoesOn(a, t[|Symbol(op.value)|..], op.value, left, min);
      ClimbGoesOn(b, t[|Symbol(op.value)|..], op.value, left, min);
    }
  }

  lemma {:induction false} ClimbStops(post: string, left: Expr, min: nat)
    requires var op := PeekOperator(SkipBlanks(post)); op.None? || Prec(op.value) < min
    ensures Climb(post, left, min) == Ok(left, SkipBlanks(post))
  {}

  lemma {:induction false} ClimbStep(s: string, op: Binary, left: Expr, right: Expr, rest: string, min: nat)
    requires PeekOperator(SkipBlanks(s)) == Some(op) && min <= Prec(op)
    requires ParseExpr(SkipBlanks(s)[|Symbol(op)|..], Prec(op) + 1) == Ok(right, rest)
    ensures Climb(s, left, min) == Climb(rest, BinOp(op, left, right), min)
  {
    var t := SkipBlanks(s);
    assert PeekOperator(t) == Some(op) && ParseExpr(t[|Symbol(op)|..], Prec(op) + 1) == Ok(right, rest);
  }

  lemma {:induction false} ClimbFails(s: string, op: Binary, left: Expr, min: nat)
    requires PeekOperator(SkipBlanks(s)) == Some(op) && min <= Prec(op)
    requires ParseExpr(SkipBlanks(s)[|Symbol(op)|..], Prec(op) + 1).Fail?
    ensures Climb(s, left, min) == ParseExpr(SkipBlanks(s)[|Symbol(op)|..], Prec(op) + 1)
  {}

  /** Past an operator that binds, the right operand decides. */
  ghost predicate GoesOn(here: string, tail: string, op: Binary, left: Expr, min: nat) {
    var right := ParseExpr(tail, Prec(op) + 1);
    Climb(here, left, min) == if right.Ok? then Climb(right.rest, BinOp(op, left, right.value), min) else right
  }

  lemma {:induction false} ClimbGoesOn(here: string, tail: string, op: Binary, left: Expr, min: nat)
    requires PeekOperator(SkipBlanks(here)) == Some(op) && min <= Prec(op)
    requires |Symbol(op)| <= |SkipBlanks(here)| && tail == SkipBlanks(here)[|Symbol(op)|..]
    ensures GoesOn(here, tail, op, left, min)
  {
    var right := ParseExpr(tail, Prec(op) + 1);
    if right.Ok? {
      ClimbStep(here, op, left, right.value, right.rest, min);
    } else {
      ClimbFails(here, op, left, min);
    }
  }

  lemma {:induction false} ThenClimb(s: string, e: Expr, post: string, min: nat)
    requires Reads(ParseUnary(s), e, post)
    ensures ParseExpr(s, min) == Climb(post, e, min)
  {
    ClimbSame(ParseUnary(s).rest, post, e, min);
  }

  lemma {:induction false} LeadingGap(gap: string, s: string, min: nat)
    requires Blank(gap)
    ensures ParseUnary(gap + s) == ParseUnary(s) && ParseExpr(gap + s, min) == ParseExpr(s, min)
  {
    SkipGap(gap, s);
  }

  // ----- What is read ----------------------------------------------------------------------------------

  lemma {:induction false} DigitsRead(d: string, n: nat, post: string)
    requires d != [] && (forall i :: 0 <= i < |d| ==> IsDigit(d[i])) && NumberOf(d) == n && (post == [] || !IsDigit(post[0]))
    ensures ParseUnary(d + post) == Ok(IntLiteral(n), post)
  {
    var t := d + post;
    assert t[0] == d[0];
    SpanOf(d, post, IsDigit);
    assert t[..|d|] == d && t[|d|..] == post;
    assert ParseUnary(t) == ParsePrimary(t);
  }

  /** A name is read whole, and what follows decides. */
  lemma {:induction false} NameReads(name: string, post: string)
    requires IsName(name) && (post == [] || !IsIdent(post[0]))
    ensures ParseUnary(name + post) == AfterName(name, SkipBlanks(post))
  {
    var t := name + post;
    assert t[0] == name[0] && IsIdent(name[0]);
    SpanOf(name, post, IsIdent);
    assert t[..|name|] == name && t[|name|..] == post;
    assert ParseUnary(t) == ParsePrimary(t);
    assert ParsePrimary(t) == ParseIdentifier(t);
  }

  lemma {:induction false} VarReads(name: string, post: string)
    requires IsName(name) && Follows(post)
    ensures Reads(ParseUnary(name + post), VarRef(name), post)
  {
    NameReads(name, post);
    SkipTwice(post);
  }

  lemma {:induction false} GapNotIdent(gap: string, s: string)
    requires Blank(gap) && s != [] && !IsIdent(s[0])
    ensures gap + s != [] && !IsIdent((gap + s)[0])
  {}

  lemma {:induction false} BracketReads(name: string, gap: string, inner: string)
    requires IsName(name) && Blank(gap)
    ensures ParseUnary(name + (gap + ("[" + inner))) == IndexOf(name, SkipBlanks(inner))
  {
    var post := "[" + inner;
    assert post[0] == '[' && post[1..] == inner && SkipBlanks(post) == post;
    GapNotIdent(gap, post);
    SkipGap(gap, post);
    NameReads(name, gap + post);
  }

  lemma {:induction false} CallReads(f: Builtin, name: string, gap: string, inner: string)
    requires CallName(f, name) && CallGap(f, gap)
    ensures ParseUnary(name + (gap + ("(" + inner))) == CallOf(f, inner)
  {
    var post := "(" + inner;
    assert post[0] == '(' && post[1..] == inner;
    if f == Chr {
      ChrGapReads(name, gap, post);
    } else {
      NamedReads(f, name, gap, post);
    }
  }

  lemma {:induction false} ChrGapReads(name: string, gap: string, post: string)
    requires CallName(Chr, name) && CallGap(Chr, gap) && post != [] && post[0] == '('
    ensures ParseUnary(name + (gap + post)) == CallOf(Chr, post[1..])
  {
    var i :| 0 <= i < |gap| && Blank(gap[..i]) && gap[i] == '$' && Blank(gap[i + 1..]);
    assert gap == gap[..i] + (['$'] + gap[i + 1..]);
    Regroup(gap[..i], ['$'], gap[i + 1..], post);
    ChrReads(name, gap[..i], gap[i + 1..], post);
  }

  lemma {:induction false} NamedReads(f: Builtin, name: string, gap: string, post: string)
    requires f != Chr && CallName(f, name) && Blank(gap) && post != [] && post[0] == '('
    ensures ParseUnary(name + (gap + post)) == CallOf(f, post[1..])
  {
    GapNotIdent(gap, post);
    SkipGap(gap, post);
    assert SkipBlanks(post) == post;
    NameReads(name, gap + post);
    BuiltinNames(f);
  }

  lemma {:induction false} Regroup(a: string, b: string, c: string, post: string)
    ensures (a + (b + c)) + post == a + (b + (c + post))
  {}

  /** What is between brackets, and what follows them. */
  lemma {:induction false} Regroup5(n: string, gap: string, open: string, s: string, close: string, post: string)
    ensures (n + (gap + (open + (s + close)))) + post == n + (gap + (open + (s + (close + post))))
  {
    Regroup(open, s, close, post);
    Regroup(n, gap, open + (s + close), post);
  }

  lemma {:induction false} BuiltinNames(f: Builtin)
    requires f != Chr
    ensures BuiltinOf(NameOf(f)) == Some(f)
  {}

  lemma {:induction false} ChrReads(name: string, before: string, behind: string, post: string)
    requires CallName(Chr, name) && Blank(before) && Blank(behind) && post != [] && post[0] == '('
    ensures ParseUnary(name + (before + (['$'] + (behind + post)))) == CallOf(Chr, post[1..])
  {
    var q := ['$'] + (behind + post);
    assert q[0] == '$' && q[1..] == behind + post && SkipBlanks(q) == q && SkipBlanks(post) == post;
    GapNotIdent(before, q);
    SkipGap(before, q);
    SkipGap(behind, post);
    NameReads(name, before + q);
  }

  lemma {:induction false} Closes(e: Expr, c: char, post: string)
    requires !IsBlank(c)
    ensures Closing(e, [c] + post, c) == Ok(e, post)
  {
    assert ([c] + post)[0] == c && ([c] + post)[1..] == post;
  }

  /** A text starts with a blank or with what begins an operand. */
  predicate Opening(c: char) { IsIdent(c) || c == '(' || c == '~' || c == '!' || c == '-' }

  predicate Starts(s: string) { s != [] && (IsBlank(s[0]) || Opening(s[0])) }

  predicate StartsBoth(s: string) { Starts(s) && SkipBlanks(s) != [] && Opening(SkipBlanks(s)[0]) }

  lemma {:induction false} TextStarts(w: Writing, post: string)
    requires Right(w)
    ensures StartsBoth(TextOf(w) + post)
    decreases w
  {
    match w
    case Infix(op, l, r) =>
      Regroup(TextOf(l), Symbol(op), TextOf(r), post);
      TextStarts(l, Symbol(op) + (TextOf(r) + post));
    case Spaced(b, x, a) =>
      Regroup(b, TextOf(x), a, post);
      TextStarts(x, a + post);
      GapStarts(b, TextOf(x) + (a + post));
    case _ => FirstChar(w, post);
  }

  lemma {:induction false} GapStarts(b: string, s: string)
    requires Blank(b) && StartsBoth(s)
    ensures StartsBoth(b + s)
  {
    SkipGap(b, s);
  }

  lemma {:induction false} FirstChar(w: Writing, post: string)
    requires Right(w) && !w.Infix? && !w.Spaced?
    ensures TextOf(w) != [] && Opening(TextOf(w)[0]) && (TextOf(w) + post)[0] == TextOf(w)[0] && !IsBlank(TextOf(w)[0])
    ensures SkipBlanks(TextOf(w) + post) == TextOf(w) + post
  {}

  /** An operator is seen before the text of an operand. */
  lemma {:induction false} PeekSymbol(op: Binary, tail: string)
    requires Starts(tail)
    ensures var s := Symbol(op) + tail;
            PeekOperator(s) == Some(op) && s[|Symbol(op)|..] == tail && SkipBlanks(s) == s && Follows(s)
  {
    var s := Symbol(op) + tail;
    if |Symbol(op)| == 2 {
      assert s[..2] == Symbol(op) && s[2..] == tail;
    } else {
      assert s[0] == Symbol(op)[0] && s[1..] == tail && s[..2] == [s[0], tail[0]];
    }
  }

  lemma {:induction false} CloserFollows(c: char, post: string)
    requires c == ')' || c == ']' || c == '.'
    ensures Follows([c] + post) && PeekOperator([c] + post) == None && SkipBlanks([c] + post) == [c] + post
  {
    assert ([c] + post)[0] == c;
  }

  /** An operator and its right operand, after the left one. */
  lemma {:induction false} ClimbOne(op: Binary, left: Expr, tail: string, right: Expr, post: string, min: nat)
    requires min <= Prec(op) && Yields(post, Prec(op)) && Starts(tail)
    requires ParseExpr(tail, Prec(op) + 1) == Climb(post, right, Prec(op) + 1)
    ensures Climb(Symbol(op) + tail, left, min) == Climb(post, BinOp(op, left, right), min)
  {
    PeekSymbol(op, tail);
    ClimbStops(post, right, Prec(op) + 1);
    ClimbStep(Symbol(op) + tail, op, left, right, SkipBlanks(post), min);
    SkipTwice(post);
    ClimbSame(SkipBlanks(post), post, BinOp(op, left, right), min);
  }

  lemma {:induction false} InfixReads(op: Binary, l: string, left: Expr, r: string, right: Expr, post: string, min: nat)
    requires min <= Prec(op) && Yields(post, Prec(op)) && Starts(r + post)
    requires ParseExpr(r + post, Prec(op) + 1) == Climb(post, right, Prec(op) + 1)
    requires ParseExpr(l + (Symbol(op) + (r + post)), min) == Climb(Symbol(op) + (r + post), left, min)
    ensures ParseExpr((l + (Symbol(op) + r)) + post, min) == Climb(post, BinOp(op, left, right), min)
  {
    ClimbOne(op, left, r + post, right, post, min);
    Regroup(l, Symbol(op), r, post);
  }

  lemma {:induction false} SpacedReads(b: string, t: string, a: string, e: Expr, post: string, min: nat)
    requires Blank(b) && Blank(a)
    ensures ParseExpr(t + (a + post), min) == Climb(a + post, e, min) ==> ParseExpr((b + (t + a)) + post, min) == Climb(post, e, min)
    ensures Reads(ParseUnary(t + (a + post)), e, a + post) ==> Reads(ParseUnary((b + (t + a)) + post), e, post)
  {
    SkipGap(a, post);
    ClimbSame(a + post, post, e, min);
    LeadingGap(b, t + (a + post), min);
    Regroup(b, t, a, post);
  }

  lemma {:induction false} OperatorFollows(op: Binary, r: Writing, post: string)
    requires Right(r)
    ensures Starts(TextOf(r) + post) && Follows(Symbol(op) + (TextOf(r) + post))
    ensures forall p :: p >= Prec(op) ==> Yields(Symbol(op) + (TextOf(r) + post), p)
  {
    TextStarts(r, post);
    PeekSymbol(op, TextOf(r) + post);
  }

  lemma {:induction false} InfixCase(w: Writing, op: Binary, l: Writing, r: Writing, post: string, min: nat)
    requires w == Infix(op, l, r) && Right(w) && min <= Prec(op) && Yields(post, Prec(op)) && Starts(TextOf(r) + post)
    requires ParseExpr(TextOf(r) + post, Prec(op) + 1) == Climb(post, ExprOf(r), Prec(op) + 1)
    requires ParseExpr(TextOf(l) + (Symbol(op) + (TextOf(r) + post)), min) == Climb(Symbol(op) + (TextOf(r) + post), ExprOf(l), min)
    ensures ParseExpr(TextOf(w) + post, min) == Climb(post, ExprOf(w), min)
  {
    InfixReads(op, TextOf(l), ExprOf(l), TextOf(r), ExprOf(r), post, min);
  }

  lemma {:induction false} SpacedCase(w: Writing, b: string, x: Writing, a: string, post: string, min: nat)
    requires w == Spaced(b, x, a) && Right(w)
    requires ParseExpr(TextOf(x) + (a + post), min) == Climb(a + post, ExprOf(x), min)
    ensures ParseExpr(TextOf(w) + post, min) == Climb(post, ExprOf(w), min)
  {
    SpacedReads(b, TextOf(x), a, ExprOf(x), post, min);
  }

  /** Every text is read, to its end. */
  lemma {:induction false} TextReads(w: Writing, post: string, min: nat)
    requires Right(w) && Follows(post) && Yields(post, Level(w)) && min <= Level(w)
    ensures ParseExpr(TextOf(w) + post, min) == Climb(post, ExprOf(w), min)
    decreases w, 2
  {
    match w
    case Infix(op, l, r) =>
      OperatorFollows(op, r, post);
      TextReads(r, post, Prec(op) + 1);
      TextReads(l, Symbol(op) + (TextOf(r) + post), min);
      InfixCase(w, op, l, r, post, min);
    case Spaced(b, x, a) =>
      BehindGap(a, post);
      TextReads(x, a + post, min);
      SpacedCase(w, b, x, a, post, min);
    case _ =>
      OperandReads(w, post);
      ThenClimb(TextOf(w) + post, ExprOf(w), post, min);
  }

  lemma {:induction false} BehindGap(a: string, post: string)
    requires Blank(a) && Follows(post)
    ensures Follows(a + post) && forall p :: Yields(post, p) ==> Yields(a + post, p)
  {
    SkipGap(a, post);
    if a == [] { assert a + post == post; }
  }

  lemma {:induction false} OperandReads(w: Writing, post: string)
    requires Right(w) && Level(w) == TIGHTEST && Follows(post)
    ensures Reads(ParseUnary(TextOf(w) + post), ExprOf(w), post)
    decreases w, 1
  {
    match w
    case Number(d) => DigitsRead(d, NumberOf(d), post);
    case Name(n) => VarReads(n, post);
    case Whole(n, gap, inside) => WholeReads(n, gap, inside, post);
    case Index(n, gap, x) => IndexReads(n, gap, x, post);
    case Subrange(n, gap, h, l) => SubrangeReads(n, gap, h, l, post, w);
    case Prefix(op, x) =>
      OperandReads(x, post);
      PrefixReads(op, x, post);
    case Call(f, n, gap, x) =>
      Enclosed(x, ')', post);
      CalledReads(f, n, gap, TextOf(x), ExprOf(x), post);
    case Group(x) => GroupReads(x, post);
    case Spaced(b, x, a) =>
      BehindGap(a, post);
      OperandReads(x, a + post);
      SpacedReads(b, TextOf(x), a, ExprOf(x), post, 0);
  }

  lemma {:induction false} CalledReads(f: Builtin, n: string, gap: string, s: string, e: Expr, post: string)
    requires CallName(f, n) && CallGap(f, gap) && ParseExpr(s + ([')'] + post), 0) == Ok(e, [')'] + post)
    ensures ParseUnary((n + (gap + ("(" + (s + ")")))) + post) == Ok(FuncCall(f, e), post)
  {
    Regroup5(n, gap, "(", s, ")", post);
    CallReads(f, n, gap, s + (")" + post));
    Closes(FuncCall(f, e), ')', post);
  }

  /** Between brackets. */
  lemma {:induction false} Enclosed(w: Writing, c: char, post: string)
    requires Right(w) && (c == ')' || c == ']' || c == '.')
    ensures ParseExpr(TextOf(w) + ([c] + post), 0) == Ok(ExprOf(w), [c] + post)
    decreases w, 3
  {
    CloserFollows(c, post);
    TextReads(w, [c] + post, 0);
    ClimbStops([c] + post, ExprOf(w), 0);
  }

  lemma {:induction false} WholeReads(n: string, gap: string, inside: string, post: string)
    requires IsName(n) && Blank(gap) && Blank(inside)
    ensures ParseUnary((n + (gap + ("[" + (inside + "]")))) + post) == Ok(ArrayWhole(n), post)
  {
    var z := "]" + post;
    assert z[0] == ']' && z[1..] == post;
    BracketReads(n, gap, inside + z);
    SkipGap(inside, z);
    Regroup5(n, gap, "[", inside, "]", post);
  }

  lemma {:induction false} IndexReads(n: string, gap: string, x: Writing, post: string)
    requires IsName(n) && Blank(gap) && Right(x)
    ensures ParseUnary((n + (gap + ("[" + (TextOf(x) + "]")))) + post) == Ok(ArrayIndex(n, ExprOf(x)), post)
    decreases x, 4
  {
    Enclosed(x, ']', post);
    TextStarts(x, [']'] + post);
    IndexedReads(n, gap, TextOf(x), ExprOf(x), post);
  }

  lemma {:induction false} IndexedReads(n: string, gap: string, s: string, e: Expr, post: string)
    requires IsName(n) && Blank(gap) && StartsBoth(s + ([']'] + post)) && ParseExpr(s + ([']'] + post), 0) == Ok(e, [']'] + post)
    ensures ParseUnary((n + (gap + ("[" + (s + "]")))) + post) == Ok(ArrayIndex(n, e), post)
  {
    var z := [']'] + post;
    assert z[0] == ']' && z[1..] == post && |z| >= 2 ==> z[..2][0] == ']';
    SkippedSame(s + z, 0);
    BracketReads(n, gap, s + z);
    Closes(ArrayIndex(n, e), ']', post);
    Regroup5(n, gap, "[", s, "]", post);
  }

  lemma {:induction false} SkippedSame(s: string, min: nat)
    ensures ParseExpr(SkipBlanks(s), min) == ParseExpr(s, min)
  {
    SkipTwice(s);
  }

  lemma {:induction false} SubrangeReads(n: string, gap: string, h: Writing, l: Writing, post: string, w: Writing)
    requires w == Subrange(n, gap, h, l) && Right(w)
    ensures ParseUnary(TextOf(w) + post) == Ok(ExprOf(w), post)
    decreases w, 0
  {
    var low := TextOf(l) + ([']'] + post);
    Enclosed(l, ']', post);
    Enclosed(h, '.', "." + low);
    TextStarts(h, ['.'] + ("." + low));
    RangeReads(n, gap, TextOf(h), ExprOf(h), TextOf(l), ExprOf(l), low, post);
  }

  lemma {:induction false} RangeReads(n: string, gap: string, h: string, high: Expr, l: string, lower: Expr, low: string, post: string)
    requires IsName(n) && Blank(gap) && low == l + ([']'] + post) && StartsBoth(h + (['.'] + ("." + low)))
    requires ParseExpr(h + (['.'] + ("." + low)), 0) == Ok(high, ['.'] + ("." + low))
    requires ParseExpr(low, 0) == Ok(lower, [']'] + post)
    ensures ParseUnary((n + (gap + ("[" + (h + (".." + (l + "]")))))) + post) == Ok(ArraySubrange(n, high, lower), post)
  {
    var mid := ['.'] + ("." + low);
    assert mid[0] == '.' && mid[..2] == ".." && mid[2..] == low && SkipBlanks(mid) == mid;
    SkippedSame(h + mid, 0);
    BracketReads(n, gap, h + mid);
    Closes(ArraySubrange(n, high, lower), ']', post);
    SubrangeText(n, gap, h, l, post);
  }

  lemma {:induction false} SubrangeText(n: string, gap: string, h: string, l: string, post: string)
    ensures (n + (gap + ("[" + (h + (".." + (l + "]")))))) + post == n + (gap + ("[" + (h + (['.'] + ("." + (l + ([']'] + post)))))))
  {
    Regroup5(n, gap, "[", h, ".." + (l + "]"), post);
    Regroup("..", l, "]", post);
    assert ".." + (l + ("]" + post)) == ['.'] + ("." + (l + ([']'] + post)));
  }

  lemma {:induction false} PrefixReads(op: Unary, x: Writing, post: string)
    requires Right(x) && Reads(ParseUnary(TextOf(x) + post), ExprOf(x), post)
    ensures Reads(ParseUnary(([Mark(op)] + TextOf(x)) + post), UnaryOp(op, ExprOf(x)), post)
  {
    var s := TextOf(x) + post;
    var t := [Mark(op)] + s;
    TextStarts(x, post);
    assert t[0] == Mark(op) && t[1..] == s && t[1] == s[0];
    assert SkipBlanks(t) == t;
    assert ([Mark(op)] + TextOf(x)) + post == t;
  }

  lemma {:induction false} GroupReads(x: Writing, post: string)
    requires Right(x)
    ensures ParseUnary(("(" + (TextOf(x) + ")")) + post) == Ok(ExprOf(x), post)
    decreases x, 4
  {
    var z := ")" + post;
    var t := "(" + (TextOf(x) + z);
    Enclosed(x, ')', post);
    assert t[0] == '(' && t[1..] == TextOf(x) + z && z[0] == ')' && z[1..] == post;
    assert ("(" + (TextOf(x) + ")")) + post == t;
  }

  // ----- The entry point ------------------------------------------------------------------------------

  predicate IsSpace(c: char) { c == ' ' || '\t' <= c <= '\r' || '\U{1c}' <= c <= '\U{1f}' }

  function StripLeft(s: string): string { if s != [] && IsSpace(s[0]) then StripLeft(s[1..]) else s }

  function StripRight(s: string): string { if s != [] && IsSpace(s[|s| - 1]) then StripRight(s[..|s| - 1]) else s }

  function Stripped(s: string): string { StripRight(StripLeft(s)) }

  function ParseText(text: string): Parsed {
    var t := Stripped(text);
    if t == [] then Fail(ValueError) else ParseExpr(t, 0)
  }
}
