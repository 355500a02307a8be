/** Printing an expression and parsing it again. */
module StaplRoundTrip {
  import opened Wrappers
  import opened StaplExpr
  import opened StaplGrammar

  /** Names are identifiers. */
  predicate WellNamed(e: Expr) {
    match e
    case IntLiteral(_) => true
    case VarRef(n) => IsName(n)
    case ArrayIndex(n, i) => IsName(n) && WellNamed(i)
    case ArraySubrange(n, h, l) => IsName(n) && WellNamed(h) && WellNamed(l)
    case ArrayWhole(n) => IsName(n)
    case UnaryOp(_, a) => WellNamed(a)
    case BinOp(_, a, b) => WellNamed(a) && WellNamed(b)
    case FuncCall(_, a) => WellNamed(a)
    case BooleanLiteral(_) => true
  }

  predicate NoLiteral(e: Expr) {
    match e
    case IntLiteral(_) => true
    case VarRef(_) => true
    case ArrayIndex(_, i) => NoLiteral(i)
    case ArraySubrange(_, h, l) => NoLiteral(h) && NoLiteral(l)
    case ArrayWhole(_) => true
    case UnaryOp(_, a) => NoLiteral(a)
    case BinOp(_, a, b) => NoLiteral(a) && NoLiteral(b)
    case FuncCall(_, a) => NoLiteral(a)
    case BooleanLiteral(_) => false
  }

  predicate Named(e: Expr) { WellNamed(e) && NoLiteral(e) }

  /** Parentheses go round a binary operation where the context binds tighter,
      and wherever else `wrap` wants them. */
  function Show(e: Expr, ctx: nat, wrap: Expr -> bool): string
    decreases e, 1
  {
    match e
    case IntLiteral(v) => Decimal(v)
    case VarRef(n) => n
    case ArrayIndex(n, i) => n + "[" + Show(i, 0, wrap) + "]"
    case ArraySubrange(n, h, l) => n + "[" + Show(h, 0, wrap) + ".." + Show(l, 0, wrap) + "]"
    case ArrayWhole(n) => n + "[]"
    case UnaryOp(op, a) => [Mark(op)] + Show(a, TIGHTEST, wrap)
    case BinOp(op, a, b) =>
      if Open(e, ctx, wrap) then ShowOpen(e, wrap) else "(" + ShowOpen(e, wrap) + ")"
    case FuncCall(f, a) => NameOf(f) + "(" + Show(a, 0, wrap) + ")"
    case BooleanLiteral(n) => "<" + Decimal(n) + " bits>"
  }

  /** A binary operation printed without parentheses of its own. */
  predicate Open(e: Expr, ctx: nat, wrap: Expr -> bool) {
    e.BinOp? && ctx <= Prec(e.op) && !wrap(e)
  }

  /** Operators associate to the left. */
  function ShowOpen(e: Expr, wrap: Expr -> bool): string
    requires e.BinOp?
    decreases e, 0
  {
    Show(e.left, Prec(e.op), wrap) + (" " + Symbol(e.op) + " ") + Show(e.right, Prec(e.op) + 1, wrap)
  }

  /** `fmt_expr`: parentheses round every binary operation. */
  function Fmt(e: Expr): string {
    match e
    case IntLiteral(v) => Decimal(v)
    case VarRef(n) => n
    case ArrayIndex(n, i) => n + "[" + Fmt(i) + "]"
    case ArraySubrange(n, h, l) => n + "[" + Fmt(h) + ".." + Fmt(l) + "]"
    case ArrayWhole(n) => n + "[]"
    case UnaryOp(op, a) => [Mark(op)] + Fmt(a)
    case BinOp(op, a, b) => "(" + (Fmt(a) + (" " + Symbol(op) + " ") + Fmt(b)) + ")"
    case FuncCall(f, a) => NameOf(f) + "(" + Fmt(a) + ")"
    case BooleanLiteral(n) => "<" + Decimal(n) + " bits>"
  }

  lemma {:induction false} FmtIsShow(e: Expr, ctx: nat)
    ensures Fmt(e) == Show(e, ctx, (_: Expr) => true)
    decreases e
  {
    match e
    case ArrayIndex(_, i) => FmtIsShow(i, 0);
    case ArraySubrange(_, h, l) => FmtIsShow(h, 0); FmtIsShow(l, 0);
    case UnaryOp(_, a) => FmtIsShow(a, TIGHTEST);
    case BinOp(op, a, b) => FmtIsShow(a, Prec(op)); FmtIsShow(b, Prec(op) + 1);
    case FuncCall(_, a) => FmtIsShow(a, 0);
    case _ =>
  }

  // ----- The printed form is a text ---------------------------------------------------------------

  /** How tightly the printed form holds together. */
  function Top(e: Expr, ctx: nat, wrap: Expr -> bool): nat {
    if Open(e, ctx, wrap) then Prec(e.op) else TIGHTEST
  }

  function Written(e: Expr, ctx: nat, wrap: Expr -> bool): Writing
    requires Named(e)
    decreases e, 1
  {
    match e
    case IntLiteral(v) => Number(Decimal(v))
    case VarRef(n) => Name(n)
    case ArrayIndex(n, i) => Index(n, "", Written(i, 0, wrap))
    case ArraySubrange(n, h, l) => Subrange(n, "", Written(h, 0, wrap), Written(l, 0, wrap))
    case ArrayWhole(n) => Whole(n, "", "")
    case UnaryOp(op, a) => Prefix(op, Written(a, TIGHTEST, wrap))
    case BinOp(_, _, _) => if Open(e, ctx, wrap) then WrittenOpen(e, wrap) else Group(WrittenOpen(e, wrap))
    case FuncCall(f, a) =>
      if f == Chr then Call(Chr, "CHR", "$", Written(a, 0, wrap)) else Call(f, NameOf(f), "", Written(a, 0, wrap))
  }

  function WrittenOpen(e: Expr, wrap: Expr -> bool): Writing
    requires Named(e) && e.BinOp?
    decreases e, 0
  {
    Infix(e.op, Spaced("", Written(e.left, Prec(e.op), wrap), " "), Spaced(" ", Written(e.right, Prec(e.op) + 1, wrap), ""))
  }

  /** A text that shows as `s` and means `e`. */
  predicate IsWritten(w: Writing, s: string, e: Expr, level: nat) {
    Right(w) && TextOf(w) == s && ExprOf(w) == e && Level(w) == level
  }

  lemma {:induction false} ShowIsText(e: Expr, ctx: nat, wrap: Expr -> bool)
    requires Named(e)
    ensures IsWritten(Written(e, ctx, wrap), Show(e, ctx, wrap), e, Top(e, ctx, wrap))
    decreases e, 1
  {
    match e
    case IntLiteral(v) => DecimalRoundTrip(v);
    case VarRef(_) =>
    case ArrayIndex(n, i) =>
      ShowIsText(i, 0, wrap);
      IndexIsText(n, Written(i, 0, wrap), Show(i, 0, wrap), i, Top(i, 0, wrap));
    case ArraySubrange(n, h, l) =>
      ShowIsText(h, 0, wrap);
      ShowIsText(l, 0, wrap);
      RangeIsText(n, Written(h, 0, wrap), Show(h, 0, wrap), h, Top(h, 0, wrap), Written(l, 0, wrap), Show(l, 0, wrap), l, Top(l, 0, wrap));
    case ArrayWhole(n) => PutTogether(n, "[", "", "]");
    case UnaryOp(_, a) => ShowIsText(a, TIGHTEST, wrap);
    case BinOp(_, _, _) =>
      ShowOpenIsText(e, wrap);
      GroupIsText(WrittenOpen(e, wrap), ShowOpen(e, wrap), e, Prec(e.op));
    case FuncCall(f, a) =>
      ShowIsText(a, 0, wrap);
      CallIsText(f, Written(a, 0, wrap), Show(a, 0, wrap), a, Top(a, 0, wrap));
  }

  lemma {:induction false} ShowOpenIsText(e: Expr, wrap: Expr -> bool)
    requires Named(e) && e.BinOp?
    ensures IsWritten(WrittenOpen(e, wrap), ShowOpen(e, wrap), e, Prec(e.op))
    decreases e, 0
  {
    var p := Prec(e.op);
    ShowIsText(e.left, p, wrap);
    ShowIsText(e.right, p + 1, wrap);
    InfixIsText(e.op, Written(e.left, p, wrap), Show(e.left, p, wrap), e.left, Top(e.left, p, wrap),
                Written(e.right, p + 1, wrap), Show(e.right, p + 1, wrap), e.right, Top(e.right, p + 1, wrap));
  }

  lemma {:induction false} InfixIsText(op: Binary, u: Writing, l: string, left: Expr, ul: nat, v: Writing, r: string, right: Expr, vl: nat)
    requires IsWritten(u, l, left, ul) && IsWritten(v, r, right, vl) && ul >= Prec(op) && vl > Prec(op)
    ensures IsWritten(Infix(op, Spaced("", u, " "), Spaced(" ", v, "")), l + (" " + Symbol(op) + " ") + r, BinOp(op, left, right), Prec(op))
  {
    assert ("" + (l + " ")) + (Symbol(op) + (" " + (r + ""))) == l + (" " + Symbol(op) + " ") + r;
  }

  lemma {:induction false} GroupIsText(w: Writing, s: string, e: Expr, level: nat)
    requires IsWritten(w, s, e, level)
    ensures IsWritten(Group(w), "(" + s + ")", e, TIGHTEST)
  {
    assert "(" + (s + ")") == "(" + s + ")";
  }

  lemma {:induction false} IndexIsText(n: string, w: Writing, s: string, x: Expr, level: nat)
    requires IsName(n) && IsWritten(w, s, x, level)
    ensures IsWritten(Index(n, "", w), n + "[" + s + "]", ArrayIndex(n, x), TIGHTEST)
  {
    PutTogether(n, "[", s, "]");
  }

  lemma {:induction false} RangeIsText(n: string, u: Writing, h: string, high: Expr, ul: nat, v: Writing, l: string, low: Expr, vl: nat)
    requires IsName(n) && IsWritten(u, h, high, ul) && IsWritten(v, l, low, vl)
    ensures IsWritten(Subrange(n, "", u, v), n + "[" + h + ".." + l + "]", ArraySubrange(n, high, low), TIGHTEST)
  {
    RangeTogether(n, h, l);
  }

  lemma {:induction false} CallIsText(f: Builtin, w: Writing, s: string, a: Expr, level: nat)
    requires IsWritten(w, s, a, level)
    ensures IsWritten(if f == Chr then Call(Chr, "CHR", "$", w) else Call(f, NameOf(f), "", w),
                      NameOf(f) + "(" + s + ")", FuncCall(f, a), TIGHTEST)
  {
    if f == Chr {
      assert "$"[..0] == "" && "$"[1..] == "" && Upper("CHR") == "CHR";
      assert "CHR" + ("$" + ("(" + (s + ")"))) == "CHR$" + "(" + s + ")";
    } else {
      UpperNames(f);
      PutTogether(NameOf(f), "(", s, ")");
    }
  }

  lemma {:induction false} PutTogether(n: string, open: string, s: string, close: string)
    ensures n + ("" + (open + (s + close))) == n + open + s + close
  {}

  lemma {:induction false} RangeTogether(n: string, h: string, l: string)
    ensures n + ("" + ("[" + (h + (".." + (l + "]"))))) == n + "[" + h + ".." + l + "]"
  {}

  lemma {:induction false} UpperNames(f: Builtin)
    requires f != Chr
    ensures IsName(NameOf(f)) && Upper(NameOf(f)) == NameOf(f) && BuiltinOf(NameOf(f)) == Some(f)
  {
    var n := NameOf(f);
    assert forall i :: 0 <= i < |n| ==> 'A' <= n[i] <= 'Z';
  }

  /** No printed operand starts with a blank, an equals sign or a bracket. */
  predicate Begins(s: string) {
    s != [] && !IsSpace(s[0]) && s[0] != '=' && s[0] != ']'
  }

  lemma {:induction false} ShowBegins(e: Expr, ctx: nat, wrap: Expr -> bool)
    requires WellNamed(e)
    ensures Begins(Show(e, ctx, wrap))
    decreases e
  {
    match e
    case IntLiteral(v) => assert IsDigit(Decimal(v)[0]);
    case BinOp(op, a, b) => ShowBegins(a, Prec(op), wrap);
    case _ =>
  }

  lemma {:induction false} BeginsFront(s: string, post: string)
    requires Begins(s)
    ensures Begins(s + post) && SkipBlanks(s + post) == s + post
  {}

  lemma {:induction false} ExprReads(e: Expr, ctx: nat, wrap: Expr -> bool, post: string, min: nat)
    requires Named(e) && Follows(post) && Yields(post, Top(e, ctx, wrap)) && min <= ctx && ctx <= TIGHTEST
    ensures ParseExpr(Show(e, ctx, wrap) + post, min) == Climb(post, e, min)
  {
    ShowIsText(e, ctx, wrap);
    TextReads(Written(e, ctx, wrap), post, min);
  }

  lemma {:induction false} ShowEnds(e: Expr, ctx: nat, wrap: Expr -> bool)
    requires WellNamed(e)
    ensures var s := Show(e, ctx, wrap); s != [] && !IsSpace(s[|s| - 1])
    decreases e
  {
    match e
    case IntLiteral(v) => assert IsDigit(Decimal(v)[|Decimal(v)| - 1]);
    case VarRef(n) => assert IsIdent(n[|n| - 1]);
    case UnaryOp(_, a) => ShowEnds(a, TIGHTEST, wrap);
    case BinOp(op, _, b) => ShowEnds(b, Prec(op) + 1, wrap);
    case _ =>
  }

  /** However parentheses are added to those that precedence and left association
      need, the printed expression is read back as it was, to its end. */
  lemma {:induction false} ShowRoundTrip(e: Expr, wrap: Expr -> bool)
    requires Named(e)
    ensures ParseText(Show(e, 0, wrap)) == Ok(e, "")
  {
    var s := Show(e, 0, wrap);
    ShowBegins(e, 0, wrap);
    ShowEnds(e, 0, wrap);
    ExprReads(e, 0, wrap, "", 0);
    ClimbStops("", e, 0);
    assert s + "" == s;
  }

  /** `parse_expr(fmt_expr(e))` is `e`. */
  lemma {:induction false} FmtRoundTrip(e: Expr)
    requires Named(e)
    ensures ParseText(Fmt(e)) == Ok(e, "")
  {
    FmtIsShow(e, 0);
    ShowRoundTrip(e, (_: Expr) => true);
  }
}
