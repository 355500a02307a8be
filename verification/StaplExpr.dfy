/** STAPL expressions: the tree, its printed forms, and the grammar the
    precedence-climbing parser follows. */
module StaplExpr {
  import opened Wrappers

  datatype Binary = LogOr | LogAnd | BitOr | BitXor | BitAnd | Eq | Ne | Lt | Le | Gt | Ge | Shl | Shr
                  | Add | Sub | Mul | Div | Mod

  datatype Unary = Inv | Not | Neg

  datatype Builtin = Abs | IntOf | BoolOf | Chr

  datatype Expr =
    | IntLiteral(value: nat)
    | VarRef(name: string)
    | ArrayIndex(name: string, index: Expr)
    | ArraySubrange(name: string, high: Expr, low: Expr)
    | ArrayWhole(name: string)
    | UnaryOp(uop: Unary, operand: Expr)
    | BinOp(op: Binary, left: Expr, right: Expr)
    | FuncCall(func: Builtin, arg: Expr)
    | BooleanLiteral(bitCount: nat)

  function Symbol(op: Binary): string {
    match op
    case LogOr => "||" case LogAnd => "&&" case BitOr => "|" case BitXor => "^" case BitAnd => "&"
    case Eq => "==" case Ne => "!=" case Lt => "<" case Le => "<=" case Gt => ">" case Ge => ">="
    case Shl => "<<" case Shr => ">>" case Add => "+" case Sub => "-" case Mul => "*" case Div => "/" case Mod => "%"
  }

  function Prec(op: Binary): nat {
    match op
    case LogOr => 1 case LogAnd => 2 case BitOr => 3 case BitXor => 4 case BitAnd => 5
    case Eq => 6 case Ne => 6 case Lt => 7 case Le => 7 case Gt => 7 case Ge => 7
    case Shl => 8 case Shr => 8 case Add => 9 case Sub => 9 case Mul => 10 case Div => 10 case Mod => 10
  }

  function Mark(op: Unary): char { match op case Inv => '~' case Not => '!' case Neg => '-' }

  function NameOf(f: Builtin): string { match f case Abs => "ABS" case IntOf => "INT" case BoolOf => "BOOL" case Chr => "CHR$" }

  // ----- Characters -----------------------------------------------------------------------

  predicate IsDigit(c: char) { '0' <= c <= '9' }

  predicate IsAlpha(c: char) { 'a' <= c <= 'z' || 'A' <= c <= 'Z' }

  predicate IsIdent(c: char) { IsAlpha(c) || IsDigit(c) || c == '_' }

  predicate IsBlank(c: char) { c == ' ' || c == '\t' }

  predicate IsName(s: string) {
    s != [] && !IsDigit(s[0]) && forall i :: 0 <= i < |s| ==> IsIdent(s[i])
  }

  function UpperChar(c: char): char { if 'a' <= c <= 'z' then 'A' + (c - 'a') else c }

  function Upper(s: string): (r: string)
    ensures |r| == |s|
  {
    seq(|s|, i requires 0 <= i < |s| => UpperChar(s[i]))
  }

  /** How many characters at the front satisfy `p`. */
  function Span(s: string, p: char -> bool): (n: nat)
    ensures n <= |s| && (n < |s| ==> !p(s[n]))
    ensures forall i :: 0 <= i < n ==> p(s[i])
    decreases |s|
  {
    if s == [] || !p(s[0]) then 0 else 1 + Span(s[1..], p)
  }

  lemma {:induction false} SpanOf(a: string, post: string, p: char -> bool)
    requires (forall i :: 0 <= i < |a| ==> p(a[i])) && (post == [] || !p(post[0]))
    ensures Span(a + post, p) == |a|
    decreases |a|
  {
    var s := a + post;
    if a == [] {
      assert s == post;
    } else {
      assert s[1..] == a[1..] + post && s[0] == a[0];
      SpanOf(a[1..], post, p);
    }
  }

  function SkipBlanks(s: string): (r: string)
    ensures |r| <= |s| && (r != [] ==> !IsBlank(r[0]))
  {
    if s != [] && IsBlank(s[0]) then SkipBlanks(s[1..]) else s
  }

  // ----- Numbers ---------------------------------------------------------------------------

  function Digit(n: nat): char
    requires n < 10
  {
    '0' + n as char
  }

  function Decimal(n: nat): (s: string)
    ensures s != [] && forall i :: 0 <= i < |s| ==> IsDigit(s[i])
  {
    if n < 10 then [Digit(n)] else Decimal(n / 10) + [Digit(n % 10)]
  }

  function NumberOf(s: string): nat
    requires forall i :: 0 <= i < |s| ==> IsDigit(s[i])
  {
    if s == [] then 0
    else
      var last := s[|s| - 1];
      assert IsDigit(last);
      NumberOf(s[..|s| - 1]) * 10 + (last as int - '0' as int)
  }

  lemma {:induction false} DecimalRoundTrip(n: nat)
    ensures NumberOf(Decimal(n)) == n
    decreases n
  {
    if n >= 10 {
      DecimalRoundTrip(n / 10);
      assert Decimal(n)[..|Decimal(n)| - 1] == Decimal(n / 10);
    }
  }

  // ----- The grammar -----------------------------------------------------------------------

  datatype Error = ValueError | AssertionError | IndexError | LiteralNotModelled

  /** An expression and the text after it. */
  datatype Parsed = Ok(value: Expr, rest: string) | Fail(error: Error)

  /** The binary operator at the front, the longer ones first. */
  function PeekOperator(s: string): (r: Option<Binary>)
    ensures r.Some? ==> |Symbol(r.value)| <= |s| && s[..|Symbol(r.value)|] == Symbol(r.value)
  {
    if s == [] then None
    else
      var two := if |s| >= 2 then s[..2] else s;
      if two == "==" then Some(Eq) else if two == "!=" then Some(Ne)
      else if two == "<=" then Some(Le) else if two == ">=" then Some(Ge)
      else if two == "<<" then Some(Shl) else if two == ">>" then Some(Shr)
      else if two == "&&" then Some(LogAnd) else if two == "||" then Some(LogOr)
      else match s[0]
           case '+' => Some(Add) case '-' => Some(Sub) case '*' => Some(Mul) case '/' => Some(Div) case '%' => Some(Mod)
           case '<' => Some(Lt) case '>' => Some(Gt) case '&' => Some(BitAnd) case '|' => Some(BitOr) case '^' => Some(BitXor)
           case _ => None
  }

  function ParseExpr(s: string, min: nat): (r: Parsed)
    ensures r.Ok? ==> |r.rest| < |s|
    decreases |s|, 4
  {
    var l := ParseUnary(s);
    if l.Fail? then l else Climb(l.rest, l.value, min)
  }

  /** The operators and right operands that follow `left`. */
  function Climb(s: string, left: Expr, min: nat): (r: Parsed)
    ensures r.Ok? ==> |r.rest| <= |s|
    decreases |s|, 5
  {
    var t := SkipBlanks(s);
    var op := PeekOperator(t);
    if op.None? || Prec(op.value) < min then Ok(left, t)
    else
      var r := ParseExpr(t[|Symbol(op.value)|..], Prec(op.value) + 1);
      if r.Fail? then r else Climb(r.rest, BinOp(op.value, left, r.value), min)
  }

  function ParseUnary(s: string): (r: Parsed)
    ensures r.Ok? ==> |r.rest| < |s|
    decreases |s|, 3
  {
    var t := SkipBlanks(s);
    if t == [] then Fail(ValueError)
    else if t[0] == '~' then WithUnary(Inv, ParseUnary(t[1..]))
    else if t[0] == '!' && !(|t| > 1 && t[1] == '=') then WithUnary(Not, ParseUnary(t[1..]))
    else if t[0] == '-' then WithUnary(Neg, ParseUnary(t[1..]))
    else ParsePrimary(t)
  }

  function WithUnary(op: Unary, r: Parsed): Parsed {
    if r.Ok? then Ok(UnaryOp(op, r.value), r.rest) else r
  }

  function ParsePrimary(t: string): (r: Parsed)
    requires t != [] && !IsBlank(t[0])
    ensures r.Ok? ==> |r.rest| < |t|
    decreases |t|, 2
  {
    if t[0] == '(' then
      var e := ParseExpr(t[1..], 0);
      if e.Fail? then e
      else
        var u := SkipBlanks(e.rest);
        if u != [] && u[0] == ')' then Ok(e.value, u[1..]) else Fail(ValueError)
    else if IsDigit(t[0]) then
      var n := Span(t, IsDigit);
      Ok(IntLiteral(NumberOf(t[..n])), t[n..])
    else if t[0] == '#' || t[0] == '$' || t[0] == '@' then Fail(LiteralNotModelled)
    else if IsIdent(t[0]) then ParseIdentifier(t)
    else Fail(ValueError)
  }

  /** `assert text[pos] == c`, then past it. */
  function Closing(e: Expr, s: string, c: char): (r: Parsed)
    ensures r.Ok? ==> |r.rest| < |s|
  {
    var u := SkipBlanks(s);
    if u == [] then Fail(IndexError) else if u[0] != c then Fail(AssertionError) else Ok(e, u[1..])
  }

  function BuiltinOf(name: string): Option<Builtin> {
    if name == "ABS" then Some(Abs) else if name == "INT" then Some(IntOf) else if name == "BOOL" then Some(BoolOf) else None
  }

  function ParseIdentifier(t: string): (r: Parsed)
    requires t != [] && IsIdent(t[0]) && !IsDigit(t[0])
    ensures r.Ok? ==> |r.rest| < |t|
    decreases |t|, 1
  {
    var n := Span(t, IsIdent);
    var name, u := t[..n], SkipBlanks(t[n..]);
    AfterName(name, u)
  }

  /** What follows a name and its blanks. */
  function AfterName(name: string, u: string): (r: Parsed)
    ensures r.Ok? ==> |r.rest| <= |u|
    decreases |u|, 6
  {
    var f := BuiltinOf(Upper(name));
    if f.Some? && u != [] && u[0] == '(' then CallOf(f.value, u[1..])
    else if Upper(name) == "CHR" && u != [] && u[0] == '$' then
      var v := SkipBlanks(u[1..]);
      if v == [] then Fail(IndexError) else if v[0] != '(' then Fail(AssertionError) else CallOf(Chr, v[1..])
    else if u != [] && u[0] == '[' then IndexOf(name, SkipBlanks(u[1..]))
    else Ok(VarRef(name), u)
  }

  function CallOf(f: Builtin, s: string): (r: Parsed)
    ensures r.Ok? ==> |r.rest| <= |s|
    decreases |s|, 5
  {
    var a := ParseExpr(s, 0);
    if a.Fail? then a else Closing(FuncCall(f, a.value), a.rest, ')')
  }

  /** Behind the bracket. */
  function IndexOf(name: string, v: string): (r: Parsed)
    ensures r.Ok? ==> |r.rest| <= |v|
    decreases |v|, 5
  {
    if v != [] && v[0] == ']' then Ok(ArrayWhole(name), v[1..])
    else
      var a := ParseExpr(v, 0);
      if a.Fail? then a
      else
        var w := SkipBlanks(a.rest);
        if |w| >= 2 && w[..2] == ".." then
          var b := ParseExpr(w[2..], 0);
          if b.Fail? then b else Closing(ArraySubrange(name, a.value, b.value), b.rest, ']')
        else Closing(ArrayIndex(name, a.value), w, ']')
  }
}
