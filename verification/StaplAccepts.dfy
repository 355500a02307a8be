/** What the parser takes: texts of the language and nothing else. */
module StaplAccepts {
  import opened Wrappers
  import opened StaplExpr
  import opened StaplGrammar

  /** What was read off the front of `s` is the text `w`. */
  predicate Takes(w: Writing, s: string, r: Parsed) {
    r.Ok? && Right(w) && ExprOf(w) == r.value && TextOf(w) + r.rest == s
  }

  lemma {:induction false} PrecBound(op: Binary)
    ensures 0 < Prec(op) < TIGHTEST
  {}

  lemma {:induction false} SpacedTakes(gap: string, w: Writing, s: string, r: Parsed, behind: string, r': Parsed)
    requires Takes(w, s, r) && Blank(gap) && Blank(behind)
    requires r'.Ok? && r'.value == r.value && r.rest == behind + r'.rest
    ensures Takes(Spaced(gap, w, behind), gap + s, r')
  {
    assert (gap + (TextOf(w) + behind)) + r'.rest == gap + (TextOf(w) + (behind + r'.rest));
  }

  lemma {:induction false} UnaryTakes(s: string) returns (w: Writing)
    requires ParseUnary(s).Ok?
    ensures Takes(w, s, ParseUnary(s)) && Level(w) == TIGHTEST
    decreases |s|, 4
  {
    var gap := SkippedBlank(s);
    var t := SkipBlanks(s);
    SkipTwice(s);
    assert ParseUnary(t) == ParseUnary(s);
    var x := OperandTakes(t);
    w := Spaced(gap, x, "");
    assert ParseUnary(t).rest == "" + ParseUnary(s).rest;
    SpacedTakes(gap, x, t, ParseUnary(t), "", ParseUnary(s));
  }

  predicate IsPrefix(t: string) {
    t != [] && (t[0] == '~' || (t[0] == '!' && !(|t| > 1 && t[1] == '=')) || t[0] == '-')
  }

  function PrefixOf(c: char): Unary { if c == '~' then Inv else if c == '!' then Not else Neg }

  lemma {:induction false} UnaryIs(t: string)
    requires SkipBlanks(t) == t && t != []
    ensures ParseUnary(t) == if IsPrefix(t) then WithUnary(PrefixOf(t[0]), ParseUnary(t[1..])) else ParsePrimary(t)
  {}

  lemma {:induction false} OperandTakes(t: string) returns (w: Writing)
    requires SkipBlanks(t) == t && ParseUnary(t).Ok?
    ensures Takes(w, t, ParseUnary(t)) && Level(w) == TIGHTEST
    decreases |t|, 3
  {
    UnaryIs(t);
    if IsPrefix(t) {
      var y := UnaryTakes(t[1..]);
      w := Prefix(PrefixOf(t[0]), y);
      PrefixTakes(PrefixOf(t[0]), y, t, ParseUnary(t[1..]), ParseUnary(t));
    } else {
      w := PrimaryTakes(t);
    }
  }

  lemma {:induction false} PrefixTakes(op: Unary, y: Writing, t: string, r: Parsed, r': Parsed)
    requires t != [] && t[0] == Mark(op) && Takes(y, t[1..], r) && Level(y) == TIGHTEST && r' == WithUnary(op, r)
    ensures Takes(Prefix(op, y), t, r')
  {
    assert ([Mark(op)] + TextOf(y)) + r.rest == [t[0]] + t[1..];
  }

  lemma {:induction false} PrimaryTakes(t: string) returns (w: Writing)
    requires t != [] && !IsBlank(t[0]) && ParsePrimary(t).Ok?
    ensures Takes(w, t, ParsePrimary(t)) && Level(w) == TIGHTEST
    decreases |t|, 2
  {
    if t[0] == '(' {
      var x := ExprTakes(t[1..], 0);
      w := GroupTakes(x, t);
    } else if IsDigit(t[0]) {
      w := NumberTakes(t);
    } else {
      w := IdentifierTakes(t);
    }
  }

  lemma {:induction false} NumberTakes(t: string) returns (w: Writing)
    requires t != [] && !IsBlank(t[0]) && IsDigit(t[0])
    ensures Takes(w, t, ParsePrimary(t)) && Level(w) == TIGHTEST
  {
    var n := Span(t, IsDigit);
    w := Number(t[..n]);
    assert t == t[..n] + t[n..];
  }

  lemma {:induction false} IdentifierTakes(t: string) returns (w: Writing)
    requires t != [] && !IsBlank(t[0]) && t[0] != '(' && !IsDigit(t[0]) && ParsePrimary(t).Ok?
    ensures Takes(w, t, ParsePrimary(t)) && Level(w) == TIGHTEST
    decreases |t|, 1
  {
    var n := Span(t, IsIdent);
    var gap := SkippedBlank(t[n..]);
    assert IsIdent(t[0]);
    assert ParsePrimary(t) == ParseIdentifier(t);
    w := NameTakes(t[..n], gap, SkipBlanks(t[n..]));
    assert t == t[..n] + (gap + SkipBlanks(t[n..]));
  }

  lemma {:induction false} GroupTakes(x: Writing, t: string) returns (w: Writing)
    requires t != [] && t[0] == '(' && ParsePrimary(t).Ok? && Takes(x, t[1..], ParseExpr(t[1..], 0))
    ensures Takes(w, t, ParsePrimary(t)) && Level(w) == TIGHTEST
  {
    var rest := ParseExpr(t[1..], 0).rest;
    var gap := SkippedBlank(rest);
    w := Group(Spaced("", x, gap));
    var u := SkipBlanks(rest);
    GroupText(TextOf(x), gap, u, t);
  }

  lemma {:induction false} GroupText(s: string, gap: string, u: string, t: string)
    requires t != [] && t[0] == '(' && u != [] && u[0] == ')' && s + (gap + u) == t[1..]
    ensures ("(" + (("" + (s + gap)) + ")")) + u[1..] == t
  {
    assert u == ")" + u[1..];
    assert t == "(" + t[1..];
  }

  /** What follows a name and blanks. */
  lemma {:induction false} NameTakes(name: string, gap: string, u: string) returns (w: Writing)
    requires IsName(name) && Blank(gap) && AfterName(name, u).Ok?
    ensures Takes(w, name + (gap + u), AfterName(name, u)) && Level(w) == TIGHTEST
    decreases |u|, 6
  {
    var f := BuiltinOf(Upper(name));
    if f.Some? && u != [] && u[0] == '(' {
      w := CallTakes(f.value, name, gap, u[1..]);
      assert "(" + u[1..] == u;
    } else if Upper(name) == "CHR" && u != [] && u[0] == '$' {
      var more := SkippedBlank(u[1..]);
      var v := SkipBlanks(u[1..]);
      ChrGap(gap, more);
      w := CallTakes(Chr, name, gap + (['$'] + more), v[1..]);
      ChrText(gap, more, u, v);
    } else if u != [] && u[0] == '[' {
      w := IndexTakes(name, gap, u[1..]);
      assert "[" + u[1..] == u;
    } else {
      w := Spaced("", Name(name), gap);
      assert ("" + (name + gap)) + u == name + (gap + u);
    }
  }

  lemma {:induction false} ChrGap(gap: string, more: string)
    requires Blank(gap) && Blank(more)
    ensures CallGap(Chr, gap + (['$'] + more))
  {
    var all, i := gap + (['$'] + more), |gap|;
    assert all[..i] == gap && all[i] == '$' && all[i + 1..] == more;
  }

  lemma {:induction false} ChrText(gap: string, more: string, u: string, v: string)
    requires u != [] && u[0] == '$' && v != [] && v[0] == '(' && u[1..] == more + v
    ensures (gap + (['$'] + more)) + ("(" + v[1..]) == gap + u
  {
    assert "(" + v[1..] == v && u == ['$'] + u[1..];
  }

  lemma {:induction false} CallTakes(f: Builtin, name: string, gap: string, s: string) returns (w: Writing)
    requires CallName(f, name) && CallGap(f, gap) && CallOf(f, s).Ok?
    ensures Takes(w, name + (gap + ("(" + s)), CallOf(f, s)) && Level(w) == TIGHTEST
    decreases |s|, 6
  {
    var x := ExprTakes(s, 0);
    w := CalledTakes(f, name, gap, x, s);
  }

  lemma {:induction false} CalledTakes(f: Builtin, name: string, gap: string, x: Writing, s: string) returns (w: Writing)
    requires CallName(f, name) && CallGap(f, gap) && CallOf(f, s).Ok? && Takes(x, s, ParseExpr(s, 0))
    ensures Takes(w, name + (gap + ("(" + s)), CallOf(f, s)) && Level(w) == TIGHTEST
  {
    var rest := ParseExpr(s, 0).rest;
    var more := SkippedBlank(rest);
    w := Call(f, name, gap, Spaced("", x, more));
    ClosedText(name, gap, "(", "", TextOf(x), more, SkipBlanks(rest), ")", s);
  }

  lemma {:induction false} ClosedText(name: string, gap: string, open: string, a: string, s: string, b: string, u: string,
                                      close: string, all: string)
    requires |close| == 1 && u != [] && u[0] == close[0] && a + (s + (b + u)) == all
    ensures (name + (gap + (open + ((a + (s + b)) + close)))) + u[1..] == name + (gap + (open + all))
  {
    assert u == close + u[1..];
    Regroup5(name, gap, open, a + (s + b), close, u[1..]);
    Regroup(a, s, b, u);
  }

  lemma {:induction false} IndexTakes(name: string, gap: string, s: string) returns (w: Writing)
    requires IsName(name) && Blank(gap) && IndexOf(name, SkipBlanks(s)).Ok?
    ensures Takes(w, name + (gap + ("[" + s)), IndexOf(name, SkipBlanks(s))) && Level(w) == TIGHTEST
    decreases |s|, 6
  {
    var before := SkippedBlank(s);
    var v := SkipBlanks(s);
    if v != [] && v[0] == ']' {
      w := Whole(name, gap, before);
      WholeText(name, gap, before, v, s);
    } else {
      var x := ExprTakes(v, 0);
      var p := ParseExpr(v, 0);
      var u := SkipBlanks(p.rest);
      if |u| >= 2 && u[..2] == ".." {
        var y := ExprTakes(u[2..], 0);
        w := RangeTakes(name, gap, before, v, s, x, p, u, y, ParseExpr(u[2..], 0), IndexOf(name, v));
      } else {
        w := IndexedTakes(name, gap, before, v, s, x, p, u, IndexOf(name, v));
      }
    }
  }

  lemma {:induction false} WholeText(name: string, gap: string, before: string, v: string, s: string)
    requires v != [] && v[0] == ']' && s == before + v
    ensures (name + (gap + ("[" + (before + "]")))) + v[1..] == name + (gap + ("[" + s))
  {
    assert v == "]" + v[1..];
    Regroup5(name, gap, "[", before, "]", v[1..]);
  }

  lemma {:induction false} IndexedTakes(name: string, gap: string, before: string, v: string, s: string, x: Writing, p: Parsed,
                                        u: string, r: Parsed) returns (w: Writing)
    requires IsName(name) && Blank(gap) && Blank(before) && s == before + v && Takes(x, v, p) && u == SkipBlanks(p.rest)
    requires r.Ok? && r == Closing(ArrayIndex(name, p.value), u, ']')
    ensures Takes(w, name + (gap + ("[" + s)), r) && Level(w) == TIGHTEST
  {
    var behind := SkippedBlank(p.rest);
    SkipTwice(p.rest);
    w := Index(name, gap, Spaced(before, x, behind));
    ClosedText(name, gap, "[", before, TextOf(x), behind, u, "]", s);
  }

  lemma {:induction false} RangeTakes(name: string, gap: string, before: string, v: string, s: string, x: Writing, p: Parsed,
                                      u: string, y: Writing, q: Parsed, r: Parsed) returns (w: Writing)
    requires IsName(name) && Blank(gap) && Blank(before) && s == before + v && Takes(x, v, p) && u == SkipBlanks(p.rest)
    requires |u| >= 2 && u[..2] == ".." && Takes(y, u[2..], q)
    requires r.Ok? && r == Closing(ArraySubrange(name, p.value, q.value), q.rest, ']')
    ensures Takes(w, name + (gap + ("[" + s)), r) && Level(w) == TIGHTEST
  {
    var behind := SkippedBlank(p.rest);
    var more := SkippedBlank(q.rest);
    w := Subrange(name, gap, Spaced(before, x, behind), Spaced("", y, more));
    RangeText(name, gap, before, TextOf(x), behind, TextOf(y), more, u, SkipBlanks(q.rest), s);
  }

  lemma {:induction false} RangeText(name: string, gap: string, before: string, x: string, behind: string, y: string,
                                     more: string, u: string, z: string, s: string)
    requires |u| >= 2 && u[..2] == ".." && z != [] && z[0] == ']'
    requires s == before + (x + (behind + u)) && u[2..] == y + (more + z)
    ensures (name + (gap + ("[" + ((before + (x + behind)) + (".." + (("" + (y + more)) + "]")))))) + z[1..]
         == name + (gap + ("[" + s))
  {
    assert z == "]" + z[1..] && u == ".." + u[2..];
    Regroup5(name, gap, "[", before + (x + behind), ".." + (("" + (y + more)) + "]"), z[1..]);
    Regroup(before, x, behind, u);
    assert (".." + (("" + (y + more)) + "]")) + z[1..] == u;
  }

  /** The operator that follows binds less than `p`. */
  predicate Below(rest: string, p: nat) {
    var op := PeekOperator(SkipBlanks(rest));
    op.None? || Prec(op.value) < p
  }

  lemma {:induction false} ExprTakes(s: string, min: nat) returns (w: Writing)
    requires ParseExpr(s, min).Ok? && min <= TIGHTEST
    ensures Takes(w, s, ParseExpr(s, min)) && Level(w) >= min && Below(ParseExpr(s, min).rest, min)
    decreases |s|, 5
  {
    var x := UnaryTakes(s);
    var rest := ParseUnary(s).rest;
    var op := PeekOperator(SkipBlanks(rest));
    if op.Some? { PrecBound(op.value); }
    w := ClimbTakes(x, rest, min, s);
  }

  lemma {:induction false} ClimbTakes(l: Writing, s: string, min: nat, all: string) returns (w: Writing)
    requires Right(l) && Level(l) >= min && Yields(s, Level(l)) && all == TextOf(l) + s
    requires Climb(s, ExprOf(l), min).Ok?
    ensures Takes(w, all, Climb(s, ExprOf(l), min)) && Level(w) >= min && Below(Climb(s, ExprOf(l), min).rest, min)
    decreases |s|, 6
  {
    var t := SkipBlanks(s);
    var op := PeekOperator(t);
    if op.None? || Prec(op.value) < min {
      ClimbStops(s, ExprOf(l), min);
      SkipTwice(s);
      w := LastTakes(l, s, all);
    } else {
      var tail := t[|Symbol(op.value)|..];
      ClimbGoesOn(s, tail, op.value, ExprOf(l), min);
      PrecBound(op.value);
      var right := ParseExpr(tail, Prec(op.value) + 1);
      var r := ExprTakes(tail, Prec(op.value) + 1);
      var next := InfixTakes(l, s, op.value, r, right, all);
      w := ClimbTakes(next, right.rest, min, all);
    }
  }

  lemma {:induction false} LastTakes(l: Writing, s: string, all: string) returns (w: Writing)
    requires Right(l) && all == TextOf(l) + s
    ensures Takes(w, all, Ok(ExprOf(l), SkipBlanks(s))) && Level(w) == Level(l)
  {
    var gap := SkippedBlank(s);
    w := Spaced("", l, gap);
    BehindText(TextOf(l), gap, SkipBlanks(s), all);
  }

  lemma {:induction false} BehindText(t: string, gap: string, rest: string, all: string)
    requires all == t + (gap + rest)
    ensures all == ("" + (t + gap)) + rest
  {}

  lemma {:induction false} InfixTakes(l: Writing, s: string, op: Binary, r: Writing, right: Parsed, all: string) returns (next: Writing)
    requires Right(l) && Level(l) >= Prec(op) && all == TextOf(l) + s && PeekOperator(SkipBlanks(s)) == Some(op)
    requires Takes(r, SkipBlanks(s)[|Symbol(op)|..], right) && Level(r) > Prec(op) && Below(right.rest, Prec(op) + 1)
    ensures Right(next) && Level(next) == Prec(op) && ExprOf(next) == BinOp(op, ExprOf(l), right.value)
    ensures Yields(right.rest, Prec(op)) && all == TextOf(next) + right.rest
  {
    var gap := SkippedBlank(s);
    next := Infix(op, Spaced("", l, gap), r);
    InfixText(TextOf(l), gap, Symbol(op), TextOf(r), right.rest, SkipBlanks(s), all);
  }

  lemma {:induction false} InfixText(l: string, gap: string, symbol: string, r: string, rest: string, t: string, all: string)
    requires all == l + (gap + t) && |symbol| <= |t| && t[..|symbol|] == symbol && t[|symbol|..] == r + rest
    ensures all == (("" + (l + gap)) + (symbol + r)) + rest
  {
    assert t == symbol + (r + rest);
  }

  // ----- The whole parser -----------------------------------------------------------------------

  /** `w` is a text of `e`. */
  predicate Writes(w: Writing, s: string, e: Expr) { Right(w) && TextOf(w) == s && ExprOf(w) == e }

  ghost predicate IsTextOf(s: string, e: Expr) { exists w :: Writes(w, s, e) }

  /** What is parsed without an error is read off a text of the language. */
  lemma {:induction false} ParsedIsText(text: string) returns (read: string)
    requires ParseText(text).Ok?
    ensures IsTextOf(read, ParseText(text).value) && Stripped(text) == read + ParseText(text).rest
  {
    var w := ExprTakes(Stripped(text), 0);
    read := TextOf(w);
    assert Writes(w, read, ParseText(text).value);
  }

  /** The parser gives `e` and stops at the end of the text if and only if it is a
      text of `e`. */
  lemma {:induction false} ParsesIff(text: string, e: Expr)
    ensures ParseText(text) == Ok(e, "") <==> IsTextOf(Stripped(text), e)
  {
    var t := Stripped(text);
    if ParseText(text) == Ok(e, "") {
      var read := ParsedIsText(text);
      assert read + "" == read;
    }
    if IsTextOf(t, e) {
      var w :| Writes(w, t, e);
      TextReads(w, "", 0);
      ClimbStops("", e, 0);
      TextStarts(w, "");
      assert t + "" == t;
    }
  }

  /** No text has two meanings. */
  lemma {:induction false} TextsAreUnambiguous(s: string, d: Expr, e: Expr)
    requires IsTextOf(s, d) && IsTextOf(s, e)
    ensures d == e
  {
    var v, w :| Writes(v, s, d) && Writes(w, s, e);
    TextReads(v, "", 0);
    TextReads(w, "", 0);
    ClimbStops("", d, 0);
    ClimbStops("", e, 0);
  }

  // ----- What is refused ------------------------------------------------------------------------------

  /** The text after an expression neither goes on with it nor closes anything. */
  predicate Ends(post: string) { Follows(post) && PeekOperator(SkipBlanks(post)) == None }

  lemma {:induction false} EndsReads(w: Writing, post: string)
    requires Right(w) && Ends(post)
    ensures ParseExpr(TextOf(w) + post, 0) == Ok(ExprOf(w), SkipBlanks(post))
  {
    TextReads(w, post, 0);
    ClimbStops(post, ExprOf(w), 0);
  }

  lemma {:induction false} NoOperand(s: string)
    requires var t := SkipBlanks(s); t == [] || !(Opening(t[0]) || t[0] == '#' || t[0] == '$' || t[0] == '@')
    ensures ParseUnary(s) == Fail(ValueError)
  {}

  lemma {:induction false} GroupNotClosed(w: Writing, post: string)
    requires Right(w) && Ends(post) && (SkipBlanks(post) != [] ==> SkipBlanks(post)[0] != ')')
    ensures ParseUnary("(" + (TextOf(w) + post)) == Fail(ValueError)
  {
    var t := "(" + (TextOf(w) + post);
    assert t[0] == '(' && t[1..] == TextOf(w) + post;
    EndsReads(w, post);
    SkipTwice(post);
  }

  /** What an assertion on the closing character raises. */
  function NotClosed(post: string): Parsed {
    Fail(if SkipBlanks(post) == [] then IndexError else AssertionError)
  }

  lemma {:induction false} CallNotClosed(f: Builtin, name: string, gap: string, w: Writing, post: string)
    requires CallName(f, name) && CallGap(f, gap) && Right(w) && Ends(post)
    requires SkipBlanks(post) != [] ==> SkipBlanks(post)[0] != ')'
    ensures ParseUnary(name + (gap + ("(" + (TextOf(w) + post)))) == NotClosed(post)
  {
    CallReads(f, name, gap, TextOf(w) + post);
    EndsReads(w, post);
    SkipTwice(post);
  }

  lemma {:induction false} IndexNotClosed(name: string, gap: string, w: Writing, post: string)
    requires IsName(name) && Blank(gap) && Right(w) && Ends(post)
    requires var u := SkipBlanks(post); u != [] ==> u[0] != ']' && u[0] != '.'
    ensures ParseUnary(name + (gap + ("[" + (TextOf(w) + post)))) == NotClosed(post)
  {
    var s := TextOf(w) + post;
    BracketReads(name, gap, s);
    TextStarts(w, post);
    SkippedSame(s, 0);
    EndsReads(w, post);
    SkipTwice(post);
    assert |SkipBlanks(post)| >= 2 ==> SkipBlanks(post)[..2][0] == SkipBlanks(post)[0];
  }

  lemma {:induction false} DollarNotFollowed(name: string, gap: string, post: string)
    requires CallName(Chr, name) && Blank(gap) && (SkipBlanks(post) != [] ==> SkipBlanks(post)[0] != '(')
    ensures ParseUnary(name + (gap + (['$'] + post))) == NotClosed(post)
  {
    var q := ['$'] + post;
    assert q[0] == '$' && q[1..] == post && SkipBlanks(q) == q;
    GapNotIdent(gap, q);
    SkipGap(gap, q);
    NameReads(name, gap + q);
  }
}
