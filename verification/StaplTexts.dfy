/** What texts with two operators mean, by the table of precedence levels. */
module StaplTexts {
  import opened StaplExpr
  import opened StaplGrammar
  import opened StaplRoundTrip

  /** The levels of the language, from the loosest binding on (Table 10 of JESD71). */
  function Levels(): seq<seq<string>> {
    [["||"], ["&&"], ["|"], ["^"], ["&"], ["==", "!="], ["<", "<=", ">", ">="], ["<<", ">>"], ["+", "-"], ["*", "/", "%"]]
  }

  /** Every operator is written as one of the symbols of its level, and of no other. */
  lemma {:induction false} LevelOf(op: Binary, i: nat)
    requires i < |Levels()|
    ensures Symbol(op) in Levels()[i] <==> Prec(op) == i + 1
  {
    match op
    case _ =>
  }

  /** Two operators between names: the tighter one takes its operands first, and of
      two on one level the one on the left. */
  lemma {:induction false} TwoOperators(a: string, b: string, c: string, x: Binary, y: Binary, i: nat, j: nat)
    requires IsName(a) && IsName(b) && IsName(c)
    requires i < |Levels()| && j < |Levels()| && Symbol(x) in Levels()[i] && Symbol(y) in Levels()[j]
    ensures ParseText(a + " " + Symbol(x) + " " + b + " " + Symbol(y) + " " + c) == Ok(
      if i < j then BinOp(x, VarRef(a), BinOp(y, VarRef(b), VarRef(c)))
      else BinOp(y, BinOp(x, VarRef(a), VarRef(b)), VarRef(c)), "")
  {
    LevelOf(x, i);
    LevelOf(y, j);
    var text := a + " " + Symbol(x) + " " + b + " " + Symbol(y) + " " + c;
    if i < j {
      RightFirst(a, b, c, x, y, text);
    } else {
      LeftFirst(a, b, c, x, y, text);
    }
  }

  lemma {:induction false} RightFirst(a: string, b: string, c: string, x: Binary, y: Binary, text: string)
    requires IsName(a) && IsName(b) && IsName(c) && Prec(x) < Prec(y)
    requires text == a + " " + Symbol(x) + " " + b + " " + Symbol(y) + " " + c
    ensures ParseText(text) == Ok(BinOp(x, VarRef(a), BinOp(y, VarRef(b), VarRef(c))), "")
  {
    var right := BinOp(y, VarRef(b), VarRef(c));
    ShowBinary(y, VarRef(b), VarRef(c), Prec(x) + 1);
    ShowBinary(x, VarRef(a), right, 0);
    Spaced(a, Symbol(x), b, Symbol(y), c);
    ShowRoundTrip(BinOp(x, VarRef(a), right), Plain());
  }

  lemma {:induction false} LeftFirst(a: string, b: string, c: string, x: Binary, y: Binary, text: string)
    requires IsName(a) && IsName(b) && IsName(c) && Prec(y) <= Prec(x)
    requires text == a + " " + Symbol(x) + " " + b + " " + Symbol(y) + " " + c
    ensures ParseText(text) == Ok(BinOp(y, BinOp(x, VarRef(a), VarRef(b)), VarRef(c)), "")
  {
    var left := BinOp(x, VarRef(a), VarRef(b));
    ShowBinary(x, VarRef(a), VarRef(b), Prec(y));
    ShowBinary(y, left, VarRef(c), 0);
    Spaced(a, Symbol(x), b, Symbol(y), c);
    ShowRoundTrip(BinOp(y, left, VarRef(c)), Plain());
  }

  /** A prefix operator takes what follows it before any other does. */
  lemma {:induction false} PrefixFirst(u: Unary, a: string, b: string, x: Binary)
    requires IsName(a) && IsName(b)
    ensures ParseText([Mark(u)] + a + " " + Symbol(x) + " " + b) == Ok(BinOp(x, UnaryOp(u, VarRef(a)), VarRef(b)), "")
  {
    var left := UnaryOp(u, VarRef(a));
    assert Show(left, Prec(x), Plain()) == [Mark(u)] + a;
    ShowBinary(x, left, VarRef(b), 0);
    Spaced([Mark(u)] + a, Symbol(x), b, "", "");
    ShowRoundTrip(BinOp(x, left, VarRef(b)), Plain());
  }

  /** No parentheses but those that are needed. */
  function Plain(): Expr -> bool { _ => false }

  lemma {:induction false} ShowBinary(op: Binary, l: Expr, r: Expr, ctx: nat)
    requires ctx <= Prec(op)
    ensures Show(BinOp(op, l, r), ctx, Plain())
         == Show(l, Prec(op), Plain()) + (" " + Symbol(op) + " ") + Show(r, Prec(op) + 1, Plain())
  {}

  lemma {:induction false} Spaced(a: string, s: string, b: string, t: string, c: string)
    ensures a + (" " + s + " ") + b == a + " " + s + " " + b
    ensures a + (" " + s + " ") + (b + (" " + t + " ") + c) == a + " " + s + " " + b + " " + t + " " + c
    ensures (a + (" " + s + " ") + b) + (" " + t + " ") + c == a + " " + s + " " + b + " " + t + " " + c
  {}

  // ----- Numbers --------------------------------------------------------------------------------

  function Ten(n: nat): nat { if n == 0 then 1 else 10 * Ten(n - 1) }

  predicate Digits(s: string) { forall i :: 0 <= i < |s| ==> IsDigit(s[i]) }

  /** Digits weigh ten times what those to their right do. */
  lemma {:induction false} NumberOfDigits(a: string, b: string)
    requires Digits(a) && Digits(b)
    ensures Digits(a + b) && NumberOf(a + b) == NumberOf(a) * Ten(|b|) + NumberOf(b)
    decreases |b|
  {
    if b == [] {
      assert a + b == a;
    } else {
      var n := |b| - 1;
      NumberOfDigits(a, b[..n]);
      assert (a + b)[..|a + b| - 1] == a + b[..n] && (a + b)[|a + b| - 1] == b[n];
      LastDigit(b);
      LastDigit(a + b);
      TenTimes(NumberOf(a), Ten(n), NumberOf(b[..n]), b[n] as int - '0' as int);
    }
  }

  lemma {:induction false} LastDigit(s: string)
    requires s != [] && Digits(s)
    ensures NumberOf(s) == NumberOf(s[..|s| - 1]) * 10 + (s[|s| - 1] as int - '0' as int)
  {
    assert IsDigit(s[|s| - 1]);
  }

  lemma {:induction false} TenTimes(a: nat, t: nat, b: nat, d: int)
    ensures (a * t + b) * 10 + d == a * (10 * t) + (b * 10 + d)
  {}

  lemma {:induction false} OneDigit(n: nat)
    requires n < 10
    ensures NumberOf([['0', '1', '2', '3', '4', '5', '6', '7', '8', '9'][n]]) == n
  {
    var d := ['0', '1', '2', '3', '4', '5', '6', '7', '8', '9'][n];
    assert [d][..0] == [] && d as int - '0' as int == n;
  }

  // ----- Characters -----------------------------------------------------------------------------

  /** Characters in a row, from `first` on. */
  predicate Row(s: string, first: char) { forall i :: 0 <= i < |s| ==> s[i] as int == first as int + i }

  lemma {:induction false} InRow(s: string, first: char, c: char)
    requires Row(s, first)
    ensures c in s <==> 0 <= c as int - first as int < |s|
  {
    if 0 <= c as int - first as int < |s| { assert s[c as int - first as int] == c; }
  }

  lemma {:induction false} Digits10(c: char)
    ensures IsDigit(c) <==> c in "0123456789"
  {
    assert Row("0123456789", '0');
    InRow("0123456789", '0', c);
  }

  lemma {:induction false} Letters(c: char)
    ensures IsAlpha(c) <==> c in "abcdefghijklmnopqrstuvwxyz" || c in "ABCDEFGHIJKLMNOPQRSTUVWXYZ"
  {
    assert Row("abcdefghijklmnopqrstuvwxyz", 'a') && Row("ABCDEFGHIJKLMNOPQRSTUVWXYZ", 'A');
    InRow("abcdefghijklmnopqrstuvwxyz", 'a', c);
    InRow("ABCDEFGHIJKLMNOPQRSTUVWXYZ", 'A', c);
  }

  /** Names are made of letters, digits and underscores; spaces and tabs are skipped. */
  lemma {:induction false} Characters(c: char)
    ensures IsIdent(c) <==>
      c in "0123456789" || c in "abcdefghijklmnopqrstuvwxyz" || c in "ABCDEFGHIJKLMNOPQRSTUVWXYZ" || c == '_'
    ensures IsBlank(c) <==> c == ' ' || c == '\t'
  {
    Digits10(c);
    Letters(c);
  }
}
