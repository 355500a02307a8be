/** The expression parser as it works: a position moving over the text. */
module StaplParser {
  import opened Wrappers
  import opened StaplExpr
  import opened StaplGrammar
  import opened StaplRoundTrip

  datatype Result = Good(value: Expr) | Bad(error: Error)

  /** A result and a position agree with what the grammar says. */
  predicate Agrees(r: Result, rest: string, p: Parsed) {
    if p.Ok? then r == Good(p.value) && rest == p.rest else r == Bad(p.error)
  }

  lemma {:induction false} SymbolsNonempty(op: Binary)
    ensures |Symbol(op)| > 0
  {}

  class Parser {
    const text: string
    var pos: nat

    predicate Valid()
      reads this
    {
      pos <= |text|
    }

    function Rest(): string
      requires Valid()
      reads this
    {
      text[pos..]
    }

    constructor (text: string)
      ensures Valid() && this.text == text && Rest() == text
    {
      this.text := text;
      pos := 0;
    }

    method SkipWs()
      requires Valid()
      modifies `pos
      ensures Valid() && pos >= old(pos) && Rest() == SkipBlanks(old(Rest()))
    {
      while pos < |text| && IsBlank(text[pos])
        invariant Valid() && pos >= old(pos) && SkipBlanks(Rest()) == SkipBlanks(old(Rest()))
        decreases |text| - pos
      {
        assert Rest()[0] == text[pos] && Rest()[1..] == text[pos + 1..];
        pos := pos + 1;
      }
      assert pos < |text| ==> Rest()[0] == text[pos];
    }

    /** Moves on by `n` characters. */
    method Advance(n: nat)
      requires Valid() && n <= |Rest()|
      modifies `pos
      ensures Valid() && pos == old(pos) + n && Rest() == old(Rest())[n..]
    {
      pos := pos + n;
    }

    /** Moves over the characters of a class. */
    method Scan(p: char -> bool) returns (s: string)
      requires Valid()
      modifies `pos
      ensures Valid() && pos >= old(pos)
      ensures var n := Span(old(Rest()), p); s == old(Rest())[..n] && Rest() == old(Rest())[n..]
    {
      var start := pos;
      while pos < |text| && p(text[pos])
        invariant start <= pos <= |text|
        invariant Span(old(Rest()), p) == pos - start + Span(Rest(), p)
        decreases |text| - pos
      {
        assert Rest()[0] == text[pos] && Rest()[1..] == text[pos + 1..];
        pos := pos + 1;
      }
      assert pos < |text| ==> Rest()[0] == text[pos];
      s := text[start..pos];
    }

    method ParseExpression(min: nat) returns (r: Result)
      requires Valid()
      modifies `pos
      ensures Valid() && pos >= old(pos) && Agrees(r, Rest(), ParseExpr(old(Rest()), min))
      decreases |text| - pos, 4
    {
      r := ParseUnaryExpression();
      if r.Good? {
        r := ParseOperators(r.value, min);
      }
    }

    /** Operators and right operands, as long as they bind at least as `min`. */
    method ParseOperators(first: Expr, min: nat) returns (r: Result)
      requires Valid()
      modifies `pos
      ensures Valid() && pos >= old(pos) && Agrees(r, Rest(), Climb(old(Rest()), first, min))
      decreases |text| - pos, 5
    {
      ghost var all := Climb(Rest(), first, min);
      r := Good(first);
      while true
        invariant Valid() && pos >= old(pos) && r.Good? && Climb(Rest(), r.value, min) == all
        decreases |text| - pos
      {
        var more;
        r, more := ParseOperator(r.value, min);
        if !more {
          return;
        }
      }
    }

    /** One operator and its right operand, if there is one to take. */
    method ParseOperator(left: Expr, min: nat) returns (r: Result, more: bool)
      requires Valid()
      modifies `pos
      ensures Valid() && pos >= old(pos)
      ensures more ==> r.Good? && pos > old(pos) && Climb(old(Rest()), left, min) == Climb(Rest(), r.value, min)
      ensures !more ==> Agrees(r, Rest(), Climb(old(Rest()), left, min))
      decreases |text| - pos, 4
    {
      ghost var here := Rest();
      var op := FindOperator(left, min);
      if op.None? {
        return Good(left), false;
      }
      r, more := ParseRight(op.value, left, here, min);
    }

    /** The next operator, if it binds at least as `min`. */
    method FindOperator(ghost left: Expr, min: nat) returns (op: Option<Binary>)
      requires Valid()
      modifies `pos
      ensures Valid() && pos >= old(pos)
      ensures op.None? ==> Climb(old(Rest()), left, min) == Ok(left, Rest())
      ensures op.Some? ==>
        |Symbol(op.value)| <= |Rest()| && GoesOn(old(Rest()), Rest()[|Symbol(op.value)|..], op.value, left, min)
    {
      ghost var here := Rest();
      SkipWs();
      op := PeekOperator(Rest());
      if op.None? || Prec(op.value) < min {
        ClimbStops(here, left, min);
        return None;
      }
      ClimbGoesOn(here, Rest()[|Symbol(op.value)|..], op.value, left, min);
    }

    /** An operator that is there, and its right operand. */
    method ParseRight(op: Binary, left: Expr, ghost here: string, ghost min: nat) returns (r: Result, more: bool)
      requires Valid() && |Symbol(op)| <= |Rest()| && GoesOn(here, Rest()[|Symbol(op)|..], op, left, min)
      modifies `pos
      ensures Valid() && pos > old(pos)
      ensures more ==> r.Good? && Climb(here, left, min) == Climb(Rest(), r.value, min)
      ensures !more ==> Agrees(r, Rest(), Climb(here, left, min))
      decreases |text| - pos, 0
    {
      SymbolsNonempty(op);
      Advance(|Symbol(op)|);
      r := ParseExpression(Prec(op) + 1);
      more := r.Good?;
      if more {
        r := Good(BinOp(op, left, r.value));
      }
    }

    method ParseUnaryExpression() returns (r: Result)
      requires Valid()
      modifies `pos
      ensures Valid() && pos >= old(pos) && Agrees(r, Rest(), ParseUnary(old(Rest())))
      ensures r.Good? ==> pos > old(pos)
      decreases |text| - pos, 3
    {
      SkipWs();
      if pos >= |text| {
        return Bad(ValueError);
      }
      var ch := text[pos];
      ghost var t := Rest();
      assert t[0] == ch && t[1..] == text[pos + 1..];
      assert pos + 1 < |text| ==> t[1] == text[pos + 1];
      if ch == '~' || (ch == '!' && !(pos + 1 < |text| && text[pos + 1] == '=')) || ch == '-' {
        pos := pos + 1;
        r := ParseUnaryExpression();
        if r.Good? {
          r := Good(UnaryOp(if ch == '~' then Inv else if ch == '!' then Not else Neg, r.value));
        }
        return;
      }
      r := ParsePrimaryExpression();
    }

    method ParsePrimaryExpression() returns (r: Result)
      requires Valid() && pos < |text| && !IsBlank(text[pos])
      modifies `pos
      ensures Valid() && pos >= old(pos) && Agrees(r, Rest(), ParsePrimary(old(Rest())))
      ensures r.Good? ==> pos > old(pos)
      decreases |text| - pos, 2
    {
      var ch := text[pos];
      ghost var t := Rest();
      assert t[0] == ch && t[1..] == text[pos + 1..];
      if ch == '(' {
        pos := pos + 1;
        r := ParseExpression(0);
        if r.Bad? {
          return;
        }
        SkipWs();
        if pos < |text| && text[pos] == ')' {
          Advance(1);
        } else {
          r := Bad(ValueError);
        }
      } else if IsDigit(ch) {
        var s := Scan(IsDigit);
        r := Good(IntLiteral(NumberOf(s)));
      } else if ch == '#' || ch == '$' || ch == '@' {
        r := Bad(LiteralNotModelled);
      } else if IsAlpha(ch) || ch == '_' {
        r := ParseIdentifierExpression();
      } else {
        r := Bad(ValueError);
      }
    }

    /** Asserts the closing character and moves past it. */
    method Close(e: Expr, c: char) returns (r: Result)
      requires Valid()
      modifies `pos
      ensures Valid() && pos >= old(pos) && Agrees(r, Rest(), Closing(e, old(Rest()), c))
      ensures r.Good? ==> pos > old(pos)
    {
      SkipWs();
      if pos >= |text| {
        return Bad(IndexError);
      }
      assert Rest()[0] == text[pos];
      if text[pos] != c {
        return Bad(AssertionError);
      }
      Advance(1);
      r := Good(e);
    }

    method ParseIdentifierExpression() returns (r: Result)
      requires Valid() && pos < |text| && IsIdent(text[pos]) && !IsDigit(text[pos])
      modifies `pos
      ensures Valid() && pos >= old(pos) && Agrees(r, Rest(), ParseIdentifier(old(Rest())))
      ensures r.Good? ==> pos > old(pos)
      decreases |text| - pos, 1
    {
      assert Rest()[0] == text[pos];
      var name := Scan(IsIdent);
      SkipWs();
      r := FinishName(name);
    }

    method FinishName(name: string) returns (r: Result)
      requires Valid() && (pos < |text| ==> !IsBlank(text[pos]))
      modifies `pos
      ensures Valid() && pos >= old(pos) && Agrees(r, Rest(), AfterName(name, old(Rest())))
      decreases |text| - pos, 6
    {
      ghost var u := Rest();
      assert pos < |text| ==> u[0] == text[pos] && u[1..] == text[pos + 1..];
      var f := BuiltinOf(Upper(name));
      if f.Some? && pos < |text| && text[pos] == '(' {
        pos := pos + 1;
        r := Call(f.value);
      } else if Upper(name) == "CHR" && pos < |text| && text[pos] == '$' {
        pos := pos + 1;
        SkipWs();
        if pos >= |text| {
          return Bad(IndexError);
        }
        assert Rest()[0] == text[pos];
        if text[pos] != '(' {
          return Bad(AssertionError);
        }
        Advance(1);
        r := Call(Chr);
      } else if pos < |text| && text[pos] == '[' {
        pos := pos + 1;
        SkipWs();
        r := Index(name);
      } else {
        r := Good(VarRef(name));
      }
    }

    method Call(f: Builtin) returns (r: Result)
      requires Valid()
      modifies `pos
      ensures Valid() && pos >= old(pos) && Agrees(r, Rest(), CallOf(f, old(Rest())))
      decreases |text| - pos, 5
    {
      r := ParseExpression(0);
      if r.Good? {
        r := Close(FuncCall(f, r.value), ')');
      }
    }

    method Index(name: string) returns (r: Result)
      requires Valid()
      modifies `pos
      ensures Valid() && pos >= old(pos) && Agrees(r, Rest(), IndexOf(name, old(Rest())))
      decreases |text| - pos, 5
    {
      assert pos < |text| ==> Rest()[0] == text[pos];
      if pos < |text| && text[pos] == ']' {
        Advance(1);
        return Good(ArrayWhole(name));
      }
      r := ParseExpression(0);
      if r.Bad? {
        return;
      }
      SkipWs();
      if pos + 1 < |text| && text[pos..pos + 2] == ".." {
        assert Rest()[..2] == text[pos..pos + 2];
        var first := r.value;
        Advance(2);
        r := ParseExpression(0);
        if r.Good? {
          r := Close(ArraySubrange(name, first, r.value), ']');
        }
        return;
      }
      assert |Rest()| >= 2 ==> Rest()[..2] == text[pos..pos + 2];
      r := Close(ArrayIndex(name, r.value), ']');
    }
  }

  /** `parse_expr` */
  method ParseTextFully(text: string) returns (r: Result)
    ensures if ParseText(text).Ok? then r == Good(ParseText(text).value) else r == Bad(ParseText(text).error)
    ensures forall e, wrap: Expr -> bool :: Named(e) && text == Show(e, 0, wrap) ==> r == Good(e)
  {
    var stripped := Stripped(text);
    forall e, wrap: Expr -> bool | Named(e) && text == Show(e, 0, wrap)
      ensures ParseText(text) == Ok(e, "")
    {
      ShowRoundTrip(e, wrap);
    }
    if stripped == [] {
      return Bad(ValueError);
    }
    var p := new Parser(stripped);
    r := p.ParseExpression(0);
  }
}
