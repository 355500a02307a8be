/** The CRC engine of the repository, with its two bit orders, and what its
    operations compute in terms of the register arithmetic. Integers of the
    source are bit sequences here, least significant bit first. */
module Crc {
  import opened BitSequences
  import opened Gf2

  /** A CRC: its polynomial and initial state in one of two bit orders
      (`order0AtLsb`: coefficient of x^0 lowest), the bit of each byte that is fed
      first, what is complemented on the way in and in the state, and how the
      state is spilled to bytes. */
  datatype Params = Params(order: nat, poly: Bits, init: Bits, popLsb: bool, order0AtLsb: bool,
                           complementInput: bool, complementState: bool,
                           spillBitswap: bool, spillLittle: bool)

  /** What the constructor establishes, for order two and up. */
  predicate Valid(c: Params) {
    && c.order >= 2 && |c.poly| == c.order + 1 && c.poly[0] && c.poly[c.order]
    && |c.init| == c.order
  }

  predicate IsState(c: Params, s: Bits) { |s| == c.order }

  // ----- Single steps ----------------------------------------------------------

  function Forward(c: Params, s: Bits, bit: bool): (r: Bits)
    requires Valid(c) && IsState(c, s)
    ensures IsState(c, r)
  {
    if c.order0AtLsb then
      var wide := ([false] + s)[c.order := s[c.order - 1] != bit];
      (if wide[c.order] then Xor(wide, c.poly) else wide)[..c.order]
    else
      var t := s[0 := s[0] != bit] + [false];
      (if t[0] then Xor(t, c.poly) else t)[1..]
  }

  function Backward(c: Params, s: Bits, bit: bool): (r: Bits)
    requires Valid(c) && IsState(c, s)
    ensures IsState(c, r)
  {
    if c.order0AtLsb then
      var t := s + [false];
      var u := if t[0] then Xor(t, c.poly) else t;
      u[c.order := u[c.order] != bit][1..]
    else
      var wide := [false] + s;
      var u := (if wide[c.order] then Xor(wide, c.poly) else wide)[..c.order];
      u[0 := u[0] != bit]
  }

  /** The state with the coefficient of x^i at index i, whatever the bit order. */
  function Norm(c: Params, s: Bits): (r: Bits)
    ensures |r| == |s|
  {
    if c.order0AtLsb then s else Rev(s)
  }

  function LowPoly(c: Params): (lp: Bits)
    requires Valid(c)
    ensures |lp| == c.order && lp[0]
  {
    Norm(c, c.poly)[..c.order]
  }

  lemma {:induction false} NormTwice(c: Params, s: Bits)
    ensures Norm(c, Norm(c, s)) == s
  {}

  lemma {:induction false} NormXor(c: Params, a: Bits, b: Bits)
    requires |a| == |b|
    ensures Norm(c, Xor(a, b)) == Xor(Norm(c, a), Norm(c, b))
  {}

  lemma {:induction false} NormInjective(c: Params, a: Bits, b: Bits)
    ensures Norm(c, a) == Norm(c, b) <==> a == b
  {
    NormTwice(c, a);
    NormTwice(c, b);
  }

  /** One bit of a forward step, order 0 at the bottom and at the top. */
  predicate IsForwardAt(c: Params, s: Bits, bit: bool, f: Bits, i: nat)
    requires Valid(c) && IsState(c, s) && IsState(c, f) && i < c.order
  {
    var n := c.order;
    if c.order0AtLsb then f[i] == ((i > 0 && s[i - 1]) != ((s[n - 1] != bit) && c.poly[i]))
    else f[n - 1 - i] == ((i > 0 && s[n - i]) != ((s[0] != bit) && c.poly[n - i]))
  }

  predicate IsBackwardAt(c: Params, s: Bits, bit: bool, f: Bits, i: nat)
    requires Valid(c) && IsState(c, s) && IsState(c, f) && i < c.order
  {
    var n := c.order;
    if c.order0AtLsb then
      f[i] == if i + 1 < n then s[i + 1] != (s[0] && c.poly[i + 1]) else s[0] != bit
    else
      f[n - 1 - i] == if i + 1 < n then s[n - 2 - i] != (s[n - 1] && c.poly[n - 1 - i]) else s[n - 1] != bit
  }

  lemma {:induction false} ForwardAt(c: Params, s: Bits, bit: bool, i: nat)
    requires Valid(c) && IsState(c, s) && i < c.order
    ensures IsForwardAt(c, s, bit, Forward(c, s, bit), i)
  {}

  lemma {:induction false} BackwardAt(c: Params, s: Bits, bit: bool, i: nat)
    requires Valid(c) && IsState(c, s) && i < c.order
    ensures IsBackwardAt(c, s, bit, Backward(c, s, bit), i)
  {
    BackwardAtLow(c, s, bit, i, Backward(c, s, bit));
    BackwardAtHigh(c, s, bit, i, Backward(c, s, bit));
  }

  lemma {:induction false} BackwardAtLow(c: Params, s: Bits, bit: bool, i: nat, f: Bits)
    requires Valid(c) && IsState(c, s) && i < c.order && f == Backward(c, s, bit)
    ensures c.order0AtLsb ==> IsBackwardAt(c, s, bit, f, i)
  {}

  lemma {:induction false} BackwardAtHigh(c: Params, s: Bits, bit: bool, i: nat, f: Bits)
    requires Valid(c) && IsState(c, s) && i < c.order && f == Backward(c, s, bit)
    ensures !c.order0AtLsb ==> IsBackwardAt(c, s, bit, f, i)
  {}

  lemma {:induction false} FeedAt(lp: Bits, s: Bits, bit: bool, i: nat)
    requires |s| == |lp| > i
    ensures Feed(lp, s, bit)[i] == ((i > 0 && s[i - 1]) != ((s[|s| - 1] != bit) && lp[i]))
    ensures Unfeed(lp, s, bit)[i] == if i + 1 < |s| then s[i + 1] != (s[0] && lp[i + 1]) else s[0] != bit
  {}

  lemma {:induction false} NormAt(c: Params, s: Bits, i: nat)
    requires i < |s|
    ensures Norm(c, s)[i] == if c.order0AtLsb then s[i] else s[|s| - 1 - i]
  {}

  lemma {:induction false} LowPolyAt(c: Params, i: nat)
    requires Valid(c) && i < c.order
    ensures LowPoly(c)[i] == if c.order0AtLsb then c.poly[i] else c.poly[c.order - i]
  {}

  lemma {:induction false} ForwardIsFeedAt(c: Params, s: Bits, f: Bits, bit: bool, i: nat)
    requires Valid(c) && IsState(c, s) && IsState(c, f) && i < c.order && IsForwardAt(c, s, bit, f, i)
    ensures Norm(c, f)[i] == Feed(LowPoly(c), Norm(c, s), bit)[i]
  {
    NormAt(c, s, c.order - 1);
    LowPolyAt(c, i);
    if i > 0 {
      NormAt(c, s, i - 1);
    }
    FedAt(c, Norm(c, s), LowPoly(c), s, f, bit, i);
    FeedAt(LowPoly(c), Norm(c, s), bit, i);
    NormAt(c, f, i);
  }

  lemma {:induction false} FedAt(c: Params, t: Bits, lp: Bits, s: Bits, f: Bits, bit: bool, i: nat)
    requires Valid(c) && IsState(c, s) && IsState(c, f) && i < c.order && IsForwardAt(c, s, bit, f, i)
    requires |t| == |lp| == c.order && t[|t| - 1] == if c.order0AtLsb then s[|s| - 1] else s[0]
    requires i > 0 ==> t[i - 1] == if c.order0AtLsb then s[i - 1] else s[|s| - i]
    requires lp[i] == if c.order0AtLsb then c.poly[i] else c.poly[c.order - i]
    ensures (if c.order0AtLsb then f[i] else f[|f| - 1 - i]) == ((i > 0 && t[i - 1]) != ((t[|t| - 1] != bit) && lp[i]))
  {}

  lemma {:induction false} BackwardIsUnfeedAt(c: Params, s: Bits, f: Bits, bit: bool, i: nat)
    requires Valid(c) && IsState(c, s) && IsState(c, f) && i < c.order && IsBackwardAt(c, s, bit, f, i)
    ensures Norm(c, f)[i] == Unfeed(LowPoly(c), Norm(c, s), bit)[i]
  {
    NormAt(c, s, 0);
    if i + 1 < c.order {
      NormAt(c, s, i + 1);
      LowPolyAt(c, i + 1);
    }
    UnfedAt(c, Norm(c, s), LowPoly(c), s, f, bit, i);
    FeedAt(LowPoly(c), Norm(c, s), bit, i);
    NormAt(c, f, i);
  }

  lemma {:induction false} UnfedAt(c: Params, t: Bits, lp: Bits, s: Bits, f: Bits, bit: bool, i: nat)
    requires Valid(c) && IsState(c, s) && IsState(c, f) && i < c.order && IsBackwardAt(c, s, bit, f, i)
    requires |t| == |lp| == c.order && t[0] == if c.order0AtLsb then s[0] else s[|s| - 1]
    requires i + 1 < c.order ==> t[i + 1] == if c.order0AtLsb then s[i + 1] else s[|s| - 2 - i]
    requires i + 1 < c.order ==> lp[i + 1] == if c.order0AtLsb then c.poly[i + 1] else c.poly[c.order - 1 - i]
    ensures (if c.order0AtLsb then f[i] else f[|f| - 1 - i]) == if i + 1 < |t| then t[i + 1] != (t[0] && lp[i + 1]) else t[0] != bit
  {}

  /** Both bit orders run the same register. */
  lemma {:induction false} ForwardIsFeed(c: Params, s: Bits, bit: bool)
    requires Valid(c) && IsState(c, s)
    ensures Norm(c, Forward(c, s, bit)) == Feed(LowPoly(c), Norm(c, s), bit)
  {
    var f, t, lp := Forward(c, s, bit), Norm(c, s), LowPoly(c);
    forall i | 0 <= i < c.order
      ensures Norm(c, f)[i] == Feed(lp, t, bit)[i]
    {
      ForwardAt(c, s, bit, i);
      ForwardIsFeedAt(c, s, f, bit, i);
    }
  }

  lemma {:induction false} BackwardIsUnfeed(c: Params, s: Bits, bit: bool)
    requires Valid(c) && IsState(c, s)
    ensures Norm(c, Backward(c, s, bit)) == Unfeed(LowPoly(c), Norm(c, s), bit)
  {
    var f, t, lp := Backward(c, s, bit), Norm(c, s), LowPoly(c);
    forall i | 0 <= i < c.order
      ensures Norm(c, f)[i] == Unfeed(lp, t, bit)[i]
    {
      BackwardAt(c, s, bit, i);
      BackwardIsUnfeedAt(c, s, f, bit, i);
    }
  }

  /** A backward step undoes a forward step and the other way round. */
  lemma {:induction false} StepsInvert(c: Params, s: Bits, bit: bool)
    requires Valid(c) && IsState(c, s)
    ensures Backward(c, Forward(c, s, bit), bit) == s
    ensures Forward(c, Backward(c, s, bit), bit) == s
  {
    ForwardIsFeed(c, s, bit);
    BackwardIsUnfeed(c, Forward(c, s, bit), bit);
    BackwardIsUnfeed(c, s, bit);
    ForwardIsFeed(c, Backward(c, s, bit), bit);
    UnfeedFeed(LowPoly(c), Norm(c, s), bit);
    NormInjective(c, Backward(c, Forward(c, s, bit), bit), s);
    NormInjective(c, Forward(c, Backward(c, s, bit), bit), s);
  }

  // ----- Runs of bits -------------------------------------------------------------

  function ForwardBits(c: Params, s: Bits, bits: Bits): (r: Bits)
    requires Valid(c) && IsState(c, s)
    ensures IsState(c, r)
    decreases |bits|
  {
    if bits == [] then s else ForwardBits(c, Forward(c, s, bits[0]), bits[1..])
  }

  function BackwardBits(c: Params, s: Bits, bits: Bits): (r: Bits)
    requires Valid(c) && IsState(c, s)
    ensures IsState(c, r)
    decreases |bits|
  {
    if bits == [] then s else BackwardBits(c, Backward(c, s, bits[0]), bits[1..])
  }

  lemma {:induction false} ForwardBitsIsFeedAll(c: Params, s: Bits, bits: Bits)
    requires Valid(c) && IsState(c, s)
    ensures Norm(c, ForwardBits(c, s, bits)) == FeedAll(LowPoly(c), Norm(c, s), bits)
    decreases |bits|
  {
    if bits != [] {
      ForwardIsFeed(c, s, bits[0]);
      ForwardBitsIsFeedAll(c, Forward(c, s, bits[0]), bits[1..]);
    }
  }

  lemma {:induction false} ForwardBitsConcat(c: Params, s: Bits, a: Bits, b: Bits)
    requires Valid(c) && IsState(c, s)
    ensures ForwardBits(c, s, a + b) == ForwardBits(c, ForwardBits(c, s, a), b)
    decreases |a|
  {
    if a == [] {
      assert a + b == b;
    } else {
      assert (a + b)[0] == a[0] && (a + b)[1..] == a[1..] + b;
      ForwardBitsConcat(c, Forward(c, s, a[0]), a[1..], b);
    }
  }

  /** One run after another, by way of the state `w`. */
  lemma {:induction false} Then(c: Params, s: Bits, a: Bits, b: Bits, ab: Bits, w: Bits)
    requires Valid(c) && IsState(c, s) && ab == a + b && w == ForwardBits(c, s, a)
    ensures ForwardBits(c, s, ab) == ForwardBits(c, w, b)
  {
    ForwardBitsConcat(c, s, a, b);
  }

  lemma {:induction false} BackwardBitsConcat(c: Params, s: Bits, a: Bits, b: Bits)
    requires Valid(c) && IsState(c, s)
    ensures BackwardBits(c, s, a + b) == BackwardBits(c, BackwardBits(c, s, a), b)
    decreases |a|
  {
    if a == [] {
      assert a + b == b;
    } else {
      assert (a + b)[0] == a[0] && (a + b)[1..] == a[1..] + b;
      BackwardBitsConcat(c, Backward(c, s, a[0]), a[1..], b);
    }
  }

  /** Running the reversed bits backward undoes the run. */
  lemma {:induction false} RunsInvert(c: Params, s: Bits, bits: Bits)
    requires Valid(c) && IsState(c, s)
    ensures BackwardBits(c, ForwardBits(c, s, bits), Rev(bits)) == s
    ensures ForwardBits(c, BackwardBits(c, s, Rev(bits)), bits) == s
    decreases |bits|
  {
    if bits == [] {
      assert Rev(bits) == [];
    } else {
      var first, rest := bits[0], bits[1..];
      assert Rev(bits) == Rev(rest) + [first];
      RunsInvert(c, Forward(c, s, first), rest);
      StepsInvert(c, s, first);
      BackwardBitsConcat(c, ForwardBits(c, s, bits), Rev(rest), [first]);
      Backward1(c, Forward(c, s, first), first);
      var m := BackwardBits(c, s, Rev(rest));
      BackwardBitsConcat(c, s, Rev(rest), [first]);
      Backward1(c, m, first);
      StepsInvert(c, m, first);
      RunsInvert(c, s, rest);
    }
  }

  lemma {:induction false} Backward1(c: Params, s: Bits, bit: bool)
    requires Valid(c) && IsState(c, s)
    ensures BackwardBits(c, s, [bit]) == Backward(c, s, bit)
  {
    assert [bit][1..] == [];
  }

  // ----- Multiplication and seeking --------------------------------------------------

  /** The loop of `_gfmul` over the bits of its second operand. */
  function MulBits(c: Params, a: Bits, bits: Bits): (r: Bits)
    requires Valid(c) && IsState(c, a)
    ensures IsState(c, r)
    decreases |bits|
  {
    if bits == [] then Zeros(c.order)
    else Xor(Scale(bits[0], a), MulBits(c, Forward(c, a, false), bits[1..]))
  }

  /** `bits_iterate`: the bits of a word, least or most significant first. */
  function Iterate(word: Bits, popLsb: bool): Bits { if popLsb then word else Rev(word) }

  function Mul(c: Params, a: Bits, b: Bits): (r: Bits)
    requires Valid(c) && IsState(c, a) && IsState(c, b)
    ensures IsState(c, r)
  {
    MulBits(c, a, Iterate(b, c.order0AtLsb))
  }

  lemma {:induction false} MulBitsIsComb(c: Params, a: Bits, bits: Bits)
    requires Valid(c) && IsState(c, a)
    ensures Norm(c, MulBits(c, a, bits)) == Comb(LowPoly(c), bits, Norm(c, a))
    decreases |bits|
  {
    var lp, z := LowPoly(c), Zeros(c.order);
    assert Norm(c, z) == z;
    if bits != [] {
      ForwardIsFeed(c, a, false);
      assert Feed(lp, Norm(c, a), false) == Times2(lp, Norm(c, a));
      MulBitsIsComb(c, Forward(c, a, false), bits[1..]);
      assert Norm(c, Scale(bits[0], a)) == Scale(bits[0], Norm(c, a));
      NormXor(c, Scale(bits[0], a), MulBits(c, Forward(c, a, false), bits[1..]));
    }
  }

  method GfMul(c: Params, a: Bits, b: Bits) returns (r: Bits)
    requires Valid(c) && IsState(c, a) && IsState(c, b)
    ensures r == Mul(c, a, b)
  {
    r := Zeros(c.order);
    var x, bits, i := a, Iterate(b, c.order0AtLsb), 0;
    assert bits[0..] == bits;
    XorZero(Mul(c, a, b));
    while i < |bits|
      invariant 0 <= i <= |bits| && IsState(c, x) && IsState(c, r)
      invariant Mul(c, a, b) == Xor(r, MulBits(c, x, bits[i..]))
    {
      assert bits[i..][1..] == bits[i + 1..];
      XorAssoc(r, Scale(bits[i], x), MulBits(c, Forward(c, x, false), bits[i + 1..]));
      XorZero(r);
      if bits[i] {
        r := Xor(r, x);
      }
      x := Forward(c, x, false);
      i := i + 1;
    }
    XorZero(r);
  }

  /** `unit` and `two`: 1 and x in the chosen bit order. */
  function UnitState(c: Params): (r: Bits)
    requires Valid(c)
    ensures IsState(c, r)
  {
    if c.order0AtLsb then Unit(c.order, 0) else Unit(c.order, c.order - 1)
  }

  function TwoState(c: Params): (r: Bits)
    requires Valid(c)
    ensures IsState(c, r)
  {
    if c.order0AtLsb then Unit(c.order, 1) else Unit(c.order, c.order - 2)
  }

  /** The square-and-multiply loop of `_gfexp` from accumulator `r`. */
  function ExpFrom(c: Params, r: Bits, x: Bits, n: nat): (e: Bits)
    requires Valid(c) && IsState(c, r) && IsState(c, x)
    ensures IsState(c, e)
    decreases n
  {
    if n == 0 then r
    else ExpFrom(c, if n % 2 == 1 then Mul(c, r, x) else r, Mul(c, x, x), n / 2)
  }

  function Exp(c: Params, x: Bits, n: nat): (e: Bits)
    requires Valid(c) && IsState(c, x)
    ensures IsState(c, e)
  {
    ExpFrom(c, UnitState(c), x, n)
  }

  method GfExp(c: Params, x: Bits, n: nat) returns (r: Bits)
    requires Valid(c) && IsState(c, x)
    ensures r == Exp(c, x, n)
  {
    r := UnitState(c);
    var y, m := x, n;
    while m != 0
      invariant IsState(c, r) && IsState(c, y) && ExpFrom(c, r, y, m) == Exp(c, x, n)
      decreases m
    {
      if m % 2 == 1 {
        r := GfMul(c, r, y);
      }
      y := GfMul(c, y, y);
      m := m / 2;
    }
  }

  function ForwardMany(c: Params, s: Bits, n: nat): (r: Bits)
    requires Valid(c) && IsState(c, s)
    ensures IsState(c, r)
  {
    Mul(c, s, Exp(c, TwoState(c), n))
  }

  /** x^k in the chosen bit order. */
  ghost predicate IsPower(c: Params, s: Bits, k: nat)
    requires Valid(c) && IsState(c, s)
  {
    Norm(c, s) == Power(LowPoly(c), Unit(c.order, 0), k)
  }

  /** Multiplying any state by x^k is k forward steps. */
  lemma {:induction false} MulByPower(c: Params, a: Bits, b: Bits, k: nat)
    requires Valid(c) && IsState(c, a) && IsState(c, b) && IsPower(c, b, k)
    ensures Norm(c, Mul(c, a, b)) == Power(LowPoly(c), Norm(c, a), k)
  {
    MulBitsIsComb(c, a, Iterate(b, c.order0AtLsb));
    assert Iterate(b, c.order0AtLsb) == Norm(c, b);
    MulPower(LowPoly(c), Norm(c, a), k);
  }

  lemma {:induction false} ProductIsPower(c: Params, a: Bits, b: Bits, m: nat, k: nat)
    requires Valid(c) && IsState(c, a) && IsState(c, b) && IsPower(c, a, m) && IsPower(c, b, k)
    ensures IsPower(c, Mul(c, a, b), m + k)
  {
    MulByPower(c, a, b, k);
    PowerAdd(LowPoly(c), Unit(c.order, 0), m, k);
  }

  lemma {:induction false} ExpIsPower(c: Params, r: Bits, x: Bits, n: nat, m: nat, k: nat, e: nat)
    requires Valid(c) && IsState(c, r) && IsState(c, x) && IsPower(c, r, m) && IsPower(c, x, k) && e == m + k * n
    ensures IsPower(c, ExpFrom(c, r, x, n), e)
    decreases n
  {
    if n > 0 {
      var next, m' := if n % 2 == 1 then Mul(c, r, x) else r, if n % 2 == 1 then m + k else m;
      Halve(n, m, k, m', e);
      ProductIsPower(c, x, x, k, k);
      NextIsPower(c, r, x, m, k, n % 2 == 1, next, m');
      ExpIsPower(c, next, Mul(c, x, x), n / 2, m', k + k, e);
    }
  }

  lemma {:induction false} NextIsPower(c: Params, r: Bits, x: Bits, m: nat, k: nat, odd: bool, next: Bits, m': nat)
    requires Valid(c) && IsState(c, r) && IsState(c, x) && IsPower(c, r, m) && IsPower(c, x, k)
    requires next == (if odd then Mul(c, r, x) else r) && m' == if odd then m + k else m
    ensures IsPower(c, next, m')
  {
    if odd {
      ProductIsPower(c, r, x, m, k);
    }
  }

  lemma {:induction false} Halve(n: nat, m: nat, k: nat, m': nat, e: nat)
    requires e == m + k * n && m' == if n % 2 == 1 then m + k else m
    ensures e == m' + (k + k) * (n / 2)
  {
    var h := n / 2;
    assert n == 2 * h + n % 2;
    assert (k + k) * h == k * (2 * h);
  }

  /** The fast seek is n single steps: for every state, count and polynomial,
      in both bit orders. */
  lemma {:induction false} SeekIsSteps(c: Params, s: Bits, n: nat)
    requires Valid(c) && IsState(c, s)
    ensures ForwardMany(c, s, n) == ForwardBits(c, s, Zeros(n))
  {
    var lp, u := LowPoly(c), Unit(c.order, 0);
    assert Norm(c, UnitState(c)) == u;
    assert Norm(c, TwoState(c)) == Unit(c.order, 1);
    PowerUnit(lp, 1);
    ExpIsPower(c, UnitState(c), TwoState(c), n, 0, 1, n);
    MulByPower(c, s, Exp(c, TwoState(c), n), n);
    ForwardBitsIsFeedAll(c, s, Zeros(n));
    FeedZeros(lp, Norm(c, s), n);
    NormInjective(c, ForwardMany(c, s, n), ForwardBits(c, s, Zeros(n)));
  }
}
