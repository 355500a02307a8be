/** Shift-register arithmetic over GF(2). A state of order n is a sequence of
    n bits, coefficient of x^i at index i; `lp` holds the n low coefficients
    of the feedback polynomial x^n + lp. */
module Gf2 {
  import opened BitSequences

  function Xor(a: Bits, b: Bits): (r: Bits)
    requires |a| == |b|
    ensures |r| == |a|
  {
    seq(|a|, i requires 0 <= i < |a| => a[i] != b[i])
  }

  /** x^j */
  function Unit(n: nat, j: nat): (r: Bits)
    requires j < n
    ensures |r| == n
  {
    seq(n, i => i == j)
  }

  function Scale(c: bool, a: Bits): (r: Bits)
    ensures |r| == |a|
  {
    if c then a else Zeros(|a|)
  }

  /** Multiplication by x: one step of the register with a zero input bit. */
  function Times2(lp: Bits, s: Bits): (r: Bits)
    requires |s| == |lp| > 0
    ensures |r| == |s|
  {
    Xor([false] + s[..|s| - 1], Scale(s[|s| - 1], lp))
  }

  /** One step with an input bit, fed in next to the top coefficient. */
  function Feed(lp: Bits, s: Bits, bit: bool): (r: Bits)
    requires |s| == |lp| > 0
    ensures |r| == |s|
  {
    Xor([false] + s[..|s| - 1], Scale(s[|s| - 1] != bit, lp))
  }

  function Power(lp: Bits, s: Bits, k: nat): (r: Bits)
    requires |s| == |lp| > 0
    ensures |r| == |s|
    decreases k
  {
    if k == 0 then s else Power(lp, Times2(lp, s), k - 1)
  }

  /** The sum of c[i] * x^i * a: what the multiplication loop accumulates. */
  function Comb(lp: Bits, c: Bits, a: Bits): (r: Bits)
    requires |a| == |lp| > 0
    ensures |r| == |a|
    decreases |c|
  {
    if c == [] then Zeros(|a|) else Xor(Scale(c[0], a), Comb(lp, c[1..], Times2(lp, a)))
  }

  // ----- Vector space ------------------------------------------------------

  lemma {:induction false} XorShuffle(a: Bits, b: Bits, c: Bits, d: Bits)
    requires |a| == |b| == |c| == |d|
    ensures Xor(Xor(a, b), Xor(c, d)) == Xor(Xor(a, c), Xor(b, d))
  {}

  lemma {:induction false} XorZero(a: Bits)
    ensures Xor(a, Zeros(|a|)) == a && Xor(Zeros(|a|), a) == a && Xor(a, a) == Zeros(|a|)
  {}

  lemma {:induction false} XorAssoc(a: Bits, b: Bits, c: Bits)
    requires |a| == |b| == |c|
    ensures Xor(Xor(a, b), c) == Xor(a, Xor(b, c))
  {}

  lemma {:induction false} XorCancel(a: Bits, b: Bits)
    requires |a| == |b|
    ensures Xor(a, b) == Zeros(|a|) <==> a == b
    ensures Xor(Xor(a, b), b) == a
  {
    if Xor(a, b) == Zeros(|a|) {
      forall i | 0 <= i < |a| ensures a[i] == b[i] {
        assert Xor(a, b)[i] == Zeros(|a|)[i];
      }
    }
  }

  lemma {:induction false} ScaleXor(c: bool, a: Bits, b: Bits)
    requires |a| == |b|
    ensures Scale(c, Xor(a, b)) == Xor(Scale(c, a), Scale(c, b))
  {
    XorZero(Zeros(|a|));
  }

  // ----- Linearity -----------------------------------------------------------

  lemma {:induction false} Times2Xor(lp: Bits, a: Bits, b: Bits)
    requires |a| == |b| == |lp| > 0
    ensures Times2(lp, Xor(a, b)) == Xor(Times2(lp, a), Times2(lp, b))
  {}

  lemma {:induction false} Times2Zero(lp: Bits)
    requires |lp| > 0
    ensures Times2(lp, Zeros(|lp|)) == Zeros(|lp|)
  {}

  lemma {:induction false} Times2Scale(lp: Bits, c: bool, a: Bits)
    requires |a| == |lp| > 0
    ensures Times2(lp, Scale(c, a)) == Scale(c, Times2(lp, a))
  {
    Times2Zero(lp);
  }

  lemma {:induction false} CombXor(lp: Bits, c: Bits, a: Bits, b: Bits)
    requires |a| == |b| == |lp| > 0
    ensures Comb(lp, c, Xor(a, b)) == Xor(Comb(lp, c, a), Comb(lp, c, b))
    decreases |c|
  {
    if c == [] {
      XorZero(Zeros(|a|));
    } else {
      Times2Xor(lp, a, b);
      CombXor(lp, c[1..], Times2(lp, a), Times2(lp, b));
      ScaleXor(c[0], a, b);
      XorShuffle(Scale(c[0], a), Scale(c[0], b), Comb(lp, c[1..], Times2(lp, a)), Comb(lp, c[1..], Times2(lp, b)));
    }
  }

  /** The loop commutes with the register step. */
  lemma {:induction false} CombTimes2(lp: Bits, c: Bits, a: Bits)
    requires |a| == |lp| > 0
    ensures Comb(lp, c, Times2(lp, a)) == Times2(lp, Comb(lp, c, a))
    decreases |c|
  {
    if c == [] {
      Times2Zero(lp);
    } else {
      CombTimes2(lp, c[1..], Times2(lp, a));
      Times2Scale(lp, c[0], a);
      Times2Xor(lp, Scale(c[0], a), Comb(lp, c[1..], Times2(lp, a)));
    }
  }

  lemma {:induction false} CombScalars(lp: Bits, c: Bits, d: Bits, a: Bits)
    requires |c| == |d| && |a| == |lp| > 0
    ensures Comb(lp, Xor(c, d), a) == Xor(Comb(lp, c, a), Comb(lp, d, a))
    decreases |c|
  {
    if c == [] {
      XorZero(Zeros(|a|));
    } else {
      assert Xor(c, d)[1..] == Xor(c[1..], d[1..]);
      CombScalars(lp, c[1..], d[1..], Times2(lp, a));
      XorZero(a);
      XorZero(Zeros(|a|));
      assert Scale(c[0] != d[0], a) == Xor(Scale(c[0], a), Scale(d[0], a));
      XorShuffle(Scale(c[0], a), Scale(d[0], a), Comb(lp, c[1..], Times2(lp, a)), Comb(lp, d[1..], Times2(lp, a)));
    }
  }

  lemma {:induction false} CombNothing(lp: Bits, n: nat, a: Bits)
    requires |a| == |lp| > 0
    ensures Comb(lp, Zeros(n), a) == Zeros(|a|)
    decreases n
  {
    if n > 0 {
      assert Zeros(n)[1..] == Zeros(n - 1);
      CombNothing(lp, n - 1, Times2(lp, a));
      XorZero(Zeros(|a|));
    }
  }

  lemma {:induction false} CombScale(lp: Bits, t: bool, d: Bits, a: Bits)
    requires |a| == |lp| > 0
    ensures Comb(lp, Scale(t, d), a) == Scale(t, Comb(lp, d, a))
  {
    CombNothing(lp, |d|, a);
  }

  lemma {:induction false} PowerStep(lp: Bits, s: Bits, k: nat)
    requires |s| == |lp| > 0
    ensures Power(lp, s, k + 1) == Times2(lp, Power(lp, s, k))
    decreases k
  {
    if k > 0 {
      PowerStep(lp, Times2(lp, s), k - 1);
    }
  }

  lemma {:induction false} PowerAdd(lp: Bits, s: Bits, j: nat, k: nat)
    requires |s| == |lp| > 0
    ensures Power(lp, s, j + k) == Power(lp, Power(lp, s, j), k)
    decreases j
  {
    if j > 0 {
      PowerAdd(lp, Times2(lp, s), j - 1, k);
    }
  }

  lemma {:induction false} PowerXor(lp: Bits, a: Bits, b: Bits, k: nat)
    requires |a| == |b| == |lp| > 0
    ensures Power(lp, Xor(a, b), k) == Xor(Power(lp, a, k), Power(lp, b, k))
    decreases k
  {
    if k > 0 {
      Times2Xor(lp, a, b);
      PowerXor(lp, Times2(lp, a), Times2(lp, b), k - 1);
    }
  }

  /** The last scalar weighs x^|c|. */
  lemma {:induction false} CombSnoc(lp: Bits, c: Bits, d: bool, a: Bits)
    requires |a| == |lp| > 0
    ensures Comb(lp, c + [d], a) == Xor(Comb(lp, c, a), Scale(d, Power(lp, a, |c|)))
    decreases |c|
  {
    if c == [] {
      assert c + [d] == [d] && [d][1..] == [];
      XorZero(Scale(d, a));
      XorZero(Zeros(|a|));
    } else {
      assert (c + [d])[1..] == c[1..] + [d];
      CombSnoc(lp, c[1..], d, Times2(lp, a));
      XorAssoc(Scale(c[0], a), Comb(lp, c[1..], Times2(lp, a)), Scale(d, Power(lp, a, |c|)));
    }
  }

  // ----- The unit generates every state ---------------------------------------

  lemma {:induction false} Times2Unit(lp: Bits, j: nat)
    requires |lp| > 0 && j < |lp|
    ensures Times2(lp, Unit(|lp|, j)) == if j + 1 < |lp| then Unit(|lp|, j + 1) else lp
  {}

  /** Comb over x^j shifts the scalars up by j. */
  lemma {:induction false} CombUnit(lp: Bits, c: Bits, j: nat)
    requires |lp| > 0 && j + |c| == |lp| && c != []
    ensures Comb(lp, c, Unit(|lp|, j)) == Zeros(j) + c
    decreases |c|
  {
    Times2Unit(lp, j);
    if |c| == 1 {
      assert c[1..] == [];
      XorZero(Scale(c[0], Unit(|lp|, j)));
    } else {
      CombUnit(lp, c[1..], j + 1);
      UnitAdds(|lp|, c, j);
    }
  }

  lemma {:induction false} UnitAdds(n: nat, c: Bits, j: nat)
    requires j + |c| == n && c != []
    ensures Xor(Scale(c[0], Unit(n, j)), Zeros(j + 1) + c[1..]) == Zeros(j) + c
  {}

  lemma {:induction false} CombUnit0(lp: Bits, c: Bits)
    requires |c| == |lp| > 0
    ensures Comb(lp, c, Unit(|lp|, 0)) == c
  {
    CombUnit(lp, c, 0);
    assert Zeros(0) + c == c;
  }

  lemma {:induction false} PowerUnit(lp: Bits, j: nat)
    requires |lp| > 0 && j < |lp|
    ensures Power(lp, Unit(|lp|, 0), j) == Unit(|lp|, j)
    decreases j
  {
    if j > 0 {
      PowerUnit(lp, j - 1);
      PowerStep(lp, Unit(|lp|, 0), j - 1);
      Times2Unit(lp, j - 1);
    }
  }

  // ----- The register satisfies its own polynomial -----------------------------

  /** x^n acts on `a` as the low part of the polynomial does. */
  predicate Closes(lp: Bits, a: Bits)
    requires |a| == |lp| > 0
  {
    Power(lp, a, |lp|) == Comb(lp, lp, a)
  }

  lemma {:induction false} UnitCloses(lp: Bits)
    requires |lp| > 0
    ensures Closes(lp, Unit(|lp|, 0))
  {
    PowerUnit(lp, |lp| - 1);
    PowerStep(lp, Unit(|lp|, 0), |lp| - 1);
    Times2Unit(lp, |lp| - 1);
    CombUnit0(lp, lp);
  }

  lemma {:induction false} Times2Closes(lp: Bits, a: Bits)
    requires |a| == |lp| > 0 && Closes(lp, a)
    ensures Closes(lp, Times2(lp, a))
  {
    PowerStep(lp, a, |lp|);
    CombTimes2(lp, lp, a);
  }

  lemma {:induction false} XorCloses(lp: Bits, a: Bits, b: Bits)
    requires |a| == |b| == |lp| > 0 && Closes(lp, a) && Closes(lp, b)
    ensures Closes(lp, Xor(a, b))
  {
    PowerXor(lp, a, b, |lp|);
    CombXor(lp, lp, a, b);
  }

  lemma {:induction false} ZeroCloses(lp: Bits)
    requires |lp| > 0
    ensures Closes(lp, Zeros(|lp|))
  {
    UnitCloses(lp);
    var u := Unit(|lp|, 0);
    XorCloses(lp, u, u);
    XorZero(u);
  }

  lemma {:induction false} CombCloses(lp: Bits, c: Bits, a: Bits)
    requires |a| == |lp| > 0 && Closes(lp, a)
    ensures Closes(lp, Comb(lp, c, a))
    decreases |c|
  {
    ZeroCloses(lp);
    if c != [] {
      Times2Closes(lp, a);
      CombCloses(lp, c[1..], Times2(lp, a));
      XorCloses(lp, Scale(c[0], a), Comb(lp, c[1..], Times2(lp, a)));
    }
  }

  /** Every state closes: the Cayley-Hamilton identity of the register. */
  lemma {:induction false} AlwaysCloses(lp: Bits, a: Bits)
    requires |a| == |lp| > 0
    ensures Closes(lp, a)
  {
    UnitCloses(lp);
    CombCloses(lp, a, Unit(|lp|, 0));
    CombUnit0(lp, a);
  }

  // ----- Multiplication ----------------------------------------------------------

  /** Multiplying by x * b is multiplying by b and stepping once: the loop
      computes the product in GF(2)[x] modulo the polynomial. */
  lemma {:induction false} MulTimes2(lp: Bits, a: Bits, b: Bits)
    requires |a| == |b| == |lp| > 0
    ensures Comb(lp, Times2(lp, b), a) == Times2(lp, Comb(lp, b, a))
  {
    var n := |lp|;
    var low, top := b[..n - 1], b[n - 1];
    assert b == low + [top];
    calc {
      Comb(lp, Times2(lp, b), a);
      { CombScalars(lp, [false] + low, Scale(top, lp), a); }
      Xor(Comb(lp, [false] + low, a), Comb(lp, Scale(top, lp), a));
      { CombScale(lp, top, lp, a); CombFalse(lp, low, a); AlwaysCloses(lp, a); }
      Xor(Comb(lp, low, Times2(lp, a)), Scale(top, Power(lp, a, n)));
      { CombSnoc(lp, low, top, Times2(lp, a)); }
      Comb(lp, b, Times2(lp, a));
      { CombTimes2(lp, b, a); }
      Times2(lp, Comb(lp, b, a));
    }
  }

  lemma {:induction false} CombFalse(lp: Bits, c: Bits, a: Bits)
    requires |a| == |lp| > 0
    ensures Comb(lp, [false] + c, a) == Comb(lp, c, Times2(lp, a))
  {
    assert ([false] + c)[1..] == c;
    XorZero(Comb(lp, c, Times2(lp, a)));
  }

  /** Multiplying by x^k is stepping k times. */
  lemma {:induction false} MulPower(lp: Bits, a: Bits, k: nat)
    requires |a| == |lp| > 0
    ensures Comb(lp, Power(lp, Unit(|lp|, 0), k), a) == Power(lp, a, k)
    decreases k
  {
    var u := Unit(|lp|, 0);
    if k == 0 {
      assert u == [true] + Zeros(|lp| - 1);
      assert u[1..] == Zeros(|lp| - 1);
      CombNothing(lp, |lp| - 1, Times2(lp, a));
      XorZero(a);
    } else {
      MulPower(lp, a, k - 1);
      PowerStep(lp, u, k - 1);
      PowerStep(lp, a, k - 1);
      MulTimes2(lp, a, Power(lp, u, k - 1));
    }
  }

  // ----- Input bits ------------------------------------------------------------------

  function Rev(a: Bits): (r: Bits)
    ensures |r| == |a|
  {
    seq(|a|, i requires 0 <= i < |a| => a[|a| - 1 - i])
  }

  function FeedAll(lp: Bits, s: Bits, bits: Bits): (r: Bits)
    requires |s| == |lp| > 0
    ensures |r| == |s|
    decreases |bits|
  {
    if bits == [] then s else FeedAll(lp, Feed(lp, s, bits[0]), bits[1..])
  }

  lemma {:induction false} FeedConcat(lp: Bits, s: Bits, a: Bits, b: Bits)
    requires |s| == |lp| > 0
    ensures FeedAll(lp, s, a + b) == FeedAll(lp, FeedAll(lp, s, a), b)
    decreases |a|
  {
    if a == [] {
      assert a + b == b;
    } else {
      assert (a + b)[0] == a[0] && (a + b)[1..] == a[1..] + b;
      FeedConcat(lp, Feed(lp, s, a[0]), a[1..], b);
    }
  }

  lemma {:induction false} FeedXor(lp: Bits, s: Bits, t: Bits, b: bool, d: bool)
    requires |s| == |t| == |lp| > 0
    ensures Feed(lp, Xor(s, t), b != d) == Xor(Feed(lp, s, b), Feed(lp, t, d))
  {}

  /** Feeding is linear in state and input together. */
  lemma {:induction false} FeedAllXor(lp: Bits, s: Bits, t: Bits, a: Bits, b: Bits)
    requires |s| == |t| == |lp| > 0 && |a| == |b|
    ensures FeedAll(lp, Xor(s, t), Xor(a, b)) == Xor(FeedAll(lp, s, a), FeedAll(lp, t, b))
    decreases |a|
  {
    if a != [] {
      assert Xor(a, b)[1..] == Xor(a[1..], b[1..]);
      FeedXor(lp, s, t, a[0], b[0]);
      FeedAllXor(lp, Feed(lp, s, a[0]), Feed(lp, t, b[0]), a[1..], b[1..]);
    }
  }

  lemma {:induction false} FeedZeros(lp: Bits, s: Bits, n: nat)
    requires |s| == |lp| > 0
    ensures FeedAll(lp, s, Zeros(n)) == Power(lp, s, n)
    decreases n
  {
    if n > 0 {
      assert Zeros(n)[1..] == Zeros(n - 1);
      assert Feed(lp, s, false) == Times2(lp, s);
      FeedZeros(lp, Times2(lp, s), n - 1);
    }
  }

  /** Bits lined up with the top coefficients, first bit highest. */
  function Aligned(n: nat, bits: Bits): (r: Bits)
    requires |bits| <= n
    ensures |r| == n
  {
    Zeros(n - |bits|) + Rev(bits)
  }

  /** Feeding up to n bits is adding them to the top and stepping. */
  lemma {:induction false} FeedAligned(lp: Bits, s: Bits, bits: Bits)
    requires |s| == |lp| > 0 && |bits| <= |s|
    ensures FeedAll(lp, s, bits) == Power(lp, Xor(s, Aligned(|s|, bits)), |bits|)
    decreases |bits|
  {
    var n := |s|;
    if bits == [] {
      assert Aligned(n, bits) == Zeros(n);
      XorZero(s);
    } else {
      var first, rest := Aligned(n, [bits[0]]), bits[1..];
      var later := Zeros(n - |bits|) + Rev(rest) + [false];
      assert Xor(first, later) == Aligned(n, bits);
      assert Times2(lp, later) == Aligned(n, rest);
      assert Feed(lp, s, bits[0]) == Times2(lp, Xor(s, first));
      FeedAligned(lp, Feed(lp, s, bits[0]), rest);
      Times2Xor(lp, Xor(s, first), later);
      XorAssoc(s, first, later);
    }
  }

  // ----- Undoing a step -----------------------------------------------------------------

  /** With a unit constant term the step can be undone. */
  function Unfeed(lp: Bits, s: Bits, bit: bool): (r: Bits)
    requires |s| == |lp| > 0
    ensures |r| == |s|
  {
    Xor(s, Scale(s[0], lp))[1..] + [s[0] != bit]
  }

  lemma {:induction false} UnfeedFeed(lp: Bits, s: Bits, bit: bool)
    requires |s| == |lp| > 0 && lp[0]
    ensures Unfeed(lp, Feed(lp, s, bit), bit) == s
    ensures Feed(lp, Unfeed(lp, s, bit), bit) == s
  {
    var f := Feed(lp, s, bit);
    assert f[0] == (s[|s| - 1] != bit);
    assert Xor(f, Scale(f[0], lp)) == [false] + s[..|s| - 1];
    var x := Scale(s[0], lp);
    assert [false] + Xor(s, x)[1..] == Xor(s, x);
    var u := Unfeed(lp, s, bit);
    assert u[..|s| - 1] == Xor(s, x)[1..] && (u[|s| - 1] != bit) == s[0];
    XorCancel(s, x);
  }

  lemma {:induction false} Times2Injective(lp: Bits, a: Bits, b: Bits)
    requires |a| == |b| == |lp| > 0 && lp[0] && Times2(lp, a) == Times2(lp, b)
    ensures a == b
  {
    assert Feed(lp, a, false) == Times2(lp, a);
    assert Feed(lp, b, false) == Times2(lp, b);
    UnfeedFeed(lp, a, false);
    UnfeedFeed(lp, b, false);
  }

  lemma {:induction false} PowerInjective(lp: Bits, a: Bits, b: Bits, k: nat)
    requires |a| == |b| == |lp| > 0 && lp[0]
    ensures Power(lp, a, k) == Power(lp, b, k) <==> a == b
    decreases k
  {
    if k > 0 {
      PowerInjective(lp, Times2(lp, a), Times2(lp, b), k - 1);
      if Times2(lp, a) == Times2(lp, b) {
        Times2Injective(lp, a, b);
      }
    }
  }
}
