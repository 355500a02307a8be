/** Quotients and remainders, told by the equation they solve. */
module Division {

  lemma {:induction false} DivMod(x: int, b: int)
    requires b > 0
    ensures x == (x / b) * b + x % b && 0 <= x % b < b
  {}

  lemma {:induction false} DivUnique(x: int, b: int, q: int, r: int)
    requires b > 0 && x == q * b + r && 0 <= r < b
    ensures x / b == q && x % b == r
  {
    DivMod(x, b);
    var d := x / b - q;
    assert d * b == r - x % b;
    assert d >= 1 ==> d * b >= b;
    assert d <= -1 ==> d * b <= -b;
  }

  /** Dividing in two steps. */
  lemma {:induction false} DivTwice(v: int, a: int, p: int)
    requires a > 0 && p > 0
    ensures a * p > 0 && (v / a) / p == v / (a * p)
  {
    var h, q := v / a, (v / a) / p;
    DivMod(v, a);
    DivMod(h, p);
    Regroup(v, h, q, a, p, h % p, v % a);
    Below(a, p, h % p, v % a);
    DivUnique(v, a * p, q, (h % p) * a + v % a);
  }

  lemma {:induction false} Regroup(v: int, h: int, q: int, a: int, p: int, s: int, t: int)
    requires h == q * p + s && v == h * a + t
    ensures v == q * (a * p) + (s * a + t)
  {
    assert (q * p + s) * a == (q * p) * a + s * a;
    assert (q * p) * a == q * (p * a);
    assert p * a == a * p;
  }

  lemma {:induction false} Below(a: int, p: int, s: int, t: int)
    requires 0 <= s < p && 0 <= t < a
    ensures 0 <= s * a + t < a * p
  {
    assert 0 <= s * a;
    assert s * a <= (p - 1) * a == p * a - a;
  }
}
