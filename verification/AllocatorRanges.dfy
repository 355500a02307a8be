/** Address ranges, and sets of free ranges that never touch. */
module AllocatorRanges {

  datatype Range = Range(address: int, size: int)

  function End(r: Range): int { r.address + r.size }

  predicate Holds(r: Range, x: int) { r.address <= x < End(r) }

  /** The bytes of a set of ranges. */
  predicate Held(s: set<Range>, x: int) { exists r :: r in s && Holds(r, x) }

  /** Adjacent, on either side. */
  predicate Touches(a: Range, b: Range) {
    if a.address > b.address then End(b) == a.address else End(a) == b.address
  }

  function Merge(a: Range, b: Range): Range {
    if a.address <= b.address then Range(a.address, a.size + b.size) else Range(b.address, b.size + a.size)
  }

  predicate Apart(a: Range, b: Range) { End(a) < b.address || End(b) < a.address }

  predicate Disjoint(a: Range, b: Range) { End(a) <= b.address || End(b) <= a.address }

  predicate Sized(s: set<Range>) { forall r :: r in s ==> r.size > 0 }

  /** A free list: ranges with a gap between any two. */
  predicate Separated(s: set<Range>) {
    Sized(s) && forall a, b :: a in s && b in s && a != b ==> Apart(a, b)
  }

  predicate Clear(s: set<Range>, r: Range) {
    r.size > 0 && forall b :: b in s ==> Disjoint(b, r)
  }

  predicate LeftNeighbour(s: set<Range>, r: Range) { exists b :: b in s && End(b) == r.address }

  predicate RightNeighbour(s: set<Range>, r: Range) { exists b :: b in s && b.address == End(r) }

  /** On how many sides a range has a free neighbour. */
  function Sides(s: set<Range>, r: Range): (n: nat)
    ensures n <= 2
  {
    (if LeftNeighbour(s, r) then 1 else 0) + (if RightNeighbour(s, r) then 1 else 0)
  }

  ghost predicate SameBytes(s: set<Range>, r: Range, t: set<Range>, q: Range) {
    forall x :: (Held(s, x) || Holds(r, x)) <==> (Held(t, x) || Holds(q, x))
  }

  lemma {:induction false} HeldSplit(s: set<Range>, b: Range, x: int)
    requires b in s
    ensures Held(s, x) <==> Held(s - {b}, x) || Holds(b, x)
  {
    if Held(s, x) && !Holds(b, x) {
      var r :| r in s && Holds(r, x);
      assert r in s - {b};
    }
    if Held(s - {b}, x) {
      var r :| r in s - {b} && Holds(r, x);
      assert r in s;
    }
  }

  lemma {:induction false} HeldAdd(s: set<Range>, b: Range, x: int)
    ensures Held(s + {b}, x) <==> Held(s, x) || Holds(b, x)
  {
    if Held(s + {b}, x) && !Holds(b, x) {
      var r :| r in s + {b} && Holds(r, x);
      assert r in s;
    }
    if Held(s, x) {
      var r :| r in s && Holds(r, x);
      assert r in s + {b};
    }
    if Holds(b, x) {
      assert b in s + {b};
    }
  }

  lemma {:induction false} MergeKeepsApart(s: set<Range>, b: Range, r: Range)
    requires Separated(s) && Clear(s, r) && b in s && Touches(b, r)
    ensures Separated(s - {b}) && Clear(s - {b}, Merge(r, b))
  {
    forall a | a in s - {b} ensures Disjoint(a, Merge(r, b)) {
      assert Apart(a, b) && Disjoint(a, r);
    }
  }

  lemma {:induction false} MergeKeepsBytes(s: set<Range>, b: Range, r: Range)
    requires Sized(s) && r.size > 0 && b in s && Touches(b, r)
    ensures SameBytes(s, r, s - {b}, Merge(r, b))
  {
    forall x ensures (Held(s, x) || Holds(r, x)) <==> (Held(s - {b}, x) || Holds(Merge(r, b), x)) {
      HeldSplit(s, b, x);
    }
  }

  /** Merging uses up a side, and opens none. */
  lemma {:induction false} MergeLowersSides(s: set<Range>, b: Range, r: Range)
    requires Separated(s) && Clear(s, r) && b in s && Touches(b, r)
    ensures Sides(s - {b}, Merge(r, b)) < Sides(s, r)
  {
    var t, q := s - {b}, Merge(r, b);
    assert Disjoint(b, r) && b.size > 0;
    if b.address < r.address {
      assert LeftNeighbour(s, r);
      forall a | a in t ensures End(a) != q.address { assert Apart(a, b); }
      if RightNeighbour(t, q) {
        var a :| a in t && a.address == End(q);
        assert a in s && a.address == End(r);
      }
    } else {
      assert RightNeighbour(s, r);
      forall a | a in t ensures a.address != End(q) { assert Apart(a, b); }
      if LeftNeighbour(t, q) {
        var a :| a in t && End(a) == q.address;
        assert a in s && End(a) == r.address;
      }
    }
  }

  lemma {:induction false} NoTouchNoSides(s: set<Range>, r: Range)
    requires Clear(s, r) && Sized(s)
    ensures Sides(s, r) == 0 <==> forall b :: b in s ==> !Touches(b, r)
  {
    if LeftNeighbour(s, r) {
      var b :| b in s && End(b) == r.address;
      assert Touches(b, r);
    }
    if RightNeighbour(s, r) {
      var b :| b in s && b.address == End(r);
      assert Touches(b, r);
    }
  }

  lemma {:induction false} AddSeparated(s: set<Range>, r: Range)
    requires Separated(s) && Clear(s, r) && Sides(s, r) == 0
    ensures Separated(s + {r})
  {
    forall b | b in s ensures Apart(b, r) {
      assert Disjoint(b, r);
      assert !LeftNeighbour(s, r) && !RightNeighbour(s, r);
    }
  }

  // ----- Runs of free bytes ---------------------------------------------------------------------

  predicate Inside(b: Range, a: int, n: int) { b.address <= a && a + n <= End(b) }

  /** A run of free bytes lies in one range. */
  lemma {:induction false} RunInOne(s: set<Range>, a: int, n: nat) returns (b: Range)
    requires Separated(s) && n > 0 && forall x :: a <= x < a + n ==> Held(s, x)
    ensures b in s && Inside(b, a, n)
    decreases n
  {
    if n == 1 {
      assert Held(s, a);
      b :| b in s && Holds(b, a);
    } else {
      b := RunInOne(s, a, n - 1);
      assert Held(s, a + n - 1);
      var c :| c in s && Holds(c, a + n - 1);
      assert b == c || Apart(b, c);
    }
  }

  /** A free list is determined by its bytes. */
  lemma {:induction false} Canonical(s: set<Range>, t: set<Range>)
    requires Separated(s) && Separated(t) && forall x :: Held(s, x) <==> Held(t, x)
    ensures s == t
  {
    forall r ensures r in s <==> r in t {
      if r in s { SameRange(s, t, r); }
      if r in t { SameRange(t, s, r); }
    }
  }

  lemma {:induction false} SameRange(s: set<Range>, t: set<Range>, r: Range)
    requires Separated(s) && Separated(t) && (forall x :: Held(s, x) <==> Held(t, x)) && r in s
    ensures r in t
  {
    forall x | Holds(r, x) ensures Held(t, x) { assert Held(s, x); }
    var b := RunInOne(t, r.address, r.size);
    forall x | Holds(b, x) ensures Held(s, x) { assert Held(t, x); }
    var c := RunInOne(s, b.address, b.size);
    assert c == r || Apart(c, r);
    assert b == r;
  }
}
