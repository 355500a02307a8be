/** Splitting a captured IR: the enumeration of all ways to merge adjacent
    segments into a given number of instruction registers. */
module IrMerge {

  function Sum(p: seq<nat>): nat {
    if p == [] then 0 else p[0] + Sum(p[1..])
  }

  lemma {:induction false} SumSnoc(p: seq<nat>, i: nat)
    requires i < |p|
    ensures Sum(p[..i + 1]) == Sum(p[..i]) + p[i]
    decreases i
  {
    if i == 0 {
      assert p[..1] == [p[0]] && p[..1][1..] == [] && p[..0] == [];
    } else {
      assert p[..i + 1][1..] == p[1..][..i] && p[..i][1..] == p[1..][..i - 1];
      SumSnoc(p[1..], i - 1);
    }
  }

  lemma {:induction false} Sum1(x: nat)
    ensures Sum([x]) == x
  {
    assert [x][1..] == [];
  }

  /** `ir_merge`, as in the source. */
  function Merge(prefix: seq<nat>, parts: seq<nat>, count: int): seq<seq<nat>>
    decreases |parts|, 0, 0
  {
    if |parts| < count || count < 0 then []
    else if |parts| == count then [prefix + parts]
    else MergeFrom(prefix, parts, count, 1)
  }

  /** Its loop, from the i-th split on. */
  function MergeFrom(prefix: seq<nat>, parts: seq<nat>, count: int, i: nat): seq<seq<nat>>
    requires 1 <= i <= |parts| + 1
    decreases if i <= |parts| then |parts| - 1 else 0, 1, |parts| + 1 - i
  {
    if i > |parts| then []
    else Merge(prefix + [Sum(parts[..i])], parts[i..], count - 1) + MergeFrom(prefix, parts, count, i + 1)
  }

  /** `q` groups `parts`: each entry is the sum of one or more of them, in order. */
  predicate Grouping(q: seq<nat>, parts: seq<nat>)
    decreases |q|
  {
    if q == [] then parts == []
    else exists i :: 1 <= i <= |parts| && Heads(q, parts, i) && Grouping(q[1..], parts[i..])
  }

  /** The first entry of `q` is the sum of the first `i` parts. */
  predicate Heads(q: seq<nat>, parts: seq<nat>, i: nat)
    requires q != [] && i <= |parts|
  {
    q[0] == Sum(parts[..i])
  }

  predicate Takes(q: seq<nat>, parts: seq<nat>, i: nat)
    requires q != [] && i <= |parts|
  {
    Heads(q, parts, i) && Grouping(q[1..], parts[i..])
  }

  lemma {:induction false} GroupingTakes(q: seq<nat>, parts: seq<nat>)
    requires q != []
    ensures Grouping(q, parts) <==> exists j :: 1 <= j <= |parts| && Takes(q, parts, j)
  {
    if Grouping(q, parts) {
      var j :| 1 <= j <= |parts| && Heads(q, parts, j) && Grouping(q[1..], parts[j..]);
      assert Takes(q, parts, j);
    }
  }

  lemma {:induction false} GroupingShrinks(q: seq<nat>, parts: seq<nat>)
    requires Grouping(q, parts)
    ensures |q| <= |parts|
    ensures |q| == |parts| ==> q == parts
    decreases |q|
  {
    if q != [] {
      GroupingTakes(q, parts);
      var i :| 1 <= i <= |parts| && Takes(q, parts, i);
      GroupingShrinks(q[1..], parts[i..]);
      if |q| == |parts| {
        assert i == 1 && parts[..1] == [parts[0]];
        Sum1(parts[0]);
        assert q == [q[0]] + q[1..] && parts == [parts[0]] + parts[1..];
      }
    }
  }

  lemma {:induction false} GroupingSelf(parts: seq<nat>)
    ensures Grouping(parts, parts)
    decreases |parts|
  {
    if parts != [] {
      GroupingSelf(parts[1..]);
      assert parts[..1] == [parts[0]];
      Sum1(parts[0]);
      assert Takes(parts, parts, 1);
    }
  }

  /** What a result of `Merge` looks like. */
  predicate Result(p: seq<nat>, prefix: seq<nat>, parts: seq<nat>, count: int) {
    |p| == |prefix| + count && count >= 0 && p[..|prefix|] == prefix && Grouping(p[|prefix|..], parts)
  }

  /** The enumeration is sound and complete. */
  lemma {:induction false} MergeEnumerates(prefix: seq<nat>, parts: seq<nat>, count: int, p: seq<nat>)
    ensures p in Merge(prefix, parts, count) <==> Result(p, prefix, parts, count)
    decreases |parts|, 0, 0
  {
    if |p| == |prefix| + count && count >= 0 && p[..|prefix|] == prefix {
      var q := p[|prefix|..];
      assert p == prefix + q;
      if |parts| < count {
        if Grouping(q, parts) { GroupingShrinks(q, parts); }
      } else if |parts| == count {
        GroupingSelf(parts);
        if Grouping(q, parts) { GroupingShrinks(q, parts); }
      } else {
        MergeFromEnumerates(prefix, parts, count, 1, p);
        if q == [] {
          assert !Grouping(q, parts);
        } else {
          GroupingTakes(q, parts);
        }
      }
    } else if 0 <= count <= |parts| {
      if |parts| == count {
        assert (prefix + parts)[..|prefix|] == prefix;
      } else {
        MergeFromEnumerates(prefix, parts, count, 1, p);
      }
    }
  }

  /** A result that takes at least `i` parts first. */
  predicate ResultFrom(p: seq<nat>, prefix: seq<nat>, parts: seq<nat>, count: int, i: nat) {
    && |p| == |prefix| + count && count >= 1 && p[..|prefix|] == prefix
    && exists j :: i <= j <= |parts| && Takes(p[|prefix|..], parts, j)
  }

  lemma {:induction false} MergeFromEnumerates(prefix: seq<nat>, parts: seq<nat>, count: int, i: nat, p: seq<nat>)
    requires 1 <= i <= |parts| + 1
    ensures p in MergeFrom(prefix, parts, count, i) <==> ResultFrom(p, prefix, parts, count, i)
    decreases if i <= |parts| then |parts| - 1 else 0, 1, |parts| + 1 - i
  {
    if i <= |parts| {
      var longer := prefix + [Sum(parts[..i])];
      MergeEnumerates(longer, parts[i..], count - 1, p);
      MergeFromEnumerates(prefix, parts, count, i + 1, p);
      SplitResult(p, prefix, parts, count, i);
      assert p in MergeFrom(prefix, parts, count, i) <==>
             p in Merge(longer, parts[i..], count - 1) || p in MergeFrom(prefix, parts, count, i + 1);
    }
  }

  lemma {:induction false} SplitResult(p: seq<nat>, prefix: seq<nat>, parts: seq<nat>, count: int, i: nat)
    requires 1 <= i <= |parts|
    ensures ResultFrom(p, prefix, parts, count, i) <==>
            Result(p, prefix + [Sum(parts[..i])], parts[i..], count - 1) || ResultFrom(p, prefix, parts, count, i + 1)
  {
    var longer := prefix + [Sum(parts[..i])];
    if |p| == |prefix| + count && count >= 1 {
      var q := p[|prefix|..];
      assert p[|longer|..] == q[1..];
      assert p[..|longer|] == p[..|prefix|] + [q[0]];
      assert longer[..|prefix|] == prefix && longer[|prefix|] == Sum(parts[..i]);
      assert p[..|longer|] == longer <==> p[..|prefix|] == prefix && q[0] == Sum(parts[..i]);
      assert Result(p, longer, parts[i..], count - 1) <==> p[..|prefix|] == prefix && Takes(q, parts, i);
      if ResultFrom(p, prefix, parts, count, i) && !Takes(q, parts, i) {
        var j :| i <= j <= |parts| && Takes(q, parts, j);
        assert i + 1 <= j;
      }
    }
  }

  // ----- No result is listed twice ----------------------------------------------

  predicate Distinct(r: seq<seq<nat>>) {
    forall i, j :: 0 <= i < j < |r| ==> r[i] != r[j]
  }

  predicate Positive(parts: seq<nat>) { forall i :: 0 <= i < |parts| ==> parts[i] > 0 }

  lemma {:induction false} SumGrows(parts: seq<nat>, i: nat, j: nat)
    requires Positive(parts) && i < j <= |parts|
    ensures Sum(parts[..i]) < Sum(parts[..j])
    decreases j - i
  {
    SumSnoc(parts, j - 1);
    if i < j - 1 {
      SumGrows(parts, i, j - 1);
    }
  }

  lemma {:induction false} MergeDistinct(prefix: seq<nat>, parts: seq<nat>, count: int)
    requires Positive(parts)
    ensures Distinct(Merge(prefix, parts, count))
    decreases |parts|, 0, 0
  {
    if 0 <= count < |parts| {
      MergeFromDistinct(prefix, parts, count, 1);
    }
  }

  lemma {:induction false} MergeFromDistinct(prefix: seq<nat>, parts: seq<nat>, count: int, i: nat)
    requires Positive(parts) && 1 <= i <= |parts| + 1
    ensures Distinct(MergeFrom(prefix, parts, count, i))
    decreases if i <= |parts| then |parts| - 1 else 0, 1, |parts| + 1 - i
  {
    if i <= |parts| {
      var longer := prefix + [Sum(parts[..i])];
      var a, b := Merge(longer, parts[i..], count - 1), MergeFrom(prefix, parts, count, i + 1);
      MergeDistinct(longer, parts[i..], count - 1);
      MergeFromDistinct(prefix, parts, count, i + 1);
      forall x, y | x in a && y in b
        ensures x != y
      {
        MergeEnumerates(longer, parts[i..], count - 1, x);
        MergeFromEnumerates(prefix, parts, count, i + 1, y);
        FirstDiffers(prefix, parts, count, i, x, y);
      }
      DistinctConcat(a, b);
    }
  }

  lemma {:induction false} FirstDiffers(prefix: seq<nat>, parts: seq<nat>, count: int, i: nat, x: seq<nat>, y: seq<nat>)
    requires Positive(parts) && 1 <= i <= |parts|
    requires Result(x, prefix + [Sum(parts[..i])], parts[i..], count - 1)
    requires ResultFrom(y, prefix, parts, count, i + 1)
    ensures x != y
  {
    var k := |prefix|;
    var j :| i + 1 <= j <= |parts| && Takes(y[k..], parts, j);
    SumGrows(parts, i, j);
    assert x[..k + 1][k] == Sum(parts[..i]);
    assert y[k..][0] == y[k];
  }

  lemma {:induction false} DistinctConcat(a: seq<seq<nat>>, b: seq<seq<nat>>)
    requires Distinct(a) && Distinct(b) && forall x, y :: x in a && y in b ==> x != y
    ensures Distinct(a + b)
  {
    var r := a + b;
    forall i, j | 0 <= i < j < |r|
      ensures r[i] != r[j]
    {
      if i < |a| <= j {
        assert r[i] in a && r[j] in b;
      }
    }
  }
}
