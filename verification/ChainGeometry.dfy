/** Geometry and ownership of the TAPs of a chain: padding fields of the
    contexts, and the controller/gated links between TAPs. */
module ChainGeometry {
  import opened BitSequences
  import opened Wrappers

  /** A TAP object: `id` is its identity. */
  datatype Tap = Tap(id: nat, idcode: Option<Bits>, irlen: nat)

  datatype Ctx = Ctx(irPre: int, irPost: int, drPre: int, drPost: int, currentIr: Option<Bits>,
                     enabled: bool, controller: Option<Tap>, gated: seq<Tap>)

  type Contexts = map<Tap, Ctx>

  // ----- Tiling -------------------------------------------------------------------

  function SumIr(taps: seq<Tap>): nat {
    if taps == [] then 0 else taps[0].irlen + SumIr(taps[1..])
  }

  lemma {:induction false} SumIrConcat(a: seq<Tap>, b: seq<Tap>)
    ensures SumIr(a + b) == SumIr(a) + SumIr(b)
    decreases |a|
  {
    if a == [] {
      assert a + b == b;
    } else {
      assert (a + b)[1..] == a[1..] + b;
      SumIrConcat(a[1..], b);
    }
  }

  predicate NoDup<X(==)>(s: seq<X>) { forall i, j :: 0 <= i < j < |s| ==> s[i] != s[j] }

  predicate Sized(order: seq<Tap>) { forall k :: 0 <= k < |order| ==> order[k].irlen > 0 }

  /** The k-th TAP of `order` is padded by what lies on either side of it. */
  predicate Placed(cs: Contexts, order: seq<Tap>, k: nat)
    requires k < |order|
  {
    && order[k] in cs
    && var c := cs[order[k]];
       && c.enabled
       && c.irPre == SumIr(order[..k]) && c.irPost == SumIr(order[k + 1..])
       && c.drPre == k && c.drPost == |order| - 1 - k
  }

  /** The enabled TAPs, TDO end first, tile the chain. */
  predicate Tiled(cs: Contexts, order: seq<Tap>) {
    && NoDup(order) && Sized(order)
    && (forall k :: 0 <= k < |order| ==> Placed(cs, order, k))
    && (forall t :: t in cs && cs[t].enabled ==> t in order)
  }

  /** Padding and length add up to the chain, for IR and for DR. */
  lemma {:induction false} PaddingAddsUp(cs: Contexts, order: seq<Tap>, t: Tap)
    requires Tiled(cs, order) && t in cs && cs[t].enabled
    ensures cs[t].irPre + t.irlen + cs[t].irPost == SumIr(order)
    ensures cs[t].drPre + 1 + cs[t].drPost == |order|
  {
    var k :| 0 <= k < |order| && order[k] == t;
    assert Placed(cs, order, k);
    assert order == order[..k] + ([t] + order[k + 1..]);
    SumIrConcat(order[..k], [t] + order[k + 1..]);
    SumIrConcat([t], order[k + 1..]);
    Sum1(t);
  }

  lemma {:induction false} Sum1(t: Tap)
    ensures SumIr([t]) == t.irlen
  {
    assert [t][1..] == [];
  }

  lemma {:induction false} SumIrGrows(order: seq<Tap>, i: nat, j: nat)
    requires i < j <= |order| && Sized(order)
    ensures SumIr(order[..i]) < SumIr(order[..j])
    decreases j - i
  {
    assert order[..j] == order[..j - 1] + [order[j - 1]];
    SumIrConcat(order[..j - 1], [order[j - 1]]);
    Sum1(order[j - 1]);
    if i < j - 1 {
      SumIrGrows(order, i, j - 1);
    }
  }

  // ----- Insertion and removal -----------------------------------------------------

  /** What inserting `irlen` bits at `irPre` does to another TAP. */
  function Opened(o: Ctx, irPre: int, irlen: int): Ctx {
    if o.irPre < irPre then o.(irPost := o.irPost + irlen, drPost := o.drPost + 1)
    else o.(irPre := o.irPre + irlen, drPre := o.drPre + 1)
  }

  function ClosedUp(o: Ctx, irPre: int, irlen: int): Ctx {
    if o.irPre > irPre then o.(irPre := o.irPre - irlen, drPre := o.drPre - 1)
    else o.(irPost := o.irPost - irlen, drPost := o.drPost - 1)
  }

  function OpenAll(cs: Contexts, t: Tap, irPre: int, irlen: int): (r: Contexts)
    ensures r.Keys == cs.Keys
  {
    map u | u in cs :: if u == t || !cs[u].enabled then cs[u] else Opened(cs[u], irPre, irlen)
  }

  function CloseAll(cs: Contexts, t: Tap, irPre: int, irlen: int): (r: Contexts)
    ensures r.Keys == cs.Keys
  {
    map u | u in cs :: if u == t || !cs[u].enabled then cs[u] else ClosedUp(cs[u], irPre, irlen)
  }

  function InsertAt(order: seq<Tap>, k: nat, t: Tap): seq<Tap>
    requires k <= |order|
  {
    order[..k] + [t] + order[k..]
  }

  function DropAt(order: seq<Tap>, k: nat): seq<Tap>
    requires k < |order|
  {
    order[..k] + order[k + 1..]
  }

  lemma {:induction false} InsertSums(order: seq<Tap>, k: nat, t: Tap, j: nat)
    requires k <= |order| && j <= |order|
    ensures var n := InsertAt(order, k, t);
            && (j < k ==> n[..j] == order[..j] && SumIr(n[j + 1..]) == SumIr(order[j + 1..]) + t.irlen && n[j] == order[j])
            && (j == k ==> n[..j] == order[..j] && n[j + 1..] == order[j..] && n[j] == t)
            && (k < j ==> SumIr(n[..j]) == SumIr(order[..j - 1]) + t.irlen && n[j + 1..] == order[j..]
                          && n[j] == order[j - 1])
  {
    var n := InsertAt(order, k, t);
    Sum1(t);
    if j < k {
      assert n[j + 1..] == order[j + 1..k] + ([t] + order[k..]);
      SumIrConcat(order[j + 1..k], [t] + order[k..]);
      SumIrConcat([t], order[k..]);
      assert order[j + 1..] == order[j + 1..k] + order[k..];
      SumIrConcat(order[j + 1..k], order[k..]);
    } else if k < j {
      assert n[..j] == order[..k] + ([t] + order[k..j - 1]);
      SumIrConcat(order[..k], [t] + order[k..j - 1]);
      SumIrConcat([t], order[k..j - 1]);
      assert order[..j - 1] == order[..k] + order[k..j - 1];
      SumIrConcat(order[..k], order[k..j - 1]);
    }
  }

  /** Inserting at a boundary keeps the tiling. `cs` already holds the new
      TAP's context, with its own padding computed from the new totals. */
  lemma {:induction false} InsertTiles(cs: Contexts, order: seq<Tap>, t: Tap, k: nat, was: Contexts)
    requires Tiled(was, order) && t !in order && k <= |order| && t.irlen > 0
    requires t in cs && cs == was[t := cs[t]]
    requires cs[t].enabled && cs[t].irPre == SumIr(order[..k]) && cs[t].irPost == SumIr(order[k..])
    requires cs[t].drPre == k && cs[t].drPost == |order| - k
    ensures Tiled(OpenAll(cs, t, cs[t].irPre, t.irlen), InsertAt(order, k, t))
  {
    var n, r := InsertAt(order, k, t), OpenAll(cs, t, cs[t].irPre, t.irlen);
    assert NoDup(n) by { InsertNoDup(order, k, t); }
    forall j | 0 <= j < |n| ensures Placed(r, n, j) { InsertPlaced(cs, order, t, k, was, j); }
    forall u | u in r && r[u].enabled
      ensures u in n
    {
      if u == t {
        assert n[k] == t;
      } else {
        assert u in order;
      }
    }
  }

  lemma {:induction false} InsertPlaced(cs: Contexts, order: seq<Tap>, t: Tap, k: nat, was: Contexts, j: nat)
    requires Tiled(was, order) && t !in order && k <= |order| && t.irlen > 0 && j <= |order|
    requires t in cs && cs == was[t := cs[t]]
    requires cs[t].enabled && cs[t].irPre == SumIr(order[..k]) && cs[t].irPost == SumIr(order[k..])
    requires cs[t].drPre == k && cs[t].drPost == |order| - k
    ensures Placed(OpenAll(cs, t, cs[t].irPre, t.irlen), InsertAt(order, k, t), j)
  {
    InsertSums(order, k, t, j);
    if j < k {
      assert Placed(was, order, j);
      SumIrGrows(order, j, k);
      assert order[j] != t;
    } else if k < j {
      assert Placed(was, order, j - 1);
      assert order[j - 1] != t;
      if k < j - 1 {
        SumIrGrows(order, k, j - 1);
      }
    }
  }

  lemma {:induction false} InsertNoDup(order: seq<Tap>, k: nat, t: Tap)
    requires NoDup(order) && t !in order && k <= |order|
    ensures NoDup(InsertAt(order, k, t))
  {}

  lemma {:induction false} DropSums(order: seq<Tap>, k: nat, j: nat)
    requires k < |order| && j < |order| - 1
    ensures var n := DropAt(order, k);
            && (j < k ==> n[j] == order[j] && n[..j] == order[..j]
                          && SumIr(n[j + 1..]) == SumIr(order[j + 1..]) - order[k].irlen)
            && (k <= j ==> n[j] == order[j + 1] && n[j + 1..] == order[j + 2..]
                           && SumIr(n[..j]) == SumIr(order[..j + 1]) - order[k].irlen)
  {
    var n, t := DropAt(order, k), order[k];
    InsertSums(n, k, t, if j < k then j else j + 1);
    assert InsertAt(n, k, t) == order;
  }

  lemma {:induction false} DropPlaced(cs: Contexts, order: seq<Tap>, k: nat, after: Contexts, j: nat)
    requires Tiled(cs, order) && k < |order| && order[k] in cs && j < |order| - 1
    requires forall u :: u in after && u != order[k] ==> u in cs && after[u] == CloseAll(cs, order[k], cs[order[k]].irPre, order[k].irlen)[u]
    requires forall u :: u in order && u != order[k] ==> u in after
    ensures Placed(after, DropAt(order, k), j)
  {
    assert Placed(cs, order, k);
    DropSums(order, k, j);
    if j < k {
      assert Placed(cs, order, j) && order[j] != order[k];
      SumIrGrows(order, j, k);
    } else {
      assert Placed(cs, order, j + 1) && order[j + 1] != order[k];
      SumIrGrows(order, k, j + 1);
    }
  }

  /** Removal keeps the tiling of the others. */
  lemma {:induction false} DropTiles(cs: Contexts, order: seq<Tap>, k: nat, after: Contexts)
    requires Tiled(cs, order) && k < |order| && order[k] in cs
    requires forall u :: u in after && u != order[k] ==> u in cs && after[u] == CloseAll(cs, order[k], cs[order[k]].irPre, order[k].irlen)[u]
    requires forall u :: u in order && u != order[k] ==> u in after
    requires order[k] in after ==> !after[order[k]].enabled
    ensures Tiled(after, DropAt(order, k))
  {
    var n, t := DropAt(order, k), order[k];
    assert Placed(cs, order, k);
    forall j | 0 <= j < |n| ensures Placed(after, n, j) { DropPlaced(cs, order, k, after, j); }
    forall u | u in after && after[u].enabled
      ensures u in n
    {
      var m :| 0 <= m < |order| && order[m] == u;
      assert n[if m < k then m else m - 1] == u;
    }
  }
}
