/** TAP registration as functions on the contexts, and what each of them
    keeps: the tiling, the links and the tree. */
module ChainOps {
  import opened Wrappers
  import opened ChainGeometry
  import opened ChainLinks

  /** Every context belongs to a child of the chain, and the other way round. */
  ghost predicate Known(cs: Contexts, children: seq<Tap>, nextId: nat) {
    && NoDup(children) && (forall t :: t in cs <==> t in children)
    && (forall t :: t in cs ==> t.id < nextId && t.irlen > 0)
  }

  ghost predicate Sound(cs: Contexts, children: seq<Tap>, nextId: nat, order: seq<Tap>) {
    Tiled(cs, order) && Linked(cs) && Known(cs, children, nextId)
  }

  /** `t` entered with context `ctx` into a chain of the given totals. */
  function Attached(cs: Contexts, t: Tap, ctx: Ctx, totalIr: int, totalDr: int): (r: Contexts)
    ensures r.Keys == cs.Keys + {t}
  {
    OpenAll(cs[t := ctx.(irPost := totalIr - ctx.irPre, drPost := totalDr - ctx.drPre)], t, ctx.irPre, t.irlen)
  }

  function Detached(cs: Contexts, t: Tap): (r: Contexts)
    requires t in cs
    ensures r.Keys == cs.Keys
  {
    if !cs[t].enabled then cs
    else
      var closed := CloseAll(cs, t, cs[t].irPre, t.irlen);
      closed[t := closed[t].(enabled := false, currentIr := None)]
  }

  function Popped(cs: Contexts, t: Tap): (r: Contexts)
    requires t in cs
    ensures r.Keys == cs.Keys - {t}
  {
    if cs[t].enabled then CloseAll(cs - {t}, t, cs[t].irPre, t.irlen) else cs - {t}
  }

  function Removed(cs: Contexts, t: Tap): (r: Contexts)
    requires t in cs
    ensures r.Keys == cs.Keys - {t}
  {
    Orphaned(Popped(cs, t), t, cs[t])
  }

  lemma {:induction false} WithoutDrops(order: seq<Tap>, k: nat)
    requires k < |order| && NoDup(order)
    ensures Without(order, order[k]) == DropAt(order, k)
    decreases |order|
  {
    var rest := order[1..];
    if k == 0 {
      assert DropAt(order, 0) == rest;
    } else {
      assert order[0] != order[k];
      assert NoDup(rest) by {
        forall i, j | 0 <= i < j < |rest| ensures rest[i] != rest[j] { assert order[i + 1] != order[j + 1]; }
      }
      WithoutDrops(rest, k - 1);
      assert rest[k - 1] == order[k];
      assert DropAt(order, k) == [order[0]] + DropAt(rest, k - 1);
    }
  }

  lemma {:induction false} WithoutAbsent(order: seq<Tap>, t: Tap)
    requires t !in order
    ensures Without(order, t) == order
    decreases |order|
  {
    if order != [] {
      WithoutAbsent(order[1..], t);
      assert order == [order[0]] + order[1..];
    }
  }

  lemma {:induction false} InOrderKnown(cs: Contexts, order: seq<Tap>, u: Tap)
    requires Tiled(cs, order)
    ensures u in order <==> u in cs && cs[u].enabled
  {
    if u in order {
      var j :| 0 <= j < |order| && order[j] == u;
      assert Placed(cs, order, j);
    }
  }

  // ----- Attaching ------------------------------------------------------------------

  lemma {:induction false} AttachTiles(cs: Contexts, order: seq<Tap>, t: Tap, ctx: Ctx, k: nat)
    requires Tiled(cs, order) && t !in order && t.irlen > 0
    requires k <= |order| && ctx.enabled && ctx.irPre == SumIr(order[..k]) && ctx.drPre == k
    ensures Tiled(Attached(cs, t, ctx, SumIr(order), |order|), InsertAt(order, k, t))
    ensures SumIr(InsertAt(order, k, t)) == SumIr(order) + t.irlen
  {
    assert order == order[..k] + order[k..];
    SumIrConcat(order[..k], order[k..]);
    SumIrConcat(order[..k] + [t], order[k..]);
    SumIrConcat(order[..k], [t]);
    Sum1(t);
    var placed := ctx.(irPost := SumIr(order) - ctx.irPre, drPost := |order| - ctx.drPre);
    InsertTiles(cs[t := placed], order, t, k, cs);
  }

  lemma {:induction false} AttachSameLinks(cs: Contexts, t: Tap, ctx: Ctx, totalIr: int, totalDr: int)
    ensures SameLinks(cs[t := ctx], Attached(cs, t, ctx, totalIr, totalDr))
    ensures t in cs && ctx.controller == cs[t].controller && ctx.gated == cs[t].gated ==> SameLinks(cs, cs[t := ctx])
  {}

  lemma {:induction false} AttachLinks(cs: Contexts, t: Tap, ctx: Ctx, totalIr: int, totalDr: int)
    requires Linked(cs)
    requires if t in cs then ctx.controller == cs[t].controller && ctx.gated == cs[t].gated
             else ctx.controller.None? && ctx.gated == []
    ensures Linked(Attached(cs, t, ctx, totalIr, totalDr))
  {
    AttachSameLinks(cs, t, ctx, totalIr, totalDr);
    if t in cs {
      SameLinksLinked(cs, cs[t := ctx]);
    } else {
      JoinLinked(cs, t, ctx);
    }
    SameLinksLinked(cs[t := ctx], Attached(cs, t, ctx, totalIr, totalDr));
  }

  lemma {:induction false} KnownSnoc(cs: Contexts, children: seq<Tap>, nextId: nat, t: Tap, after: Contexts)
    requires Known(cs, children, nextId) && t.id == nextId && t.irlen > 0 && after.Keys == cs.Keys + {t}
    ensures Known(after, children + [t], nextId + 1) && t !in cs
  {
    assert t !in children;
    NoDupSnoc(children, t);
  }

  // ----- Detaching and removing --------------------------------------------------------

  lemma {:induction false} DetachKeepsLinks(cs: Contexts, t: Tap)
    requires t in cs
    ensures SameLinks(cs, Detached(cs, t))
    ensures forall u :: u in cs ==> Detached(cs, t)[u].enabled == (cs[u].enabled && u != t)
  {}

  lemma {:induction false} DetachTiles(cs: Contexts, order: seq<Tap>, t: Tap)
    requires Tiled(cs, order) && t in cs
    ensures Tiled(Detached(cs, t), Without(order, t))
    ensures cs[t].enabled ==> SumIr(Without(order, t)) == SumIr(order) - t.irlen && |Without(order, t)| == |order| - 1
    ensures !cs[t].enabled ==> Without(order, t) == order
  {
    InOrderKnown(cs, order, t);
    if cs[t].enabled {
      var k :| 0 <= k < |order| && order[k] == t;
      WithoutDrops(order, k);
      forall u | u in order ensures u in cs { InOrderKnown(cs, order, u); }
      DropTiles(cs, order, k, Detached(cs, t));
      DropSum(order, k);
    } else {
      WithoutAbsent(order, t);
    }
  }

  lemma {:induction false} DetachSound(cs: Contexts, order: seq<Tap>, t: Tap)
    requires Tiled(cs, order) && Linked(cs) && t in cs
    ensures Tiled(Detached(cs, t), Without(order, t)) && Linked(Detached(cs, t))
    ensures cs[t].enabled ==> SumIr(Without(order, t)) == SumIr(order) - t.irlen && |Without(order, t)| == |order| - 1
    ensures !cs[t].enabled ==> Without(order, t) == order
  {
    DetachTiles(cs, order, t);
    DetachKeepsLinks(cs, t);
    SameLinksLinked(cs, Detached(cs, t));
  }

  lemma {:induction false} DropSum(order: seq<Tap>, k: nat)
    requires k < |order|
    ensures SumIr(DropAt(order, k)) == SumIr(order) - order[k].irlen
  {
    var t := order[k];
    assert order == order[..k] + ([t] + order[k + 1..]);
    SumIrConcat(order[..k], [t] + order[k + 1..]);
    SumIrConcat([t], order[k + 1..]);
    SumIrConcat(order[..k], order[k + 1..]);
    Sum1(t);
  }

  lemma {:induction false} PopTiles(cs: Contexts, order: seq<Tap>, t: Tap)
    requires Tiled(cs, order) && t in cs
    ensures Tiled(Popped(cs, t), Without(order, t))
    ensures cs[t].enabled ==> SumIr(Without(order, t)) == SumIr(order) - t.irlen && |Without(order, t)| == |order| - 1
    ensures !cs[t].enabled ==> Without(order, t) == order
  {
    InOrderKnown(cs, order, t);
    forall u | u in order ensures u in cs { InOrderKnown(cs, order, u); }
    if cs[t].enabled {
      var k :| 0 <= k < |order| && order[k] == t;
      WithoutDrops(order, k);
      DropTiles(cs, order, k, Popped(cs, t));
      DropSum(order, k);
    } else {
      WithoutAbsent(order, t);
      forall k | 0 <= k < |order|
        ensures Placed(cs - {t}, order, k)
      {
        assert Placed(cs, order, k) && order[k] in order;
      }
    }
  }

  lemma {:induction false} RemoveLinks(cs: Contexts, t: Tap)
    requires Linked(cs) && t in cs
    ensures Linked(Removed(cs, t)) && SameGeometry(Popped(cs, t), Removed(cs, t))
  {
    OrphanedMutual(cs, t);
    PoppedSameLinks(cs, t);
    SameLinksLinked(Orphaned(cs - {t}, t, cs[t]), Removed(cs, t));
  }

  lemma {:induction false} PoppedSameLinks(cs: Contexts, t: Tap)
    requires t in cs
    ensures SameLinks(Orphaned(cs - {t}, t, cs[t]), Removed(cs, t))
    ensures SameGeometry(Popped(cs, t), Removed(cs, t))
  {
    assert SameLinks(cs - {t}, Popped(cs, t));
    OrphanedSame(cs - {t}, Popped(cs, t), t, cs[t]);
  }

  lemma {:induction false} OrphanedSame(a: Contexts, b: Contexts, t: Tap, ctx: Ctx)
    requires SameLinks(a, b)
    ensures SameLinks(Orphaned(a, t, ctx), Orphaned(b, t, ctx)) && SameGeometry(b, Orphaned(b, t, ctx))
  {}

  lemma {:induction false} RemoveSound(cs: Contexts, order: seq<Tap>, children: seq<Tap>, nextId: nat, t: Tap)
    requires Sound(cs, children, nextId, order) && t in cs
    ensures Sound(Removed(cs, t), Without(children, t), nextId, Without(order, t))
    ensures SumIr(Without(order, t)) == SumIr(order) - if cs[t].enabled then t.irlen else 0
    ensures |Without(order, t)| == |order| - if cs[t].enabled then 1 else 0
  {
    PopTiles(cs, order, t);
    RemoveLinks(cs, t);
    SameGeometryTiled(Popped(cs, t), Removed(cs, t), Without(order, t));
    KnownWithout(cs, children, nextId, t, Removed(cs, t));
  }

  lemma {:induction false} KnownWithout(cs: Contexts, children: seq<Tap>, nextId: nat, t: Tap, after: Contexts)
    requires Known(cs, children, nextId) && after.Keys == cs.Keys - {t}
    ensures Known(after, Without(children, t), nextId)
  {
    WithoutRemoves(children, t);
  }
}
