/** Controller and gated links between TAPs of a chain. */
module ChainLinks {
  import opened Wrappers
  import opened ChainGeometry

  /** A TAP names its controller exactly when the controller lists it. */
  predicate Mutual(cs: Contexts) {
    forall t, c {:trigger t in cs[c].gated} {:trigger cs[t].controller, cs[c].gated} ::
      t in cs && c in cs ==> (cs[t].controller == Some(c) <==> t in cs[c].gated)
  }

  predicate ControllersInside(cs: Contexts) {
    forall t {:trigger cs[t].controller} :: t in cs && cs[t].controller.Some? ==> cs[t].controller.value in cs
  }

  predicate GatedInside(cs: Contexts) {
    forall c, g :: c in cs && g in cs[c].gated ==> g in cs
  }

  predicate GatedOnce(cs: Contexts) {
    forall c :: c in cs ==> NoDup(cs[c].gated)
  }

  predicate Linked(cs: Contexts) {
    Mutual(cs) && ControllersInside(cs) && GatedInside(cs) && GatedOnce(cs)
  }

  /** `list.remove` */
  function Without(s: seq<Tap>, t: Tap): seq<Tap> {
    if s == [] then [] else if s[0] == t then s[1..] else [s[0]] + Without(s[1..], t)
  }

  lemma {:induction false} WithoutRemoves(s: seq<Tap>, t: Tap)
    requires NoDup(s)
    ensures NoDup(Without(s, t)) && t !in Without(s, t)
    ensures forall u :: u != t ==> (u in Without(s, t) <==> u in s)
    decreases |s|
  {
    if s != [] {
      var rest := s[1..];
      assert NoDup(rest) by {
        forall i, j | 0 <= i < j < |rest| ensures rest[i] != rest[j] { assert s[i + 1] != s[j + 1]; }
      }
      WithoutRemoves(rest, t);
      assert s == [s[0]] + rest;
      forall u | u in rest ensures u != s[0] {
        var i :| 0 <= i < |rest| && rest[i] == u;
        assert s[i + 1] == u;
      }
      if s[0] != t {
        NoDupCons(s[0], Without(rest, t));
      }
    }
  }

  lemma {:induction false} NoDupCons(x: Tap, s: seq<Tap>)
    requires NoDup(s) && x !in s
    ensures NoDup([x] + s)
  {}

  lemma {:induction false} NoDupSnoc(s: seq<Tap>, x: Tap)
    requires NoDup(s) && x !in s
    ensures NoDup(s + [x])
  {}

  /** `__clear_controller` */
  function ClearLink(cs: Contexts, t: Tap): (r: Contexts)
    requires t in cs
    ensures r.Keys == cs.Keys
  {
    if cs[t].controller.None? then cs
    else
      var c := cs[t].controller.value;
      var cs1 := if c in cs && t in cs[c].gated then cs[c := cs[c].(gated := Without(cs[c].gated, t))] else cs;
      cs1[t := cs1[t].(controller := None)]
  }

  /** `__set_controller`, when the controller is in the chain. */
  function SetLink(cs: Contexts, t: Tap, controller: Option<Tap>): (r: Contexts)
    requires t in cs && (controller.Some? ==> controller.value in cs)
    ensures r.Keys == cs.Keys
  {
    var cs1 := ClearLink(cs, t);
    if controller.None? then cs1
    else
      var c := controller.value;
      var cs2 := cs1[t := cs1[t].(controller := controller)];
      if t in cs2[c].gated then cs2 else cs2[c := cs2[c].(gated := cs2[c].gated + [t])]
  }

  /** Only links differ. */
  predicate SameGeometry(a: Contexts, b: Contexts) {
    a.Keys == b.Keys &&
    forall t :: t in a ==> b[t] == a[t].(controller := b[t].controller, gated := b[t].gated)
  }

  /** Only geometry differs. */
  predicate SameLinks(a: Contexts, b: Contexts) {
    a.Keys == b.Keys &&
    forall t :: t in a ==> b[t].controller == a[t].controller && b[t].gated == a[t].gated
  }

  lemma {:induction false} SameLinksLinked(a: Contexts, b: Contexts)
    requires Linked(a) && SameLinks(a, b)
    ensures Linked(b)
  {}

  lemma {:induction false} SameGeometryTiled(a: Contexts, b: Contexts, order: seq<Tap>)
    requires Tiled(a, order) && SameGeometry(a, b)
    ensures Tiled(b, order)
  {
    forall k | 0 <= k < |order|
      ensures Placed(b, order, k)
    {
      assert Placed(a, order, k);
    }
  }

  /** The links of `a` with those of `t` to its controller cut. */
  predicate Cut(a: Contexts, b: Contexts, t: Tap)
    requires t in a
  {
    && a.Keys == b.Keys
    && (forall u :: u in a ==> b[u].controller == if u == t then None else a[u].controller)
    && (forall u :: u in a ==> b[u].gated == if a[t].controller == Some(u) then Without(a[u].gated, t) else a[u].gated)
  }

  lemma {:induction false} CutMembers(a: Contexts, b: Contexts, t: Tap, c: Tap, u: Tap)
    requires t in a && c in a && Linked(a) && Cut(a, b, t)
    ensures u in b[c].gated <==> u in a[c].gated && u != t
    ensures NoDup(b[c].gated)
  {
    assert NoDup(a[c].gated);
    WithoutRemoves(a[c].gated, t);
    assert a[t].controller == Some(c) <==> t in a[c].gated;
  }

  lemma {:induction false} CutLinked(a: Contexts, b: Contexts, t: Tap)
    requires t in a && Linked(a) && Cut(a, b, t)
    ensures Linked(b)
    ensures forall c :: c in b ==> t !in b[c].gated
  {
    forall u, c | u in b && c in b
      ensures b[u].controller == Some(c) <==> u in b[c].gated
    {
      CutMembers(a, b, t, c, u);
    }
    forall c, g | c in b && g in b[c].gated
      ensures g in b
    {
      CutMembers(a, b, t, c, g);
    }
    forall c | c in b
      ensures NoDup(b[c].gated) && t !in b[c].gated
    {
      CutMembers(a, b, t, c, t);
    }
  }

  lemma {:induction false} ClearLinkCuts(cs: Contexts, t: Tap)
    requires t in cs && Linked(cs)
    ensures Cut(cs, ClearLink(cs, t), t) && SameGeometry(cs, ClearLink(cs, t))
  {
    if cs[t].controller.Some? {
      assert t in cs[cs[t].controller.value].gated;
    }
  }

  /** The links of `a`, where nobody lists `t`, with `t` put under `c`. */
  predicate Joined(a: Contexts, b: Contexts, t: Tap, c: Tap)
    requires t in a
  {
    && a.Keys == b.Keys
    && (forall u :: u in a ==> b[u].controller == if u == t then Some(c) else a[u].controller)
    && (forall u :: u in a ==> b[u].gated == if u == c then a[u].gated + [t] else a[u].gated)
  }

  lemma {:induction false} JoinedMembers(a: Contexts, b: Contexts, t: Tap, c: Tap, d: Tap, u: Tap)
    requires t in a && d in a && GatedOnce(a) && Joined(a, b, t, c) && t !in a[d].gated
    ensures u in b[d].gated <==> u in a[d].gated || (d == c && u == t)
    ensures NoDup(b[d].gated)
  {
    assert NoDup(a[d].gated);
    NoDupSnoc(a[d].gated, t);
  }

  lemma {:induction false} JoinedLinked(a: Contexts, b: Contexts, t: Tap, c: Tap)
    requires t in a && c in a && Linked(a) && Joined(a, b, t, c)
    requires a[t].controller.None? && forall u :: u in a ==> t !in a[u].gated
    ensures Linked(b)
  {
    forall u, d | u in b && d in b
      ensures b[u].controller == Some(d) <==> u in b[d].gated
    {
      JoinedMembers(a, b, t, c, d, u);
      assert a[u].controller == Some(d) <==> u in a[d].gated;
    }
    forall d, g | d in b && g in b[d].gated
      ensures g in b
    {
      JoinedMembers(a, b, t, c, d, g);
    }
    forall d | d in b
      ensures NoDup(b[d].gated)
    {
      JoinedMembers(a, b, t, c, d, t);
    }
    forall u | u in b && b[u].controller.Some?
      ensures b[u].controller.value in b
    {
    }
  }

  lemma {:induction false} SetLinkJoins(cs: Contexts, t: Tap, c: Tap)
    requires t in cs && c in cs && t !in ClearLink(cs, t)[c].gated
    ensures Joined(ClearLink(cs, t), SetLink(cs, t, Some(c)), t, c)
    ensures SameGeometry(ClearLink(cs, t), SetLink(cs, t, Some(c)))
  {}

  lemma {:induction false} SetLinkMutual(cs: Contexts, t: Tap, controller: Option<Tap>)
    requires t in cs && Linked(cs) && (controller.Some? ==> controller.value in cs)
    ensures Linked(SetLink(cs, t, controller)) && SameGeometry(cs, SetLink(cs, t, controller))
    ensures SetLink(cs, t, controller)[t].controller == controller
    ensures forall u :: u in cs && u != t ==> SetLink(cs, t, controller)[u].controller == cs[u].controller
  {
    ClearLinkCuts(cs, t);
    CutLinked(cs, ClearLink(cs, t), t);
    if controller.Some? {
      SetLinkJoins(cs, t, controller.value);
      SetLinkAfter(cs, ClearLink(cs, t), SetLink(cs, t, controller), t, controller.value);
    }
  }

  lemma {:induction false} SetLinkAfter(cs: Contexts, a: Contexts, b: Contexts, t: Tap, c: Tap)
    requires t in cs && c in cs && Cut(cs, a, t) && SameGeometry(cs, a) && Linked(a)
    requires Joined(a, b, t, c) && SameGeometry(a, b) && forall u :: u in a ==> t !in a[u].gated
    ensures Linked(b) && SameGeometry(cs, b) && b[t].controller == Some(c)
    ensures forall u :: u in cs && u != t ==> b[u].controller == cs[u].controller
  {
    JoinedLinked(a, b, t, c);
  }

  /** A new TAP without links joins the links. */
  lemma {:induction false} JoinLinked(cs: Contexts, t: Tap, ctx: Ctx)
    requires Linked(cs) && t !in cs && ctx.controller.None? && ctx.gated == []
    ensures Linked(cs[t := ctx])
  {}

  /** The contexts left when `t`, with context `ctx`, is gone: its controller
      forgets it and the TAPs it gated lose their controller. */
  function Orphaned(cs: Contexts, t: Tap, ctx: Ctx): (r: Contexts)
    ensures r.Keys == cs.Keys
  {
    map u | u in cs ::
      cs[u].(controller := if u in ctx.gated then None else cs[u].controller,
             gated := if ctx.controller == Some(u) && t in cs[u].gated then Without(cs[u].gated, t) else cs[u].gated)
  }

  lemma {:induction false} OrphanedMembers(cs: Contexts, t: Tap, c: Tap, u: Tap)
    requires t in cs && Linked(cs) && c in cs && c != t
    ensures u in Orphaned(cs - {t}, t, cs[t])[c].gated <==> u in cs[c].gated && u != t
    ensures NoDup(Orphaned(cs - {t}, t, cs[t])[c].gated)
  {
    assert NoDup(cs[c].gated);
    WithoutRemoves(cs[c].gated, t);
    assert cs[t].controller == Some(c) <==> t in cs[c].gated;
  }

  lemma {:induction false} OrphanedMutual(cs: Contexts, t: Tap)
    requires t in cs && Linked(cs)
    ensures Linked(Orphaned(cs - {t}, t, cs[t]))
    ensures SameGeometry(cs - {t}, Orphaned(cs - {t}, t, cs[t]))
  {
    var r := Orphaned(cs - {t}, t, cs[t]);
    forall u, c | u in r && c in r
      ensures r[u].controller == Some(c) <==> u in r[c].gated
    {
      OrphanedMembers(cs, t, c, u);
      assert cs[u].controller == Some(c) <==> u in cs[c].gated;
      assert cs[u].controller == Some(t) <==> u in cs[t].gated;
    }
    forall u | u in r && r[u].controller.Some?
      ensures r[u].controller.value in r
    {
      assert cs[u].controller == Some(t) <==> u in cs[t].gated;
    }
    forall c, g | c in r && g in r[c].gated
      ensures g in r
    {
      OrphanedMembers(cs, t, c, g);
    }
    forall c | c in r
      ensures NoDup(r[c].gated)
    {
      OrphanedMembers(cs, t, c, t);
    }
  }
}
