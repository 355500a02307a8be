/** The chain object: TAP registration, refresh after a reset, and the
    translation of TapOps with the geometry and IR cache it keeps. */
module Chain {
  import opened BitSequences
  import opened Wrappers
  import opened ScanChain
  import opened ChainGeometry
  import opened ChainLinks
  import opened ChainOps
  import opened ChainRefresh
  import opened ChainWiring
  import J = JtagOps
  import C = ChainCompiler
  import D = ChainDiscovery

  class Chain {
    var contexts: Contexts
    var children: seq<Tap>
    var totalIrlen: int
    var totalDrlen: int
    var nextId: nat           // identities not used yet
    ghost var order: seq<Tap> // the enabled TAPs, TDO end first

    /** The enabled TAPs tile the chain, links are mutual, the contexts are those
        of the children, and detached TAPs are cached as nothing or BYPASS. */
    ghost predicate Valid()
      reads this
    {
      && Sound(contexts, children, nextId, order) && Parked(contexts)
      && totalIrlen == SumIr(order) && totalDrlen == |order|
    }

    constructor ()
      ensures Valid() && order == [] && children == [] && contexts == map[]
    {
      contexts, children, totalIrlen, totalDrlen, nextId, order := map[], [], 0, 0, 0, [];
    }

    // ----- Geometry helpers ----------------------------------------------------

    /** Makes room for `t`, whose own context already holds its position. */
    method ApplyInsertionGeometry(t: Tap)
      requires t in contexts
      modifies `contexts, `totalIrlen, `totalDrlen
      ensures totalIrlen == old(totalIrlen) + t.irlen && totalDrlen == old(totalDrlen) + 1
      ensures contexts == Attached(old(contexts), t, old(contexts)[t], old(totalIrlen), old(totalDrlen))
    {
      var irPre := contexts[t].irPre;
      totalIrlen, totalDrlen := totalIrlen + t.irlen, totalDrlen + 1;
      contexts := contexts[t := contexts[t].(irPost := totalIrlen - irPre - t.irlen,
                                             drPost := totalDrlen - contexts[t].drPre - 1)];
      MakeRoom(t, irPre);
    }

    /** The loop over the other contexts, in any order. */
    method MakeRoom(t: Tap, irPre: int)
      modifies `contexts
      ensures contexts == OpenAll(old(contexts), t, irPre, t.irlen)
    {
      ghost var start, goal := contexts, OpenAll(contexts, t, irPre, t.irlen);
      var todo := contexts.Keys;
      while todo != {}
        invariant MovedBut(start, goal, contexts, todo)
        decreases todo
      {
        var u :| u in todo;
        MovedMore(start, goal, contexts, todo, u);
        OpenAllAt(start, t, irPre, u);
        todo := todo - {u};
        if u != t && contexts[u].enabled {
          MakeRoomAt(u, t, irPre);
        }
      }
      MovedAll(start, goal, contexts);
    }

    method MakeRoomAt(u: Tap, t: Tap, irPre: int)
      requires u in contexts
      modifies `contexts
      ensures contexts == old(contexts)[u := Opened(old(contexts)[u], irPre, t.irlen)]
    {
      var c := contexts[u];
      if c.irPre < irPre {
        contexts := contexts[u := c.(irPost := c.irPost + t.irlen, drPost := c.drPost + 1)];
      } else {
        contexts := contexts[u := c.(irPre := c.irPre + t.irlen, drPre := c.drPre + 1)];
      }
    }

    method ApplyRemovalGeometry(t: Tap, irPre: int)
      modifies `contexts, `totalIrlen, `totalDrlen
      ensures totalIrlen == old(totalIrlen) - t.irlen && totalDrlen == old(totalDrlen) - 1
      ensures contexts == CloseAll(old(contexts), t, irPre, t.irlen)
    {
      totalIrlen, totalDrlen := totalIrlen - t.irlen, totalDrlen - 1;
      TakeRoom(t, irPre);
    }

    method TakeRoom(t: Tap, irPre: int)
      modifies `contexts
      ensures contexts == CloseAll(old(contexts), t, irPre, t.irlen)
    {
      ghost var start, goal := contexts, CloseAll(contexts, t, irPre, t.irlen);
      var todo := contexts.Keys;
      while todo != {}
        invariant MovedBut(start, goal, contexts, todo)
        decreases todo
      {
        var u :| u in todo;
        MovedMore(start, goal, contexts, todo, u);
        CloseAllAt(start, t, irPre, u);
        todo := todo - {u};
        if u != t && contexts[u].enabled {
          TakeRoomAt(u, t, irPre);
        }
      }
      MovedAll(start, goal, contexts);
    }

    method TakeRoomAt(u: Tap, t: Tap, irPre: int)
      requires u in contexts
      modifies `contexts
      ensures contexts == old(contexts)[u := ClosedUp(old(contexts)[u], irPre, t.irlen)]
    {
      var c := contexts[u];
      if c.irPre > irPre {
        contexts := contexts[u := c.(irPre := c.irPre - t.irlen, drPre := c.drPre - 1)];
      } else {
        contexts := contexts[u := c.(irPost := c.irPost - t.irlen, drPost := c.drPost - 1)];
      }
    }

    /** Raises, with the field already set, when the controller is not in the chain. */
    method SetController(t: Tap, controller: Option<Tap>) returns (ok: bool)
      requires t in contexts
      modifies `contexts
      ensures ok <==> controller.None? || controller.value in old(contexts)
      ensures ok ==> contexts == SetLink(old(contexts), t, controller)
      ensures !ok ==> contexts == ClearLink(old(contexts), t)[t := ClearLink(old(contexts), t)[t].(controller := controller)]
    {
      ClearController(t);
      if controller.None? {
        return true;
      }
      contexts := contexts[t := contexts[t].(controller := controller)];
      var c := controller.value;
      if c !in contexts {
        return false;
      }
      if t !in contexts[c].gated {
        contexts := contexts[c := contexts[c].(gated := contexts[c].gated + [t])];
      }
      ok := true;
    }

    method ClearController(t: Tap)
      requires t in contexts
      modifies `contexts
      ensures contexts == ClearLink(old(contexts), t)
    {
      if contexts[t].controller.None? {
        return;
      }
      var c := contexts[t].controller.value;
      if c in contexts && t in contexts[c].gated {
        contexts := contexts[c := contexts[c].(gated := Without(contexts[c].gated, t))];
      }
      contexts := contexts[t := contexts[t].(controller := None)];
    }

    // ----- Registration -----------------------------------------------------------

    /** Enters `t` with context `ctx` before the k-th TAP. */
    method Enter(t: Tap, ctx: Ctx, ghost k: nat)
      requires Tiled(contexts, order) && Linked(contexts) && totalIrlen == SumIr(order) && totalDrlen == |order|
      requires t !in order && t.irlen > 0
      requires k <= |order| && ctx.enabled && ctx.irPre == SumIr(order[..k]) && ctx.drPre == k
      requires if t in contexts then ctx.controller == contexts[t].controller && ctx.gated == contexts[t].gated
               else ctx.controller.None? && ctx.gated == []
      modifies `contexts, `totalIrlen, `totalDrlen, `order
      ensures Tiled(contexts, order) && Linked(contexts) && totalIrlen == SumIr(order) && totalDrlen == |order|
      ensures order == InsertAt(old(order), k, t) && contexts.Keys == old(contexts).Keys + {t}
      ensures OthersKept(old(contexts), contexts, t) && contexts[t].enabled && contexts[t].currentIr == ctx.currentIr
    {
      AttachTiles(contexts, order, t, ctx, k);
      AttachLinks(contexts, t, ctx, totalIrlen, totalDrlen);
      AttachedOthers(contexts, t, ctx, totalIrlen, totalDrlen);
      EnterGeometry(t, ctx);
      order := InsertAt(order, k, t);
    }

    method EnterGeometry(t: Tap, ctx: Ctx)
      modifies `contexts, `totalIrlen, `totalDrlen
      ensures totalIrlen == old(totalIrlen) + t.irlen && totalDrlen == old(totalDrlen) + 1
      ensures contexts == Attached(old(contexts), t, ctx, old(totalIrlen), old(totalDrlen))
    {
      contexts := contexts[t := ctx];
      ApplyInsertionGeometry(t);
      AttachedTwice(old(contexts), t, ctx, old(totalIrlen), old(totalDrlen));
    }

    /** Puts `t` under a controller of the chain, or under none. */
    method Adopt(t: Tap, controller: Option<Tap>, ghost was: Contexts)
      requires Tiled(contexts, order) && Linked(contexts) && OthersKept(was, contexts, t)
      requires t in contexts && (controller.Some? ==> controller.value in contexts)
      modifies `contexts
      ensures Tiled(contexts, order) && Linked(contexts) && contexts.Keys == old(contexts).Keys
      ensures contexts[t].controller == controller && contexts[t].enabled == old(contexts)[t].enabled
      ensures contexts[t].currentIr == old(contexts)[t].currentIr && OthersKept(was, contexts, t)
    {
      SetLinkMutual(contexts, t, controller);
      SameGeometryTiled(contexts, SetLink(contexts, t, controller), order);
      SetLinkOthers(contexts, SetLink(contexts, t, controller), t);
      OthersKeptTwice(was, contexts, SetLink(contexts, t, controller), t);
      var ok := SetController(t, controller);
    }

    /** Both, with a controller of the chain. */
    method EnterUnder(t: Tap, ctx: Ctx, controller: Option<Tap>, ghost k: nat)
      requires Tiled(contexts, order) && Linked(contexts) && totalIrlen == SumIr(order) && totalDrlen == |order|
      requires t !in order && t.irlen > 0
      requires k <= |order| && ctx.enabled && ctx.irPre == SumIr(order[..k]) && ctx.drPre == k
      requires if t in contexts then ctx.controller == contexts[t].controller && ctx.gated == contexts[t].gated
               else ctx.controller.None? && ctx.gated == []
      requires controller.Some? ==> controller.value in contexts || controller.value == t
      modifies `contexts, `totalIrlen, `totalDrlen, `order
      ensures Tiled(contexts, order) && Linked(contexts) && totalIrlen == SumIr(order) && totalDrlen == |order|
      ensures order == InsertAt(old(order), k, t) && contexts.Keys == old(contexts).Keys + {t}
      ensures OthersKept(old(contexts), contexts, t)
      ensures contexts[t].enabled && contexts[t].controller == controller && contexts[t].currentIr == ctx.currentIr
    {
      ghost var was := contexts;
      Enter(t, ctx, k);
      Adopt(t, controller, was);
    }

    /** Inserts a new TAP at a boundary of the chain: before the k-th TAP.
        Raises, the TAP being in the geometry but not in the tree, when the
        controller has no context. */
    method TapInsert(idcode: Option<Bits>, irlen: nat, irPre: int, drPre: int, controller: Option<Tap>, ghost k: nat)
      returns (t: Tap, ok: bool)
      requires Valid() && irlen > 0
      requires k <= |order| && irPre == SumIr(order[..k]) && drPre == k
      modifies this
      ensures t == Tap(old(nextId), idcode, irlen) && t !in old(contexts) && nextId == old(nextId) + 1
      ensures ok <==> controller.None? || controller.value in old(contexts) || controller.value == t
      ensures order == InsertAt(old(order), k, t) && contexts.Keys == old(contexts).Keys + {t}
      ensures Valid() <==> ok
      ensures contexts[t].controller == controller && children == if ok then old(children) + [t] else old(children)
      ensures ok ==> OthersKept(old(contexts), contexts, t) && contexts[t].enabled && contexts[t].currentIr == None
    {
      t := Tap(nextId, idcode, irlen);
      FreshTap(contexts, children, nextId, order, t);
      var ctx := Ctx(irPre, 0, drPre, 0, None, true, None, []);
      ok := controller.None? || controller.value in contexts || controller.value == t;
      if ok {
        EnterNew(t, ctx, controller, k);
      } else {
        nextId := nextId + 1;
        EnterAstray(t, ctx, controller, k);
        AstrayBreaks(contexts, t);
      }
    }

    /** A new TAP under a known controller, or under none. */
    method EnterNew(t: Tap, ctx: Ctx, controller: Option<Tap>, ghost k: nat)
      requires Valid() && t.id == nextId && t !in contexts && t !in order && t.irlen > 0
      requires k <= |order| && ctx.enabled && ctx.irPre == SumIr(order[..k]) && ctx.drPre == k
      requires ctx.controller.None? && ctx.gated == []
      requires controller.Some? ==> controller.value in contexts || controller.value == t
      modifies this
      ensures Valid() && children == old(children) + [t] && nextId == old(nextId) + 1
      ensures order == InsertAt(old(order), k, t) && contexts.Keys == old(contexts).Keys + {t}
      ensures OthersKept(old(contexts), contexts, t)
      ensures contexts[t].enabled && contexts[t].controller == controller && contexts[t].currentIr == ctx.currentIr
    {
      ghost var was, tree, id := contexts, children, nextId;
      children, nextId := children + [t], nextId + 1;
      EnterUnder(t, ctx, controller, k);
      NewcomerSound(was, contexts, tree, id, order, t);
    }

    /** Brings a detached TAP back, before the k-th TAP. Raises, the TAP being
        back in the geometry, when the controller has no context. */
    method TapReattach(t: Tap, irPre: int, drPre: int, controller: Option<Tap>, ghost k: nat) returns (ok: bool)
      requires Valid()
      requires k <= |order| && irPre == SumIr(order[..k]) && drPre == k
      modifies this
      ensures var back := t in old(contexts) && !old(contexts)[t].enabled;
              && (ok <==> back && (controller.Some? ==> controller.value in old(contexts)))
              && (Valid() <==> ok || !back)
              && (!back ==> order == old(order) && contexts == old(contexts))
              && (back ==> order == InsertAt(old(order), k, t) && t in contexts && contexts[t].controller == controller)
      ensures children == old(children) && nextId == old(nextId) && contexts.Keys == old(contexts).Keys
      ensures ok ==> contexts[t].enabled && contexts[t].currentIr == old(contexts)[t].currentIr
      ensures ok ==> OthersKept(old(contexts), contexts, t)
    {
      if t !in contexts || contexts[t].enabled {
        return false;
      }
      InOrderKnown(contexts, order, t);
      var ctx := contexts[t].(irPre := irPre, drPre := drPre, irPost := 0, drPost := 0, enabled := true);
      ok := controller.None? || controller.value in contexts;
      if ok {
        EnterUnder(t, ctx, controller, k);
        KnownSameKeys(old(contexts), contexts, children, nextId);
        ParkedKept(old(contexts), contexts, t);
      } else {
        EnterAstray(t, ctx, controller, k);
        AstrayBreaks(contexts, t);
      }
    }

    /** In the geometry, but under a controller without context. */
    method EnterAstray(t: Tap, ctx: Ctx, controller: Option<Tap>, ghost k: nat)
      requires Tiled(contexts, order) && Linked(contexts) && totalIrlen == SumIr(order) && totalDrlen == |order|
      requires t !in order && t.irlen > 0
      requires k <= |order| && ctx.enabled && ctx.irPre == SumIr(order[..k]) && ctx.drPre == k
      requires if t in contexts then ctx.controller == contexts[t].controller && ctx.gated == contexts[t].gated
               else ctx.controller.None? && ctx.gated == []
      requires controller.Some? && controller.value !in contexts && controller.value != t
      modifies `contexts, `totalIrlen, `totalDrlen, `order
      ensures order == InsertAt(old(order), k, t) && contexts.Keys == old(contexts).Keys + {t}
      ensures contexts[t].controller == controller
    {
      Enter(t, ctx, k);
      var ok := SetController(t, controller);
    }

    /** Hands `t` to a controller, or to none. Raises when one of them has no
        context; with an unknown controller, only after `t` was made to name it. */
    method TapSetController(t: Tap, controller: Option<Tap>) returns (ok: bool)
      requires Valid()
      modifies `contexts
      ensures ok <==> t in old(contexts) && (controller.Some? ==> controller.value in old(contexts))
      ensures Valid() <==> ok || t !in old(contexts)
      ensures contexts.Keys == old(contexts).Keys && (t !in contexts ==> contexts == old(contexts))
      ensures t in contexts ==> contexts[t].controller == controller
      ensures ok ==> contexts == SetLink(old(contexts), t, controller) && OthersKept(old(contexts), contexts, t)
    {
      if t !in contexts {
        return false;
      }
      ok := SetController(t, controller);
      LinkSoundIff(old(contexts), contexts, children, nextId, order, t, controller, ok);
    }

    /** Takes a TAP out of the geometry; its links survive. */
    method TapDetach(t: Tap) returns (ok: bool)
      requires Valid()
      modifies this
      ensures ok <==> t in old(contexts)
      ensures Valid() && children == old(children) && nextId == old(nextId)
      ensures ok ==> contexts == Detached(old(contexts), t) && order == Without(old(order), t)
      ensures ok ==> LeftOut(old(contexts), contexts, t)
      ensures !ok ==> contexts == old(contexts) && order == old(order)
    {
      ok := t in contexts;
      if ok {
        Leave(t);
        KnownSameKeys(old(contexts), contexts, children, nextId);
        DetachedParked(old(contexts), t);
        DetachLeavesOut(old(contexts), t);
      }
    }

    method Leave(t: Tap)
      requires Tiled(contexts, order) && Linked(contexts) && totalIrlen == SumIr(order) && totalDrlen == |order|
      requires t in contexts
      modifies `contexts, `totalIrlen, `totalDrlen, `order
      ensures Tiled(contexts, order) && Linked(contexts) && totalIrlen == SumIr(order) && totalDrlen == |order|
      ensures contexts == Detached(old(contexts), t) && order == Without(old(order), t)
    {
      DetachSound(contexts, order, t);
      order := Without(order, t);
      DetachGeometry(t);
    }

    method DetachGeometry(t: Tap)
      requires t in contexts
      modifies `contexts, `totalIrlen, `totalDrlen
      ensures contexts == Detached(old(contexts), t)
      ensures totalIrlen == old(totalIrlen) - if old(contexts)[t].enabled then t.irlen else 0
      ensures totalDrlen == old(totalDrlen) - if old(contexts)[t].enabled then 1 else 0
    {
      if !contexts[t].enabled {
        return;
      }
      ApplyRemovalGeometry(t, contexts[t].irPre);
      contexts := contexts[t := contexts[t].(enabled := false, currentIr := None)];
    }

    /** Removes a TAP for good, with its links. Raises when it has no context. */
    method TapRemove(t: Tap) returns (ok: bool)
      requires Valid()
      modifies this
      ensures ok <==> t in old(contexts)
      ensures Valid() && nextId == old(nextId)
      ensures ok ==> contexts == Removed(old(contexts), t) && Unlinked(old(contexts), contexts, t)
      ensures ok ==> order == Without(old(order), t) && children == Without(old(children), t)
      ensures !ok ==> contexts == old(contexts) && order == old(order) && children == old(children)
    {
      ok := t in contexts;
      if ok {
        RemoveKeeps(contexts, order, children, nextId, t, Removed(contexts, t));
        RemoveContext(t);
        order := Without(order, t);
        children := Without(children, t);
      }
    }

    /** Takes the context of `t` out, with its room and its links. */
    method RemoveContext(t: Tap)
      requires t in contexts
      modifies `contexts, `totalIrlen, `totalDrlen
      ensures contexts == Removed(old(contexts), t)
      ensures totalIrlen == old(totalIrlen) - if old(contexts)[t].enabled then t.irlen else 0
      ensures totalDrlen == old(totalDrlen) - if old(contexts)[t].enabled then 1 else 0
    {
      var ctx := contexts[t];
      contexts := contexts - {t};
      if ctx.enabled {
        ApplyRemovalGeometry(t, ctx.irPre);
      }
      ForgetLinks(t, ctx);
    }

    /** `ctx`, just taken out: its controller forgets it, its gated TAPs are freed. */
    method ForgetLinks(t: Tap, ctx: Ctx)
      modifies `contexts
      ensures contexts == Orphaned(old(contexts), t, ctx)
    {
      ghost var start := contexts;
      if ctx.controller.Some? {
        var c := ctx.controller.value;
        if c in contexts && t in contexts[c].gated {
          contexts := contexts[c := contexts[c].(gated := Without(contexts[c].gated, t))];
        }
      }
      ghost var cut := contexts;
      FreeGated(ctx.gated);
      OrphanedInSteps(start, cut, contexts, t, ctx);
    }

    method FreeGated(gated: seq<Tap>)
      modifies `contexts
      ensures contexts == Freed(old(contexts), gated)
    {
      ghost var cut := contexts;
      var i := 0;
      while i < |gated|
        invariant 0 <= i <= |gated| && contexts == Freed(cut, gated[..i])
      {
        assert gated[..i + 1] == gated[..i] + [gated[i]];
        if gated[i] in contexts {
          contexts := contexts[gated[i] := contexts[gated[i]].(controller := None)];
        }
        i := i + 1;
      }
      assert gated[..|gated|] == gated;
    }

    // ----- Translation -----------------------------------------------------------------

    /** Posts the bit-level ops of a batch and keeps the cached instructions. */
    method FlushOps(batch: seq<Posted>) returns (posted: seq<J.Op>, verdicts: seq<Verdict>)
      requires Valid()
      modifies `contexts
      ensures Valid() && Measured(old(contexts))
      ensures Flush(contexts, posted, verdicts) == FlushAll(old(contexts), batch)
    {
      ghost var cs := contexts;
      TiledMeasured(contexts, order);
      posted, verdicts := FlushEach(batch);
      SamePlacesValid(cs, contexts, order, children, nextId);
      FlushParked(cs, batch);
    }

    /** The loop over the ops of a batch. */
    method FlushEach(batch: seq<Posted>) returns (posted: seq<J.Op>, verdicts: seq<Verdict>)
      requires Measured(contexts)
      modifies `contexts
      ensures Flush(contexts, posted, verdicts) == FlushAll(old(contexts), batch)
    {
      ghost var cs := contexts;
      posted, verdicts := [], [];
      var i := 0;
      FlushedNone(cs, batch);
      while i < |batch|
        invariant 0 <= i <= |batch| && FlushedSoFar(cs, batch, i, Flush(contexts, posted, verdicts))
      {
        FlushedStep(cs, batch, i, Flush(contexts, posted, verdicts));
        var ops, verdict := FlushOp(batch[i].tap, batch[i].op);
        posted, verdicts := posted + ops, verdicts + [verdict];
        i := i + 1;
      }
      FlushedAll(cs, batch, Flush(contexts, posted, verdicts));
    }

    /** One op of a batch. */
    method FlushOp(t: Tap, op: C.TapOp) returns (ops: seq<J.Op>, verdict: Verdict)
      requires Measured(contexts)
      modifies `contexts
      ensures Flush(contexts, ops, [verdict]) == FlushOne(old(contexts), t, op)
    {
      if t !in contexts {
        return [], Unregistered;
      }
      if !contexts[t].enabled {
        return [], NotAttached;
      }
      var c := C.Compile(GeometryOf(t, contexts[t]), contexts[t].currentIr, op);
      ops, verdict := c.ops, Translated(c.reading);
      InvalidateIrCache(t, c.loads);
    }

    /** After an IR scan: `t` holds what was shifted, everybody else BYPASS. */
    method InvalidateIrCache(t: Tap, loads: Option<Bits>)
      requires t in contexts
      modifies `contexts
      ensures contexts == Cached(old(contexts), t, loads) && SamePlaces(old(contexts), contexts)
      ensures loads.None? ==> contexts == old(contexts)
      ensures loads.Some? ==> contexts[t].currentIr == loads
      ensures loads.Some? ==> forall u :: u in contexts && u != t ==> contexts[u].currentIr == Some(Ones(u.irlen))
    {
      if loads.None? {
        return;
      }
      contexts := contexts[t := contexts[t].(currentIr := loads)];
      var todo := contexts.Keys - {t};
      while todo != {}
        invariant todo <= contexts.Keys - {t} && contexts.Keys == old(contexts).Keys
        invariant forall u :: u in contexts ==>
          contexts[u] == if u in todo then old(contexts)[u] else Cached(old(contexts), t, loads)[u]
        decreases todo
      {
        var u :| u in todo;
        todo := todo - {u};
        contexts := contexts[u := contexts[u].(currentIr := Some(Ones(u.irlen)))];
      }
    }

    // ----- Refresh ------------------------------------------------------------------

    /** The enabled TAPs in chain order, then the detached ones. */
    method Walk() returns (taps: seq<Tap>)
      requires Valid()
      ensures taps == WalkOf(contexts, children, order)
      ensures forall t :: t in taps <==> t in children
    {
      taps := EnabledInOrder(contexts, order);
      var i := 0;
      while i < |children|
        invariant 0 <= i <= |children| && taps == WalkOf(contexts, children[..i], order)
      {
        var t := children[i];
        WalkSnoc(contexts, children, i, order);
        if !contexts[t].enabled {
          taps := taps + [t];
        }
        i := i + 1;
      }
      assert children[..i] == children;
      WalkMembers(contexts, children, order);
      WalkIsChildren(contexts, children, nextId, order);
    }

    /** Gives every slot that some TAP fills to the first such TAP, and raises
        exactly when a TAP fills two slots. */
    method MatchIdentities(slots: seq<Slot>) returns (ok: bool, claimed: Claims)
      requires Valid()
      ensures var walk := WalkOf(contexts, children, order);
              && (forall t :: t in walk <==> t in children)
              && (ok ==> ClaimedByFirst(walk, slots, claimed) && !Ambiguous(walk, slots))
      ensures ok <==> !Ambiguous(children, slots)
    {
      var taps := Walk();
      AmbiguousMembers(taps, children, slots);
      AmbiguousMembers(children, taps, slots);
      ok, claimed := MatchInOrder(taps, slots);
    }

    /** Takes every TAP out of the geometry. */
    method DetachAll()
      requires Valid()
      modifies this
      ensures Valid() && order == [] && children == old(children) && nextId == old(nextId)
      ensures contexts.Keys == old(contexts).Keys && Carried(old(contexts), contexts)
    {
      var i := 0;
      ghost var was := contexts;
      while i < |children|
        invariant 0 <= i <= |children| && Valid() && children == old(children) && nextId == old(nextId)
        invariant WipedUpTo(was, contexts, children, i)
      {
        assert children[i] in children;
        WipeOne(was, contexts, children, i);
        var ok := TapDetach(children[i]);
        i := i + 1;
      }
      AllWiped(was, contexts, children, order);
    }

    /** The chain is rebuilt from the slots: claiming TAPs keep their object and
        their controller, the other slots get new TAPs. */
    method ApplyRefresh(slots: seq<Slot>, claimed: Claims)
      requires Valid() && D.RealSlots(slots) && ClaimsFit(slots, claimed, contexts)
      modifies this
      ensures Valid() && Rebuilt(slots, claimed, order, old(contexts))
      ensures children == old(children) + NewOnes(claimed, order)
      ensures Carried(old(contexts), contexts)
    {
      ghost var was := contexts;
      DetachAll();
      Rebuild(slots, claimed, was);
    }

    /** Places the slots on an empty chain, TDO end first: each lands past
        those placed before it. */
    method Rebuild(slots: seq<Slot>, claimed: Claims, ghost was: Contexts)
      requires Valid() && order == [] && D.RealSlots(slots)
      requires ClaimsFit(slots, claimed, was) && Carried(was, contexts)
      modifies this
      ensures Valid() && Rebuilt(slots, claimed, order, was)
      ensures children == old(children) + NewOnes(claimed, order)
      ensures Carried(was, contexts)
    {
      var i, irPre := 0, 0;
      assert slots[..0] == [];
      while i < |slots|
        invariant 0 <= i <= |slots| && Valid() && irPre == SumIr(order)
        invariant Rebuilt(slots[..i], claimed, order, was)
        invariant children == old(children) + NewOnes(claimed, order)
        invariant Carried(was, contexts)
      {
        Place(slots, i, claimed, irPre, was, old(children));
        irPre := irPre + slots[i].irlen;
        i := i + 1;
      }
      assert slots[..i] == slots;
    }

    /** One slot of the rebuilt chain. */
    method Place(slots: seq<Slot>, i: nat, claimed: Claims, irPre: int, ghost was: Contexts, ghost tree: seq<Tap>)
      requires Valid() && D.RealSlots(slots) && i < |slots| && irPre == SumIr(order)
      requires children == tree + NewOnes(claimed, order)
      requires Rebuilt(slots[..i], claimed, order, was) && Carried(was, contexts) && ClaimsFit(slots, claimed, was)
      modifies this
      ensures Valid() && irPre + slots[i].irlen == SumIr(order)
      ensures Rebuilt(slots[..i + 1], claimed, order, was) && Carried(was, contexts)
      ensures children == tree + NewOnes(claimed, order)
    {
      if i in claimed {
        NotPlacedYet(slots, claimed, order, was, i);
        PlaceClaimed(claimed[i], irPre, i, was);
      } else {
        PlaceNew(slots[i], irPre, i, was);
      }
      RebuiltSnoc(slots, claimed, old(order), order, was, i);
      NewOnesSnoc(claimed, old(order), order, tree);
    }

    method PlaceClaimed(t: Tap, irPre: int, drPre: nat, ghost was: Contexts)
      requires Valid() && irPre == SumIr(order) && drPre == |order|
      requires t in was && t !in order && Carried(was, contexts)
      modifies this
      ensures Valid() && order == old(order) + [t] && children == old(children) && Carried(was, contexts)
    {
      assert order[..|order|] == order;
      InOrderKnown(contexts, order, t);
      ghost var before := contexts;
      var ok := TapReattach(t, irPre, drPre, contexts[t].controller, |order|);
      assert InsertAt(old(order), |old(order)|, t) == old(order) + [t];
      CarriedKept(was, before, contexts, t);
    }

    method PlaceNew(slot: Slot, irPre: int, drPre: nat, ghost was: Contexts)
      requires Valid() && irPre == SumIr(order) && drPre == |order| && slot.irlen > 0
      requires Carried(was, contexts)
      modifies this
      ensures Valid() && |order| == |old(order)| + 1 && order == old(order) + [order[|old(order)|]]
      ensures Fills(order[|old(order)|], slot) && order[|old(order)|] !in was
      ensures children == old(children) + [order[|old(order)|]] && Carried(was, contexts)
    {
      assert order[..|order|] == order;
      ghost var before := contexts;
      var t, ok := TapInsert(slot.idcode, slot.irlen, irPre, drPre, None, |order|);
      assert InsertAt(old(order), |old(order)|, t) == old(order) + [t];
      CarriedKept(was, before, contexts, t);
    }

    /** The part of a refresh after the probe: match, then rebuild. Finding the
        chain as it was raises if and only if two of its TAPs look the same. */
    method Refresh(slots: seq<Slot>) returns (ok: bool, ghost claimed: Claims)
      requires Valid() && D.RealSlots(slots)
      modifies this
      ensures Valid()
      ensures ok <==> !Ambiguous(old(children), slots)
      ensures !ok ==> contexts == old(contexts) && order == old(order) && children == old(children)
      ensures ok ==> ClaimedByFirst(WalkOf(old(contexts), old(children), old(order)), slots, claimed)
      ensures ok ==> Rebuilt(slots, claimed, order, old(contexts)) && children == old(children) + NewOnes(claimed, order)
      ensures ok ==> Carried(old(contexts), contexts) && SameGated(old(contexts), contexts)
      ensures ok ==> AtMostBypass(contexts, order)
      ensures slots == SlotsOf(old(order)) ==> (ok <==> NoDup(slots))
      ensures slots == SlotsOf(old(order)) && ok ==>
        order == old(order) && children == old(children) && Refound(old(contexts), contexts)
    {
      var claims;
      ok, claims := MatchIdentities(slots);
      claimed := claims;
      ghost var walk := WalkOf(contexts, children, order);
      ghost var was, before := contexts, order;
      if ok {
        FirstClaimsFit(walk, slots, claims, contexts);
        ApplyRefresh(slots, claims);
        CarriedGated(was, contexts);
        CarriedBypass(was, contexts, order);
      }
      if slots == SlotsOf(before) {
        UnchangedRefresh(old(children), walk, before, claimed, order, was, contexts, children, ok);
      }
    }

    /** A reset, the probe of what it reveals and the refresh. Whatever raises, the
        chain stays as it was. Of devices the probe can tell, the true ones are
        enabled afterwards, in order. */
    method TlrAndRefresh(devs: seq<D.Device>, known: D.Registry) returns (ok: bool)
      requires Valid()
      modifies this
      ensures Valid()
      ensures var found := D.Probe(devs, known);
              && (ok <==> found.Ok? && !Ambiguous(old(children), found.value))
              && (ok ==> SlotsOf(order) == found.value)
      ensures ok ==> AtMostBypass(contexts, order) && Carried(old(contexts), contexts)
      ensures !ok ==> contexts == old(contexts) && order == old(order) && children == old(children)
      ensures D.InReach(devs, known) ==>
        && (ok <==> devs != [] && D.Determined(devs, known) && !Ambiguous(old(children), D.TrueSlots(devs)))
        && (ok ==> SlotsOf(order) == D.TrueSlots(devs))
    {
      var found := D.Probe(devs, known);
      D.ProbeFindsReal(devs, known);
      ProbeDecides(devs, known, found, children);
      ok := false;
      if found.Ok? {
        ok := RefreshTo(found.value);
      }
    }

    /** A refresh, as seen from outside. */
    method RefreshTo(slots: seq<Slot>) returns (ok: bool)
      requires Valid() && D.RealSlots(slots)
      modifies this
      ensures Valid() && (ok <==> !Ambiguous(old(children), slots))
      ensures ok ==> SlotsOf(order) == slots && AtMostBypass(contexts, order) && Carried(old(contexts), contexts)
      ensures !ok ==> contexts == old(contexts) && order == old(order) && children == old(children)
    {
      ghost var claimed;
      ok, claimed := Refresh(slots);
      if ok {
        RebuiltSlots(slots, claimed, order, old(contexts));
      }
    }
  }

  /** The contexts on their way from `start` to `goal`, with `todo` still to come. */
  ghost predicate MovedBut(start: Contexts, goal: Contexts, now: Contexts, todo: set<Tap>) {
    && todo <= now.Keys == start.Keys == goal.Keys
    && (forall u :: u in todo ==> now[u] == start[u])
    && (forall u :: u in now && u !in todo ==> now[u] == goal[u])
  }

  lemma {:induction false} MovedMore(start: Contexts, goal: Contexts, now: Contexts, todo: set<Tap>, u: Tap)
    requires MovedBut(start, goal, now, todo) && u in todo
    ensures now[u] == start[u]
    ensures MovedBut(start, goal, now[u := goal[u]], todo - {u})
    ensures goal[u] == now[u] ==> MovedBut(start, goal, now, todo - {u})
  {}

  lemma {:induction false} OpenAllAt(cs: Contexts, t: Tap, irPre: int, u: Tap)
    requires u in cs
    ensures OpenAll(cs, t, irPre, t.irlen)[u] == if u == t || !cs[u].enabled then cs[u] else Opened(cs[u], irPre, t.irlen)
  {}

  lemma {:induction false} CloseAllAt(cs: Contexts, t: Tap, irPre: int, u: Tap)
    requires u in cs
    ensures CloseAll(cs, t, irPre, t.irlen)[u] == if u == t || !cs[u].enabled then cs[u] else ClosedUp(cs[u], irPre, t.irlen)
  {}

  lemma {:induction false} MovedAll(start: Contexts, goal: Contexts, now: Contexts)
    requires MovedBut(start, goal, now, {})
    ensures now == goal
  {}

  /** What the first `i` ops of a batch have done, against the whole batch. */
  ghost predicate FlushedSoFar(cs: Contexts, batch: seq<Posted>, i: nat, f: Flush)
    requires i <= |batch| && Measured(cs)
  {
    && Measured(f.contexts)
    && var all, rest := FlushAll(cs, batch), FlushAll(f.contexts, batch[i..]);
       all == Flush(rest.contexts, f.posted + rest.posted, f.verdicts + rest.verdicts)
  }

  lemma {:induction false} FlushedNone(cs: Contexts, batch: seq<Posted>)
    requires Measured(cs)
    ensures FlushedSoFar(cs, batch, 0, Flush(cs, [], []))
  {
    assert batch[0..] == batch;
  }

  lemma {:induction false} FlushedStep(cs: Contexts, batch: seq<Posted>, i: nat, f: Flush)
    requires i < |batch| && Measured(cs) && FlushedSoFar(cs, batch, i, f)
    ensures var g := FlushOne(f.contexts, batch[i].tap, batch[i].op);
            FlushedSoFar(cs, batch, i + 1, Flush(g.contexts, f.posted + g.posted, f.verdicts + g.verdicts))
  {
    assert batch[i..][1..] == batch[i + 1..];
    var g := FlushOne(f.contexts, batch[i].tap, batch[i].op);
    var rest := FlushAll(g.contexts, batch[i + 1..]);
    Assoc(f.posted, g.posted, rest.posted);
    Assoc(f.verdicts, g.verdicts, rest.verdicts);
  }

  lemma {:induction false} FlushedAll(cs: Contexts, batch: seq<Posted>, f: Flush)
    requires Measured(cs) && FlushedSoFar(cs, batch, |batch|, f)
    ensures f == FlushAll(cs, batch)
  {
    assert batch[|batch|..] == [];
  }

  lemma {:induction false} SamePlacesValid(a: Contexts, b: Contexts, order: seq<Tap>, children: seq<Tap>, nextId: nat)
    requires Sound(a, children, nextId, order) && SamePlaces(a, b)
    ensures Sound(b, children, nextId, order)
  {
    SamePlacesTiled(a, b, order);
    SameLinksLinked(a, b);
    KnownSameKeys(a, b, children, nextId);
  }

  /** The TAPs a refresh matches, in this order: those of the chain, TDO end first, then
      the detached children, oldest first. */
  function WalkOf(cs: Contexts, children: seq<Tap>, order: seq<Tap>): seq<Tap> {
    if children == [] then order
    else
      var last := children[|children| - 1];
      WalkOf(cs, children[..|children| - 1], order) + if last in cs && !cs[last].enabled then [last] else []
  }

  lemma {:induction false} WalkSnoc(cs: Contexts, children: seq<Tap>, i: nat, order: seq<Tap>)
    requires i < |children| && children[i] in children && forall t :: t in children ==> t in cs
    ensures children[i] in cs
    ensures WalkOf(cs, children[..i + 1], order) == WalkOf(cs, children[..i], order) + if cs[children[i]].enabled then [] else [children[i]]
  {
    assert children[..i + 1][..i] == children[..i];
  }

  lemma {:induction false} WalkMembers(cs: Contexts, children: seq<Tap>, order: seq<Tap>)
    ensures forall t :: t in WalkOf(cs, children, order) <==> t in order || (t in children && t in cs && !cs[t].enabled)
    decreases |children|
  {
    if children != [] {
      var n := |children| - 1;
      WalkMembers(cs, children[..n], order);
      assert children == children[..n] + [children[n]];
    }
  }

  lemma {:induction false} WalkIsChildren(cs: Contexts, children: seq<Tap>, nextId: nat, order: seq<Tap>)
    requires Sound(cs, children, nextId, order)
    ensures forall t :: t in order || (t in children && t in cs && !cs[t].enabled) <==> t in children
  {
    forall t ensures t in order <==> t in cs && cs[t].enabled { InOrderKnown(cs, order, t); }
  }

  lemma {:induction false} WalkStarts(cs: Contexts, children: seq<Tap>, order: seq<Tap>)
    ensures |WalkOf(cs, children, order)| >= |order| && WalkOf(cs, children, order)[..|order|] == order
    decreases |children|
  {
    if children != [] {
      WalkStarts(cs, children[..|children| - 1], order);
    }
  }

  /** The TAPs of slots nobody claimed, in chain order. */
  function NewOnes(claimed: Claims, order: seq<Tap>): seq<Tap> {
    if order == [] then []
    else
      var n := |order| - 1;
      NewOnes(claimed, order[..n]) + if n in claimed then [] else [order[n]]
  }

  lemma {:induction false} NewOnesSnoc(claimed: Claims, before: seq<Tap>, after: seq<Tap>, tree: seq<Tap>)
    requires |after| == |before| + 1 && after == before + [after[|before|]]
    ensures tree + NewOnes(claimed, after)
         == tree + NewOnes(claimed, before) + if |before| in claimed then [] else [after[|before|]]
  {
    assert after[..|before|] == before;
  }

  /** Every claiming TAP is in the chain and fills its one slot. */
  predicate ClaimsFit(slots: seq<Slot>, claimed: Claims, cs: Contexts) {
    && (forall i :: i in claimed ==> i < |slots| && claimed[i] in cs && Fills(claimed[i], slots[i]))
    && (forall i, j :: i in claimed && j in claimed && i != j ==> claimed[i] != claimed[j])
  }

  lemma {:induction false} FirstClaimsFit(walk: seq<Tap>, slots: seq<Slot>, claimed: Claims, cs: Contexts)
    requires ClaimedByFirst(walk, slots, claimed) && !Ambiguous(walk, slots)
    requires forall t :: t in walk ==> t in cs
    ensures ClaimsFit(slots, claimed, cs)
  {
    forall i, j | i in claimed && j in claimed && i != j
      ensures claimed[i] != claimed[j]
    {
      ClaimsInjective(walk, slots, claimed, i, j);
    }
  }

  /** `order` fills the slots one by one: with the TAP that claimed the slot, or
      with one that was not in the chain before. */
  predicate Rebuilt(slots: seq<Slot>, claimed: Claims, order: seq<Tap>, was: Contexts) {
    && |order| == |slots|
    && (forall i :: 0 <= i < |slots| ==> Fills(order[i], slots[i]))
    && (forall i :: 0 <= i < |slots| ==> if i in claimed then order[i] == claimed[i] else order[i] !in was)
  }

  /** What a refresh keeps of the TAPs it finds: their controllers, and all of a
      TAP that was and is detached but the order of the TAPs it gates; TAPs that
      were attached lose their cached instruction. TAPs it makes have neither a
      controller nor a cached instruction. */
  predicate Carried(was: Contexts, now: Contexts) {
    && (forall u :: u in was ==> u in now && CarriedOne(was[u], now[u]))
    && (forall u :: u in now && u !in was ==> now[u].controller.None? && now[u].currentIr.None?)
  }

  predicate CarriedOne(a: Ctx, b: Ctx) {
    && b.controller == a.controller && b.currentIr == (if a.enabled then None else a.currentIr)
    && (!a.enabled && !b.enabled ==> b == a.(gated := b.gated))
  }

  lemma {:induction false} CarriedKept(was: Contexts, before: Contexts, now: Contexts, t: Tap)
    requires Carried(was, before) && OthersKept(before, now, t) && now.Keys == before.Keys + {t} && now[t].enabled
    requires if t in was then now[t].controller == before[t].controller && now[t].currentIr == before[t].currentIr
             else now[t].controller.None? && now[t].currentIr.None?
    ensures Carried(was, now)
  {}

  /** On the way there: TAPs still attached are as they were, padding aside. */
  predicate Wiping(was: Contexts, now: Contexts) {
    was.Keys == now.Keys && forall u :: u in was ==> WipingOne(was[u], now[u])
  }

  predicate WipingOne(a: Ctx, b: Ctx) {
    && b.controller == a.controller && b.gated == a.gated
    && (b.enabled ==> a.enabled && b.currentIr == a.currentIr)
    && (!b.enabled ==> if a.enabled then b.currentIr == None else b == a)
  }

  /** And the first `i` of the TAPs are detached. */
  predicate WipedUpTo(was: Contexts, now: Contexts, taps: seq<Tap>, i: nat) {
    i <= |taps| && Wiping(was, now) && forall j :: 0 <= j < i && taps[j] in now ==> !now[taps[j]].enabled
  }

  lemma {:induction false} WipeOne(was: Contexts, now: Contexts, taps: seq<Tap>, i: nat)
    requires i < |taps| && WipedUpTo(was, now, taps, i) && taps[i] in now
    ensures WipedUpTo(was, Detached(now, taps[i]), taps, i + 1)
  {
    DetachKeepsLinks(now, taps[i]);
  }

  lemma {:induction false} AllWiped(was: Contexts, now: Contexts, taps: seq<Tap>, order: seq<Tap>)
    requires WipedUpTo(was, now, taps, |taps|) && Tiled(now, order) && forall t :: t in now <==> t in taps
    ensures order == [] && Carried(was, now) && now.Keys == was.Keys
  {
    assert forall t :: t in taps && t in now ==> !now[t].enabled;
    if order != [] {
      InOrderKnown(now, order, order[0]);
    }
  }

  lemma {:induction false} NotPlacedYet(slots: seq<Slot>, claimed: Claims, order: seq<Tap>, was: Contexts, i: nat)
    requires i < |slots| && Rebuilt(slots[..i], claimed, order, was) && ClaimsFit(slots, claimed, was) && i in claimed
    ensures claimed[i] !in order
  {}

  lemma {:induction false} RebuiltSnoc(slots: seq<Slot>, claimed: Claims, before: seq<Tap>, after: seq<Tap>, was: Contexts, i: nat)
    requires i < |slots| && Rebuilt(slots[..i], claimed, before, was) && |after| == i + 1 && after == before + [after[i]]
    requires Fills(after[i], slots[i]) && if i in claimed then after[i] == claimed[i] else after[i] !in was
    ensures Rebuilt(slots[..i + 1], claimed, after, was) && SumIr(after) == SumIr(before) + slots[i].irlen
  {
    SumIrSnoc(after, i);
    assert after[..i] == before;
  }

  lemma {:induction false} RebuiltSlots(slots: seq<Slot>, claimed: Claims, order: seq<Tap>, was: Contexts)
    requires Rebuilt(slots, claimed, order, was)
    ensures SlotsOf(order) == slots
  {
    forall i | 0 <= i < |slots| ensures SlotsOf(order)[i] == slots[i] { assert Fills(order[i], slots[i]); }
  }

  /** What a probe in reach means for a refresh. */
  lemma {:induction false} ProbeDecides(devs: seq<D.Device>, known: D.Registry, found: D.Result<seq<Slot>>, taps: seq<Tap>)
    requires found == D.Probe(devs, known)
    ensures D.InReach(devs, known) ==>
      && (found.Ok? ==> found.value == D.TrueSlots(devs))
      && (found.Ok? && !Ambiguous(taps, found.value)
          <==> devs != [] && D.Determined(devs, known) && !Ambiguous(taps, D.TrueSlots(devs)))
  {
    if D.InReach(devs, known) {
      D.ProbeSound(devs, known);
    }
  }

  lemma {:induction false} SumIrSnoc(order: seq<Tap>, i: nat)
    requires |order| == i + 1
    ensures SumIr(order) == SumIr(order[..i]) + order[i].irlen
  {
    assert order == order[..i] + [order[i]];
    SumIrConcat(order[..i], [order[i]]);
    Sum1(order[i]);
  }

  function Members(s: seq<Tap>): set<Tap> { set u | u in s }

  /** The same TAPs are gated, in whatever order. */
  predicate SameGated(was: Contexts, now: Contexts) {
    forall c :: c in was ==> c in now && Members(now[c].gated) == Members(was[c].gated)
  }

  lemma {:induction false} CarriedGated(was: Contexts, now: Contexts)
    requires Linked(was) && Linked(now) && Carried(was, now)
    ensures SameGated(was, now)
  {
    forall c, u | c in was
      ensures u in now[c].gated <==> u in was[c].gated
    {
      if u in was {
        assert was[u].controller == Some(c) <==> u in was[c].gated;
        assert now[u].controller == Some(c) <==> u in now[c].gated;
      } else if u in now {
        assert now[u].controller == Some(c) <==> u in now[c].gated;
      }
    }
  }

  lemma {:induction false} CarriedBypass(was: Contexts, now: Contexts, order: seq<Tap>)
    requires Parked(was) && Carried(was, now)
    ensures AtMostBypass(now, order)
  {}

  /** Everything as it was, but cached instructions of attached TAPs forgotten
      and gated TAPs perhaps in another order. */
  predicate Refound(was: Contexts, now: Contexts) {
    && now.Keys == was.Keys && SameGated(was, now)
    && forall u :: u in was ==>
         now[u] == was[u].(currentIr := if was[u].enabled then None else was[u].currentIr, gated := now[u].gated)
  }

  lemma {:induction false} CarriedRefound(was: Contexts, now: Contexts, order: seq<Tap>)
    requires Tiled(was, order) && Tiled(now, order) && Carried(was, now) && SameGated(was, now) && now.Keys == was.Keys
    ensures Refound(was, now)
  {
    forall u | u in was
      ensures now[u] == was[u].(currentIr := if was[u].enabled then None else was[u].currentIr, gated := now[u].gated)
    {
      InOrderKnown(was, order, u);
      InOrderKnown(now, order, u);
      if u in order {
        var k :| 0 <= k < |order| && order[k] == u;
        assert Placed(was, order, k) && Placed(now, order, k);
      }
    }
  }

  /** A refresh that finds the slots of the chain as it was: ambiguous if and only
      if two of its TAPs look the same; otherwise the chain is refound. */
  lemma {:induction false} UnchangedRefresh(children: seq<Tap>, walk: seq<Tap>, order: seq<Tap>, claimed: Claims,
                                            after: seq<Tap>, was: Contexts, now: Contexts, tree: seq<Tap>, ok: bool)
    requires Tiled(was, order) && walk == WalkOf(was, children, order) && forall t :: t in walk <==> t in children
    requires forall t :: t in was <==> t in children
    requires ok <==> !Ambiguous(children, SlotsOf(order))
    requires ok ==> ClaimedByFirst(walk, SlotsOf(order), claimed) && Rebuilt(SlotsOf(order), claimed, after, was)
    requires ok ==> Tiled(now, after) && Carried(was, now) && SameGated(was, now) && forall t :: t in now <==> t in tree
    requires ok ==> tree == children + NewOnes(claimed, after)
    ensures ok <==> NoDup(SlotsOf(order))
    ensures ok ==> after == order && tree == children && Refound(was, now)
  {
    var slots := SlotsOf(order);
    WalkStarts(was, children, order);
    assert walk == order + walk[|order|..];
    UnchangedAmbiguousIff(order, walk[|order|..]);
    AmbiguousMembers(walk, children, slots);
    AmbiguousMembers(children, walk, slots);
    if ok {
      SelfClaimed(order, walk[|order|..], slots, claimed, after, was);
      assert tree == children;
      CarriedRefound(was, now, order);
    }
  }

  lemma {:induction false} SelfClaimed(order: seq<Tap>, detached: seq<Tap>, slots: seq<Slot>, claimed: Claims,
                                       after: seq<Tap>, was: Contexts)
    requires NoDup(slots) && slots == SlotsOf(order)
    requires ClaimedByFirst(order + detached, slots, claimed) && Rebuilt(slots, claimed, after, was)
    ensures after == order && NewOnes(claimed, order) == []
  {
    forall i: nat | i < |order| ensures i in claimed && claimed[i] == order[i] {
      UnchangedClaims(order, detached, i);
    }
    AllClaimed(claimed, order);
  }

  lemma {:induction false} AllClaimed(claimed: Claims, order: seq<Tap>)
    requires forall i: nat :: i < |order| ==> i in claimed
    ensures NewOnes(claimed, order) == []
    decreases |order|
  {
    if order != [] {
      AllClaimed(claimed, order[..|order| - 1]);
    }
  }

  function Freed(cs: Contexts, gated: seq<Tap>): Contexts {
    map u | u in cs :: if u in gated then cs[u].(controller := None) else cs[u]
  }

  lemma {:induction false} OrphanedInSteps(cs: Contexts, cut: Contexts, freed: Contexts, t: Tap, ctx: Ctx)
    requires cut == if ctx.controller.Some? && ctx.controller.value in cs && t in cs[ctx.controller.value].gated
                    then cs[ctx.controller.value := cs[ctx.controller.value].(gated := Without(cs[ctx.controller.value].gated, t))]
                    else cs
    requires freed == Freed(cut, ctx.gated)
    ensures freed == Orphaned(cs, t, ctx)
  {}

  lemma {:induction false} AttachedTwice(cs: Contexts, t: Tap, ctx: Ctx, totalIr: int, totalDr: int)
    ensures Attached(cs[t := ctx], t, ctx, totalIr, totalDr) == Attached(cs, t, ctx, totalIr, totalDr)
  {}

  lemma {:induction false} AttachedOthers(cs: Contexts, t: Tap, ctx: Ctx, totalIr: int, totalDr: int)
    ensures OthersKept(cs, Attached(cs, t, ctx, totalIr, totalDr), t)
    ensures Attached(cs, t, ctx, totalIr, totalDr)[t].enabled == ctx.enabled
  {}

  lemma {:induction false} KnownSameKeys(a: Contexts, b: Contexts, children: seq<Tap>, nextId: nat)
    requires Known(a, children, nextId) && a.Keys == b.Keys
    ensures Known(b, children, nextId)
  {}

  lemma {:induction false} FreshTap(cs: Contexts, children: seq<Tap>, nextId: nat, order: seq<Tap>, t: Tap)
    requires Sound(cs, children, nextId, order) && t.id == nextId
    ensures t !in cs && t !in order
  {
    InOrderKnown(cs, order, t);
  }

  lemma {:induction false} AstrayBreaks(cs: Contexts, t: Tap)
    requires t in cs && cs[t].controller.Some? && cs[t].controller.value !in cs
    ensures !Linked(cs)
  {}

  lemma {:induction false} LinkSound(cs: Contexts, children: seq<Tap>, nextId: nat, order: seq<Tap>,
                                     t: Tap, controller: Option<Tap>)
    requires Sound(cs, children, nextId, order) && Parked(cs) && t in cs && (controller.Some? ==> controller.value in cs)
    ensures var r := SetLink(cs, t, controller);
            Sound(r, children, nextId, order) && Parked(r) && r[t].controller == controller && OthersKept(cs, r, t)
  {
    var r := SetLink(cs, t, controller);
    SetLinkMutual(cs, t, controller);
    SameGeometryTiled(cs, r, order);
    KnownSameKeys(cs, r, children, nextId);
    SetLinkOthers(cs, r, t);
    SameGeometryParked(cs, r);
  }

  /** What setting a controller leaves is sound if and only if it is in the chain. */
  lemma {:induction false} LinkSoundIff(cs: Contexts, r: Contexts, children: seq<Tap>, nextId: nat, order: seq<Tap>,
                                        t: Tap, controller: Option<Tap>, ok: bool)
    requires Sound(cs, children, nextId, order) && Parked(cs) && t in cs && (ok <==> controller.None? || controller.value in cs)
    requires ok ==> r == SetLink(cs, t, controller)
    requires !ok ==> r == ClearLink(cs, t)[t := ClearLink(cs, t)[t].(controller := controller)]
    ensures Sound(r, children, nextId, order) && Parked(r) <==> ok
    ensures r.Keys == cs.Keys && r[t].controller == controller && (ok ==> OthersKept(cs, r, t))
  {
    if ok {
      LinkSound(cs, children, nextId, order, t, controller);
    } else {
      AstrayBreaks(r, t);
    }
  }

  lemma {:induction false} SameGeometryParked(a: Contexts, b: Contexts)
    requires Parked(a) && SameGeometry(a, b)
    ensures Parked(b)
  {}

  lemma {:induction false} OthersKeptTwice(a: Contexts, b: Contexts, c: Contexts, t: Tap)
    requires OthersKept(a, b, t) && OthersKept(b, c, t)
    ensures OthersKept(a, c, t)
  {}

  /** TAPs other than `t` are as before: enabled or not, owned and cached; what
      changes of detached ones is only whom they gate. */
  predicate OthersKept(a: Contexts, b: Contexts, t: Tap) {
    forall u :: u in a && u != t ==> u in b && KeptOne(a[u], b[u])
  }

  predicate KeptOne(a: Ctx, b: Ctx) {
    && b.enabled == a.enabled && b.controller == a.controller && b.currentIr == a.currentIr
    && (!a.enabled ==> b == a.(gated := b.gated))
  }

  lemma {:induction false} SetLinkOthers(a: Contexts, b: Contexts, t: Tap)
    requires SameGeometry(a, b) && t in a && forall u :: u in a && u != t ==> b[u].controller == a[u].controller
    ensures OthersKept(a, b, t)
  {}

  lemma {:induction false} ParkedKept(a: Contexts, b: Contexts, t: Tap)
    requires Parked(a) && OthersKept(a, b, t) && b.Keys == a.Keys + {t} && b[t].enabled
    ensures Parked(b) && CacheKept(a, b, t)
  {}

  lemma {:induction false} NewcomerSound(a: Contexts, b: Contexts, children: seq<Tap>, nextId: nat, order: seq<Tap>, t: Tap)
    requires Known(a, children, nextId) && Parked(a) && Tiled(b, order) && Linked(b)
    requires t.id == nextId && t.irlen > 0 && b.Keys == a.Keys + {t} && OthersKept(a, b, t) && b[t].enabled
    ensures Sound(b, children + [t], nextId + 1, order) && Parked(b)
  {
    KnownSnoc(a, children, nextId, t, b);
    ParkedKept(a, b, t);
  }

  lemma {:induction false} DetachedParked(cs: Contexts, t: Tap)
    requires Parked(cs) && t in cs
    ensures Parked(Detached(cs, t))
  {}

  /** Padding aside, the others are as before, and so are the links of `t`; nothing
      is cached for it if it was attached. */
  predicate LeftOut(a: Contexts, b: Contexts, t: Tap)
    requires t in a
  {
    && a.Keys == b.Keys && SameLinks(a, b) && OthersKept(a, b, t) && !b[t].enabled
    && (if a[t].enabled then b[t].currentIr == None else b[t] == a[t])
  }

  lemma {:induction false} DetachLeavesOut(cs: Contexts, t: Tap)
    requires t in cs
    ensures LeftOut(cs, Detached(cs, t), t)
  {}

  /** The TAPs that `t` controlled have no controller; the lists of the others lack
      `t`. Padding aside, nothing else changes. */
  predicate Unlinked(a: Contexts, b: Contexts, t: Tap) {
    && b.Keys == a.Keys - {t}
    && (forall u :: u in b ==> b[u].controller == (if a[u].controller == Some(t) then None else a[u].controller))
    && (forall u, c :: u in b && c in b ==> (u in b[c].gated <==> u in a[c].gated))
    && (forall u :: u in b ==> b[u].enabled == a[u].enabled && b[u].currentIr == a[u].currentIr)
    && (forall u :: u in b && !a[u].enabled ==> b[u] == a[u].(controller := b[u].controller, gated := b[u].gated))
  }

  lemma {:induction false} RemoveUnlinks(cs: Contexts, t: Tap)
    requires t in cs && Linked(cs)
    ensures Unlinked(cs, Removed(cs, t), t)
  {
    var r := Removed(cs, t);
    forall u, c | u in r && c in r ensures u in r[c].gated <==> u in cs[c].gated { RemovedAt(cs, r, t, c, u); }
    forall u | u in r
      ensures r[u].controller == if cs[u].controller == Some(t) then None else cs[u].controller
      ensures r[u].enabled == cs[u].enabled && r[u].currentIr == cs[u].currentIr
      ensures !cs[u].enabled ==> r[u] == cs[u].(controller := r[u].controller, gated := r[u].gated)
    {
      RemovedAt(cs, r, t, u, u);
    }
  }

  lemma {:induction false} RemoveKeeps(cs: Contexts, order: seq<Tap>, children: seq<Tap>, nextId: nat, t: Tap, after: Contexts)
    requires Sound(cs, children, nextId, order) && Parked(cs) && t in cs && after == Removed(cs, t)
    ensures Sound(after, Without(children, t), nextId, Without(order, t)) && Parked(after) && Unlinked(cs, after, t)
    ensures SumIr(Without(order, t)) == SumIr(order) - if cs[t].enabled then t.irlen else 0
    ensures |Without(order, t)| == |order| - if cs[t].enabled then 1 else 0
  {
    RemoveSound(cs, order, children, nextId, t);
    RemovedParked(cs, t);
    RemoveUnlinks(cs, t);
  }

  lemma {:induction false} RemovedAt(cs: Contexts, r: Contexts, t: Tap, c: Tap, u: Tap)
    requires t in cs && Linked(cs) && c in cs && c != t && u in cs && u != t && r == Removed(cs, t)
    ensures u in r[c].gated <==> u in cs[c].gated
    ensures r[c].controller == if cs[c].controller == Some(t) then None else cs[c].controller
    ensures r[c].enabled == cs[c].enabled && r[c].currentIr == cs[c].currentIr
    ensures !cs[c].enabled ==> r[c] == cs[c].(controller := r[c].controller, gated := r[c].gated)
  {
    OrphanedMembers(cs, t, c, u);
    PoppedSameLinks(cs, t);
    PoppedAt(cs, t, c);
    assert cs[c].controller == Some(t) <==> c in cs[t].gated;
  }

  lemma {:induction false} PoppedAt(cs: Contexts, t: Tap, c: Tap)
    requires t in cs && c in cs && c != t
    ensures Popped(cs, t)[c].enabled == cs[c].enabled && Popped(cs, t)[c].currentIr == cs[c].currentIr
    ensures !cs[c].enabled ==> Popped(cs, t)[c] == cs[c]
  {}

  lemma {:induction false} RemovedParked(cs: Contexts, t: Tap)
    requires Parked(cs) && t in cs
    ensures Parked(Removed(cs, t))
  {}

  lemma {:induction false} FlushParked(cs: Contexts, batch: seq<Posted>)
    requires Parked(cs) && Measured(cs)
    ensures Parked(FlushAll(cs, batch).contexts)
    decreases |batch|
  {
    if batch != [] {
      FlushParked(FlushOne(cs, batch[0].tap, batch[0].op).contexts, batch[1..]);
    }
  }
}
