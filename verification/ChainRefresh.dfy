/** Pairing the TAPs of a chain with the slots found after a reset. */
module ChainRefresh {
  import opened BitSequences
  import opened Wrappers
  import opened ScanChain
  import opened ChainGeometry
  import opened ChainOps

  predicate Fills(t: Tap, s: Slot) { t.idcode == s.idcode && t.irlen == s.irlen }

  function SlotOf(t: Tap): Slot { Slot(t.idcode, t.irlen) }

  function SlotsOf(taps: seq<Tap>): seq<Slot> { seq(|taps|, i requires 0 <= i < |taps| => SlotOf(taps[i])) }

  type Claims = map<nat, Tap>

  predicate SomeFills(taps: seq<Tap>, s: Slot) { exists k :: 0 <= k < |taps| && Fills(taps[k], s) }

  /** One of the TAPs could be in either of two slots. */
  predicate Ambiguous(taps: seq<Tap>, slots: seq<Slot>) {
    exists k, i, j :: 0 <= k < |taps| && 0 <= i < j < |slots| && Fills(taps[k], slots[i]) && Fills(taps[k], slots[j])
  }

  /** The first of the TAPs that fills a slot. */
  function FirstFilling(taps: seq<Tap>, s: Slot): (t: Tap)
    requires SomeFills(taps, s)
    ensures Fills(t, s) && t in taps
    decreases |taps|
  {
    if Fills(taps[0], s) then taps[0]
    else
      assert SomeFills(taps[1..], s) by {
        var k :| 0 <= k < |taps| && Fills(taps[k], s);
        assert taps[1..][k - 1] == taps[k];
      }
      FirstFilling(taps[1..], s)
  }

  /** Every slot that some TAP fills goes to the first such TAP. */
  ghost predicate ClaimedByFirst(taps: seq<Tap>, slots: seq<Slot>, claimed: Claims) {
    && (forall i: nat :: i in claimed <==> i < |slots| && SomeFills(taps, slots[i]))
    && (forall i :: i in claimed ==> claimed[i] == FirstFilling(taps, slots[i]))
  }

  lemma {:induction false} FirstOfSnoc(taps: seq<Tap>, t: Tap, s: Slot)
    ensures SomeFills(taps + [t], s) <==> SomeFills(taps, s) || Fills(t, s)
    ensures SomeFills(taps, s) ==> FirstFilling(taps + [t], s) == FirstFilling(taps, s)
    ensures !SomeFills(taps, s) && Fills(t, s) ==> FirstFilling(taps + [t], s) == t
    decreases |taps|
  {
    var all := taps + [t];
    assert all[|taps|] == t;
    SomeOfSnoc(taps, t, s);
    if taps != [] {
      assert all[1..] == taps[1..] + [t];
      FirstOfSnoc(taps[1..], t, s);
      SomeOfCons(taps, s);
    } else {
      assert all == [t];
    }
  }

  lemma {:induction false} SomeOfSnoc(taps: seq<Tap>, t: Tap, s: Slot)
    ensures SomeFills(taps + [t], s) <==> SomeFills(taps, s) || Fills(t, s)
  {
    var all := taps + [t];
    assert all[|taps|] == t;
    if SomeFills(taps, s) {
      var k :| 0 <= k < |taps| && Fills(taps[k], s);
      assert all[k] == taps[k];
    }
  }

  lemma {:induction false} SomeOfCons(taps: seq<Tap>, s: Slot)
    requires taps != []
    ensures SomeFills(taps, s) <==> Fills(taps[0], s) || SomeFills(taps[1..], s)
  {
    if SomeFills(taps[1..], s) {
      var k :| 0 <= k < |taps[1..]| && Fills(taps[1..][k], s);
      assert taps[k + 1] == taps[1..][k];
    }
    if SomeFills(taps, s) && !Fills(taps[0], s) {
      var k :| 0 <= k < |taps| && Fills(taps[k], s);
      assert taps[1..][k - 1] == taps[k];
    }
  }

  /** Without ambiguity no TAP claims two slots. */
  lemma {:induction false} ClaimsInjective(taps: seq<Tap>, slots: seq<Slot>, claimed: Claims, i: nat, j: nat)
    requires ClaimedByFirst(taps, slots, claimed)
    requires i in claimed && j in claimed && i != j
    ensures claimed[i] == claimed[j] ==> Ambiguous(taps, slots)
  {
    if claimed[i] == claimed[j] {
      var k :| 0 <= k < |taps| && taps[k] == claimed[i];
      TwoLeft(taps, k, slots, i, j);
    }
  }

  /** The slots not claimed yet that a TAP fills. */
  function Left(t: Tap, slots: seq<Slot>, claimed: Claims): set<nat> {
    set i: nat | i < |slots| && i !in claimed && Fills(t, slots[i])
  }

  /** A TAP joins the walk: it fills no slot that an earlier TAP left, or one. */
  lemma {:induction false} ClaimsSnoc(taps: seq<Tap>, t: Tap, slots: seq<Slot>, claimed: Claims, mine: set<nat>)
    requires ClaimedByFirst(taps, slots, claimed)
    requires mine == Left(t, slots, claimed)
    ensures mine == {} ==> ClaimedByFirst(taps + [t], slots, claimed)
    ensures forall m :: mine == {m} ==> ClaimedByFirst(taps + [t], slots, claimed[m := t])
  {
    forall i: nat | i < |slots|
      ensures SomeFills(taps + [t], slots[i]) <==> i in claimed || i in mine
      ensures i in claimed ==> FirstFilling(taps + [t], slots[i]) == claimed[i]
      ensures i in mine ==> FirstFilling(taps + [t], slots[i]) == t
    {
      FirstOfSnoc(taps, t, slots[i]);
    }
  }

  /** The slots a TAP finds left are all it fills, or it finds none. */
  lemma {:induction false} StillUnambiguous(taps: seq<Tap>, t: Tap, slots: seq<Slot>, claimed: Claims, mine: set<nat>, m: nat)
    requires ClaimedByFirst(taps, slots, claimed)
    requires mine == Left(t, slots, claimed)
    ensures Ambiguous(taps + [t], slots) && mine <= {m} ==> Ambiguous(taps, slots)
  {
    var all := taps + [t];
    if Ambiguous(all, slots) {
      var k, i, j :| 0 <= k < |all| && 0 <= i < j < |slots| && Fills(all[k], slots[i]) && Fills(all[k], slots[j]);
      if k < |taps| {
        TwoLeft(taps, k, slots, i, j);
      } else if i in claimed || j in claimed {
        var c := if i in claimed then i else j;
        var l :| 0 <= l < |taps| && taps[l] == claimed[c];
        TwoLeft(taps, l, slots, i, j);
      } else {
        assert i in mine && j in mine;
      }
    }
  }

  lemma {:induction false} TwoLeft(taps: seq<Tap>, k: nat, slots: seq<Slot>, i: nat, j: nat)
    requires k < |taps| && i < |slots| && j < |slots| && i != j && Fills(taps[k], slots[i]) && Fills(taps[k], slots[j])
    ensures Ambiguous(taps, slots)
  {
    assert i < j || j < i;
  }

  /** Ambiguity does not depend on the order of the walk. */
  lemma {:induction false} AmbiguousMembers(a: seq<Tap>, b: seq<Tap>, slots: seq<Slot>)
    requires forall t :: t in a ==> t in b
    ensures Ambiguous(a, slots) ==> Ambiguous(b, slots)
    ensures forall s :: SomeFills(a, s) ==> SomeFills(b, s)
  {
    if Ambiguous(a, slots) {
      var k, i, j :| 0 <= k < |a| && 0 <= i < j < |slots| && Fills(a[k], slots[i]) && Fills(a[k], slots[j]);
      assert a[k] in b;
      var l :| 0 <= l < |b| && b[l] == a[k];
      assert Fills(b[l], slots[i]) && Fills(b[l], slots[j]);
    }
    forall s | SomeFills(a, s)
      ensures SomeFills(b, s)
    {
      var k :| 0 <= k < |a| && Fills(a[k], s);
      assert a[k] in b;
      var l :| 0 <= l < |b| && b[l] == a[k];
    }
  }

  lemma {:induction false} LeftTwice(t: Tap, slots: seq<Slot>, claimed: Claims, taps: seq<Tap>, k: nat)
    requires k < |taps| && taps[k] == t && |Left(t, slots, claimed)| > 1
    ensures Ambiguous(taps, slots)
  {
    var left := Left(t, slots, claimed);
    var i :| i in left;
    assert |left - {i}| > 0;
    var j :| j in left - {i};
    TwoLeft(taps, k, slots, i, j);
  }

  /** The claims of a walk over the TAPs. */
  method MatchInOrder(taps: seq<Tap>, slots: seq<Slot>) returns (ok: bool, claimed: Claims)
    ensures ok <==> !Ambiguous(taps, slots)
    ensures ok ==> ClaimedByFirst(taps, slots, claimed)
  {
    claimed := map[];
    var i := 0;
    while i < |taps|
      invariant 0 <= i <= |taps|
      invariant ClaimedByFirst(taps[..i], slots, claimed) && !Ambiguous(taps[..i], slots)
    {
      var t := taps[i];
      assert taps[..i + 1] == taps[..i] + [t];
      var matches := Left(t, slots, claimed);
      if |matches| > 1 {
        LeftTwice(t, slots, claimed, taps, i);
        return false, claimed;
      }
      ClaimsSnoc(taps[..i], t, slots, claimed, matches);
      if matches == {} {
        StillUnambiguous(taps[..i], t, slots, claimed, matches, 0);
      } else {
        var m :| m in matches;
        assert |matches - {m}| == 0 && matches == {m};
        StillUnambiguous(taps[..i], t, slots, claimed, matches, m);
        claimed := claimed[m := t];
      }
      i := i + 1;
    }
    assert taps[..i] == taps;
    ok := true;
  }

  // ----- Chain order ---------------------------------------------------------------------

  /** The enabled TAPs, sorted by what lies between them and TDO. */
  method EnabledInOrder(contexts: Contexts, ghost order: seq<Tap>) returns (taps: seq<Tap>)
    requires Tiled(contexts, order)
    ensures taps == order
  {
    var todo := set t | t in contexts && contexts[t].enabled;
    taps := [];
    RestOfNone(contexts, order, todo);
    while todo != {}
      invariant |taps| <= |order| && taps == order[..|taps|]
      invariant todo == Rest(order, |taps|)
      decreases todo
    {
      NextIsLeast(contexts, order, |taps|);
      var t :| t in todo && forall u :: u in todo ==> contexts[t].irPre <= contexts[u].irPre;
      LeastIsNext(contexts, order, |taps|, t);
      todo := todo - {t};
      taps := taps + [t];
    }
    RestNonempty(order, |taps|);
  }

  function Rest(order: seq<Tap>, k: nat): set<Tap>
    requires k <= |order|
  {
    set t | t in order[k..]
  }

  lemma {:induction false} RestOfNone(cs: Contexts, order: seq<Tap>, todo: set<Tap>)
    requires Tiled(cs, order) && todo == set t | t in cs && cs[t].enabled
    ensures todo == Rest(order, 0)
  {
    forall t ensures t in todo <==> t in order { InOrderKnown(cs, order, t); }
    assert order[0..] == order;
  }

  lemma {:induction false} RestNonempty(order: seq<Tap>, k: nat)
    requires k <= |order|
    ensures k < |order| ==> Rest(order, k) != {}
  {
    if k < |order| {
      assert order[k..][0] in Rest(order, k);
    }
  }

  lemma {:induction false} NextIsLeast(cs: Contexts, order: seq<Tap>, k: nat)
    requires Tiled(cs, order) && k <= |order| && Rest(order, k) != {}
    ensures k < |order| && order[k] in Rest(order, k) && order[k] in cs
    ensures forall u :: u in Rest(order, k) ==> u in cs && cs[order[k]].irPre <= cs[u].irPre
  {
    assert order[k..][0] == order[k] && Placed(cs, order, k);
    forall u | u in Rest(order, k)
      ensures u in cs && cs[order[k]].irPre <= cs[u].irPre
    {
      var j :| 0 <= j < |order[k..]| && order[k..][j] == u;
      assert order[k + j] == u && Placed(cs, order, k) && Placed(cs, order, k + j);
      if j > 0 { SumIrGrows(order, k, k + j); }
    }
  }

  lemma {:induction false} LeastIsNext(cs: Contexts, order: seq<Tap>, k: nat, t: Tap)
    requires Tiled(cs, order) && k < |order| && t in Rest(order, k) && t in cs && order[k] in cs
    requires cs[t].irPre <= cs[order[k]].irPre
    ensures t == order[k] && Rest(order, k) - {t} == Rest(order, k + 1)
  {
    var j :| 0 <= j < |order[k..]| && order[k..][j] == t;
    assert order[k + j] == t && Placed(cs, order, k) && Placed(cs, order, k + j);
    if j > 0 { SumIrGrows(order, k, k + j); }
    assert order[k..] == [t] + order[k + 1..];
    assert t !in order[k + 1..];
  }

  // ----- A chain that did not change ------------------------------------------------

  /** Finding the chain unchanged is ambiguous exactly when two of its TAPs
      look the same. */
  lemma {:induction false} UnchangedAmbiguousIff(order: seq<Tap>, detached: seq<Tap>)
    ensures Ambiguous(order + detached, SlotsOf(order)) <==> !NoDup(SlotsOf(order))
  {
    var slots, all := SlotsOf(order), order + detached;
    if !NoDup(slots) {
      var i, j :| 0 <= i < j < |slots| && slots[i] == slots[j];
      assert all[i] == order[i];
      TwoLeft(all, i, slots, i, j);
    }
  }

  /** And otherwise every enabled TAP claims its own slot. */
  lemma {:induction false} UnchangedClaims(order: seq<Tap>, detached: seq<Tap>, i: nat)
    requires i < |order| && NoDup(SlotsOf(order))
    ensures SomeFills(order + detached, SlotOf(order[i]))
    ensures FirstFilling(order + detached, SlotOf(order[i])) == order[i]
    decreases |order|
  {
    var all := order + detached;
    assert all[i] == order[i];
    if i > 0 {
      assert SlotsOf(order)[0] != SlotsOf(order)[i];
      var rest := order[1..];
      assert all[1..] == rest + detached;
      assert NoDup(SlotsOf(rest)) by {
        forall a, b | 0 <= a < b < |rest| ensures SlotsOf(rest)[a] != SlotsOf(rest)[b] {
          assert SlotsOf(order)[a + 1] != SlotsOf(order)[b + 1];
        }
      }
      UnchangedClaims(rest, detached, i - 1);
    }
  }

  /** Two like TAPs on one chain: a refresh that finds them again gives up. */
  lemma {:induction false} TwinsAreAmbiguous(idcode: Option<Bits>, irlen: nat)
    ensures var twins := [Tap(0, idcode, irlen), Tap(1, idcode, irlen)];
            NoDup(twins) && Ambiguous(twins, SlotsOf(twins))
  {
    var twins := [Tap(0, idcode, irlen), Tap(1, idcode, irlen)];
    TwoLeft(twins, 0, SlotsOf(twins), 0, 1);
  }
}
