/** From a refresh to the first batch after it: the probe leaves every TAP in
    BYPASS, and the refreshed cache says nothing else. */
module ChainRestart {
  import opened BitSequences
  import opened ChainGeometry
  import opened ChainWiring
  import opened ChainRefresh
  import C = ChainCompiler
  import D = ChainDiscovery
  import R = ChainRefinement

  /** The instructions the TAPs of a hardware chain hold. */
  predicate Holds<S>(taps: seq<C.TapHw<S>>, irs: seq<Bits>) {
    |taps| == |irs| && forall i :: 0 <= i < |taps| ==> taps[i].ir == irs[i]
  }

  /** What the probe of `devs` left in their IRs. */
  function LeftByProbe(devs: seq<D.Device>): seq<Bits>
    requires |D.CapturedIrs(devs)| <= 512
  {
    var irs := D.CapturedIrs(devs);
    D.DiscoverExact(irs, 512);
    D.HeldIrs(devs, D.LeftInIrs(irs, D.Discover(irs, 512).value))
  }

  /** The chain the refresh built is wired like the hardware, and its cache is true. */
  lemma {:induction false} RefreshTruthful<S>(b: C.Behaviour<S>, h: C.Hw<S>, devs: seq<D.Device>, cs: Contexts, order: seq<Tap>)
    requires |D.CapturedIrs(devs)| <= 512 && Holds(h.taps, LeftByProbe(devs)) && !h.reg.InIr?
    requires SlotsOf(order) == D.TrueSlots(devs) && AtMostBypass(cs, order)
    ensures Wired(order, C.Commit(b, h).taps) && R.Truthful(C.Commit(b, h).taps, CacheOf(cs, order))
  {
    if h.reg.InDr? {
      R.DrsKeepInstructions(b, h.taps, h.reg.bits);
    }
    D.ProbeLeavesBypass(devs);
    BypassTruthful(C.Commit(b, h).taps, devs, cs, order);
  }

  lemma {:induction false} BypassTruthful<S>(taps: seq<C.TapHw<S>>, devs: seq<D.Device>, cs: Contexts, order: seq<Tap>)
    requires |taps| == |devs| && forall i :: 0 <= i < |devs| ==> taps[i].ir == Ones(|devs[i].irCapture|)
    requires SlotsOf(order) == D.TrueSlots(devs) && AtMostBypass(cs, order)
    ensures Wired(order, taps) && R.Truthful(taps, CacheOf(cs, order))
  {
    assert |order| == |SlotsOf(order)| == |taps|;
    forall i | 0 <= i < |order| ensures |taps[i].ir| == order[i].irlen {
      assert SlotsOf(order)[i] == D.TrueSlots(devs)[i];
    }
  }

  /** A batch flushed right after a refresh does what its ops mean: nothing need be
      known of the cache before. */
  lemma {:induction false} FlushAfterRefresh<S(!new)>(b: C.Behaviour<S>, x: C.Shown<S>, devs: seq<D.Device>, cs: Contexts,
                                                     order: seq<Tap>, batch: seq<Posted>, reqs: seq<R.Request>)
    requires |D.CapturedIrs(devs)| <= 512 && Holds(x.hw.taps, LeftByProbe(devs)) && !x.hw.reg.InIr?
    requires SlotsOf(order) == D.TrueSlots(devs) && AtMostBypass(cs, order) && Tiled(cs, order) && Measured(cs)
    requires C.Lawful(b) && Names(batch, order, reqs) && R.SizedRun(C.Commit(b, x.hw).taps, reqs)
    ensures |order| == |C.Commit(b, x.hw).taps| && Means(b, x, cs, order, reqs, FlushAll(cs, batch), Readings(b, x, cs, batch))
  {
    RefreshTruthful(b, x.hw, devs, cs, order);
    FlushMeans(b, x, cs, order, batch, reqs);
  }
}
