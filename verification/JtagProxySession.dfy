/** The proxy over a whole session: what all calls together return. */
module JtagProxySession {
  import T = TapController
  import opened JtagOps
  import W = JtagTmsWalker
  import E = JtagOpEncoder
  import R = EncoderRefinement
  import P = JtagProxy
  import opened JtagProxyTdo

  lemma {:induction false} SampledConcat(dev: Device, hist: seq<T.Event>, s: T.State, a: seq<T.Tck>, b: seq<T.Tck>)
    ensures Sampled(dev, hist, s, a + b) == Sampled(dev, hist, s, a) + Sampled(dev, hist + T.Trace(s, a), T.Walk(s, a), b)
    decreases |a|
  {
    if a == [] {
      assert a + b == b && hist + [] == hist;
    } else {
      var e := T.EdgeEvents(s, a[0]);
      assert (a + b)[0] == a[0] && (a + b)[1..] == a[1..] + b;
      SampledConcat(dev, hist + e, T.Next(s, a[0].tms), a[1..], b);
      assert hist + e + T.Trace(T.Next(s, a[0].tms), a[1..]) == hist + T.Trace(s, a);
    }
  }

  /** A run of calls on one walker and one encoder: the ops each call posts,
      batched in any way, are lowered from where the last call left the encoder,
      and the call returns what it reads on the device. */
  ghost predicate Session(dev: Device, hist: seq<T.Event>, l: E.Label, s: T.State, w: W.Walk,
                          calls: seq<seq<T.Tck>>, batches: seq<seq<seq<Op>>>, tdos: seq<seq<bool>>)
    requires w.seg == []
    decreases |calls|
  {
    && |calls| == |batches| == |tdos|
    && (calls == [] ||
        (&& R.Flatten(batches[0]) == W.CallOps(w, calls[0])
         && E.EncodeAll(l, batches[0], 0).Some?
         && var enc := E.EncodeAll(l, batches[0], 0).value;
            && Returns(dev, hist, s, enc, W.CallSpans(w, calls[0], 0), |calls[0]|, tdos[0])
            && Session(dev, hist + T.Trace(s, enc.wire), enc.at, T.Walk(s, enc.wire), W.Call(w, calls[0]),
                       calls[1..], batches[1..], tdos[1..])))
  }

  function JoinedTdo(tdos: seq<seq<bool>>): seq<bool> { if tdos == [] then [] else tdos[0] + JoinedTdo(tdos[1..]) }

  /** Where one call leaves encoder, TAP and walker. */
  lemma {:induction false} CallLeaves(hist: seq<T.Event>, l: E.Label, s: T.State, r: Rest, w: W.Walk, bits: seq<T.Tck>,
                                      batches: seq<seq<Op>>, r': Rest)
    requires R.RestsAt(l, s, r) && P.InSync(r, w) && w.seg == [] && w.run == 0
    requires R.Flatten(batches) == W.CallOps(w, bits) && r' == AfterAll(r, W.CallOps(w, bits))
    ensures E.EncodeAll(l, batches, 0).Some? && P.InSync(r', W.Call(w, bits))
    ensures P.TapOf(W.Call(w, bits)) == T.Walk(P.TapOf(w), bits)
    ensures var enc := E.EncodeAll(l, batches, 0).value;
            && R.RestsAt(enc.at, T.Walk(s, enc.wire), r')
            && hist + T.Trace(s, enc.wire) + P.Owed(r', W.Call(w, bits)) == hist + P.Owed(r, w) + T.Trace(P.TapOf(w), bits)
  {
    R.BatchesRefine(l, s, r, batches, 0) by {
      P.CallBalanced(r, w, bits);
      P.BatchesArePlain(batches);
    }
    P.CallBalanced(r, w, bits);
    Carried(hist, P.Owed(r, w), T.Trace(P.TapOf(w), bits), AllEvents(r, W.CallOps(w, bits)), P.Owed(r', W.Call(w, bits)));
  }

  lemma {:induction false} Carried(hist: seq<T.Event>, owed: seq<T.Event>, did: seq<T.Event>, shown: seq<T.Event>, due: seq<T.Event>)
    requires shown + due == owed + did
    ensures hist + shown + due == hist + owed + did
  {
    assert hist + shown + due == hist + (shown + due);
    assert hist + owed + did == hist + (owed + did);
  }

  lemma {:induction false} SessionSamples(dev: Device, hist: seq<T.Event>, l: E.Label, s: T.State, r: Rest, w: W.Walk,
                                          calls: seq<seq<T.Tck>>, batches: seq<seq<seq<Op>>>, tdos: seq<seq<bool>>)
    requires R.RestsAt(l, s, r) && P.InSync(r, w) && w.seg == [] && w.run == 0
    requires Session(dev, hist, l, s, w, calls, batches, tdos)
    ensures JoinedTdo(tdos) == Sampled(dev, hist + P.Owed(r, w), P.TapOf(w), P.Joined(calls))
    decreases |calls|
  {
    if calls != [] {
      var bits, w', r' := calls[0], W.Call(w, calls[0]), AfterAll(r, W.CallOps(w, calls[0]));
      CallReadsTrueTdo(dev, hist, l, s, r, w, bits, batches[0]);
      CallLeaves(hist, l, s, r, w, bits, batches[0], r');
      var enc := E.EncodeAll(l, batches[0], 0).value;
      SessionSamples(dev, hist + T.Trace(s, enc.wire), enc.at, T.Walk(s, enc.wire), r', w', calls[1..], batches[1..], tdos[1..]);
      SampledConcat(dev, hist + P.Owed(r, w), P.TapOf(w), bits, P.Joined(calls[1..]));
    }
  }

  /** However a session is cut into calls and its ops into batches, on any device
      all calls together return what the peer would have sampled on the TAP. */
  lemma {:induction false} SessionReadsTrueTdo(dev: Device, calls: seq<seq<T.Tck>>, batches: seq<seq<seq<Op>>>, tdos: seq<seq<bool>>)
    requires Session(dev, [], E.TLR, T.TestLogicReset, W.START, calls, batches, tdos)
    ensures JoinedTdo(tdos) == Sampled(dev, [], T.TestLogicReset, P.Joined(calls))
  {
    SessionSamples(dev, [], E.TLR, T.TestLogicReset, AtReset, W.START, calls, batches, tdos);
    assert [] + P.Owed(AtReset, W.START) == [];
  }

  /** And every session comes to pass: no call raises, whatever the batching. */
  lemma {:induction false} SessionGoesOn(dev: Device, hist: seq<T.Event>, l: E.Label, s: T.State, r: Rest, w: W.Walk,
                                         calls: seq<seq<T.Tck>>, batches: seq<seq<seq<Op>>>) returns (tdos: seq<seq<bool>>)
    requires R.RestsAt(l, s, r) && P.InSync(r, w) && w.seg == [] && w.run == 0
    requires Cuts(w, calls, batches)
    ensures Session(dev, hist, l, s, w, calls, batches, tdos)
    decreases |calls|
  {
    tdos := [];
    if calls != [] {
      var r' := AfterAll(r, W.CallOps(w, calls[0]));
      CallReadsTrueTdo(dev, hist, l, s, r, w, calls[0], batches[0]);
      CallLeaves(hist, l, s, r, w, calls[0], batches[0], r');
      var enc := E.EncodeAll(l, batches[0], 0).value;
      var rest := SessionGoesOn(dev, hist + T.Trace(s, enc.wire), enc.at, T.Walk(s, enc.wire), r', W.Call(w, calls[0]), calls[1..], batches[1..]);
      tdos := [Sampled(dev, hist + P.Owed(r, w), P.TapOf(w), calls[0])] + rest;
      assert tdos[1..] == rest;
    }
  }

  /** The batches of each call hold the ops it posts. */
  predicate Cuts(w: W.Walk, calls: seq<seq<T.Tck>>, batches: seq<seq<seq<Op>>>)
    decreases |calls|
  {
    |calls| == |batches| &&
    (calls == [] || (R.Flatten(batches[0]) == W.CallOps(w, calls[0]) && Cuts(W.Call(w, calls[0]), calls[1..], batches[1..])))
  }
}
