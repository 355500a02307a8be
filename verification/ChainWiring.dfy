/** The padding a chain object keeps is the padding its hardware needs. */
module ChainWiring {
  import opened BitSequences
  import opened ChainGeometry
  import opened Wrappers
  import J = JtagOps
  import C = ChainCompiler
  import R = ChainRefinement
  import A = ChainAlone

  /** The TAPs of `order` have the IR lengths of the hardware. */
  predicate Wired<S>(order: seq<Tap>, taps: seq<C.TapHw<S>>) {
    |order| == |taps| && forall k :: 0 <= k < |order| ==> |taps[k].ir| == order[k].irlen
  }

  lemma {:induction false} WiredSum<S>(order: seq<Tap>, taps: seq<C.TapHw<S>>)
    requires Wired(order, taps)
    ensures SumIr(order) == C.IrBits(taps)
    decreases |order|
  {
    if order != [] {
      WiredSum(order[1..], taps[1..]);
    }
  }

  /** The geometry of every enabled TAP of a tiled chain is the one the
      refinement of its ops starts from. */
  lemma {:induction false} ContextIsGeometry<S>(cs: Contexts, order: seq<Tap>, taps: seq<C.TapHw<S>>, k: nat)
    requires Tiled(cs, order) && Wired(order, taps) && k < |order|
    ensures order[k] in cs
    ensures var c := cs[order[k]];
            && c.irPre >= 0 && c.irPost >= 0 && c.drPre >= 0 && c.drPost >= 0
            && C.Geometry(c.irPre, c.irPost, c.drPre, c.drPost, order[k].irlen) == R.Geo(taps, k)
  {
    assert Placed(cs, order, k);
    WiredSum(order[..k], taps[..k]);
    WiredSum(order[k + 1..], taps[k + 1..]);
  }

  // ----- A batch of TapOps --------------------------------------------------------------

  /** How a posted op fares: rejected for a TAP the chain does not know or has
      detached, or translated. */
  datatype Verdict = Unregistered | NotAttached | Translated(reading: C.Reading)

  datatype Flush = Flush(contexts: Contexts, posted: seq<J.Op>, verdicts: seq<Verdict>)

  /** Padding lengths are lengths. */
  predicate Measured(cs: Contexts) {
    forall t :: t in cs && cs[t].enabled ==> cs[t].irPre >= 0 && cs[t].irPost >= 0 && cs[t].drPre >= 0 && cs[t].drPost >= 0
  }

  function GeometryOf(t: Tap, c: Ctx): C.Geometry
    requires c.irPre >= 0 && c.irPost >= 0 && c.drPre >= 0 && c.drPost >= 0
  {
    C.Geometry(c.irPre, c.irPost, c.drPre, c.drPost, t.irlen)
  }

  /** An IR scan loaded `loads` into `t` and ones into everybody else, detached
      contexts included. */
  function Cached(cs: Contexts, t: Tap, loads: Option<Bits>): (r: Contexts)
    ensures r.Keys == cs.Keys
  {
    if loads.None? then cs
    else map u | u in cs :: cs[u].(currentIr := if u == t then loads else Some(Ones(u.irlen)))
  }

  /** Nothing but cached instructions differs. */
  predicate SamePlaces(a: Contexts, b: Contexts) {
    a.Keys == b.Keys && forall t :: t in a ==> b[t] == a[t].(currentIr := b[t].currentIr)
  }

  function FlushOne(cs: Contexts, t: Tap, op: C.TapOp): (r: Flush)
    requires Measured(cs)
    ensures SamePlaces(cs, r.contexts) && Measured(r.contexts) && |r.verdicts| == 1
  {
    if t !in cs then Flush(cs, [], [Unregistered])
    else if !cs[t].enabled then Flush(cs, [], [NotAttached])
    else
      var c := C.Compile(GeometryOf(t, cs[t]), cs[t].currentIr, op);
      Flush(Cached(cs, t, c.loads), c.ops, [Translated(c.reading)])
  }

  datatype Posted = Posted(tap: Tap, op: C.TapOp)

  function FlushAll(cs: Contexts, batch: seq<Posted>): (r: Flush)
    requires Measured(cs)
    ensures SamePlaces(cs, r.contexts) && |r.verdicts| == |batch|
    decreases |batch|
  {
    if batch == [] then Flush(cs, [], [])
    else
      var first := FlushOne(cs, batch[0].tap, batch[0].op);
      var rest := FlushAll(first.contexts, batch[1..]);
      Flush(rest.contexts, first.posted + rest.posted, first.verdicts + rest.verdicts)
  }

  lemma {:induction false} SamePlacesTiled(a: Contexts, b: Contexts, order: seq<Tap>)
    requires Tiled(a, order) && SamePlaces(a, b)
    ensures Tiled(b, order)
  {
    forall k | 0 <= k < |order| ensures Placed(b, order, k) { assert Placed(a, order, k); }
  }

  lemma {:induction false} TiledMeasured(cs: Contexts, order: seq<Tap>)
    requires Tiled(cs, order)
    ensures Measured(cs)
  {
    forall t | t in cs && cs[t].enabled
      ensures cs[t].irPre >= 0 && cs[t].irPost >= 0 && cs[t].drPre >= 0 && cs[t].drPost >= 0
    {
      var k :| 0 <= k < |order| && order[k] == t;
      assert Placed(cs, order, k);
    }
  }

  function CacheOf(cs: Contexts, order: seq<Tap>): (r: R.Cache)
    ensures |r| == |order|
  {
    seq(|order|, i requires 0 <= i < |order| => if order[i] in cs then cs[order[i]].currentIr else None)
  }

  /** Updating the contexts is updating the cache of the refinement. */
  lemma {:induction false} CachedIsLoaded<S>(cs: Contexts, order: seq<Tap>, taps: seq<C.TapHw<S>>, k: nat, loads: Option<Bits>)
    requires Tiled(cs, order) && Wired(order, taps) && k < |order|
    ensures CacheOf(Cached(cs, order[k], loads), order) == R.Loaded(taps, CacheOf(cs, order), k, loads)
  {
    forall i | 0 <= i < |order| ensures order[i] in cs { assert Placed(cs, order, i); }
  }

  /** The batch names the TAPs of the requests; ops for TAPs that are unknown or
      detached are requests for none. */
  predicate Names(batch: seq<Posted>, order: seq<Tap>, reqs: seq<R.Request>) {
    |batch| == |reqs| && forall i :: 0 <= i < |reqs| ==> NamesOne(batch[i], order, reqs[i])
  }

  predicate NamesOne(p: Posted, order: seq<Tap>, r: R.Request) {
    p.op == r.op && if r.k < |order| then p.tap == order[r.k] else p.tap !in order
  }

  /** Such an op is refused, and nothing is done for it. */
  lemma {:induction false} FlushRefused(cs: Contexts, order: seq<Tap>, t: Tap, op: C.TapOp)
    requires Tiled(cs, order) && Measured(cs) && t !in order
    ensures var f := FlushOne(cs, t, op);
            f.contexts == cs && f.posted == [] && f.verdicts == [if t in cs then NotAttached else Unregistered]
  {}

  /** What the futures of a batch get: of each translated op, its part of the TDO
      of the last Shift posted so far. */
  function Readings<S>(b: C.Behaviour<S>, x: C.Shown<S>, cs: Contexts, batch: seq<Posted>): (r: seq<Option<Bits>>)
    requires Measured(cs)
    ensures |r| == |batch|
    decreases |batch|
  {
    if batch == [] then []
    else
      var first := FlushOne(cs, batch[0].tap, batch[0].op);
      var y := C.Exec(b, x, first.posted);
      [if first.verdicts[0].Translated? then R.Read(y.tdo, first.verdicts[0].reading) else None]
      + Readings(b, y, first.contexts, batch[1..])
  }

  /** What a flush achieves on the hardware behind a tiled chain: the ops posted
      do to every TAP what the TapOps mean, one after the other, the futures get
      the bits those read, and the cached instructions are true again. */
  ghost predicate Means<S>(b: C.Behaviour<S>, x: C.Shown<S>, cs: Contexts, order: seq<Tap>, reqs: seq<R.Request>, f: Flush,
                           readings: seq<Option<Bits>>)
    requires |order| == |C.Commit(b, x.hw).taps| && R.SizedRun(C.Commit(b, x.hw).taps, reqs)
  {
    var m := R.MeaningRun(b, C.Commit(b, x.hw).taps, CacheOf(cs, order), reqs);
    && C.Commit(b, C.Exec(b, x, f.posted).hw).taps == m.taps
    && readings == m.readings
    && CacheOf(f.contexts, order) == m.cache && R.Truthful(m.taps, m.cache)
    && |f.verdicts| == |reqs| && forall i :: 0 <= i < |reqs| ==> (f.verdicts[i].Translated? <==> reqs[i].k < |order|)
  }

  lemma {:induction false} FlushMeans<S(!new)>(b: C.Behaviour<S>, x: C.Shown<S>, cs: Contexts, order: seq<Tap>,
                                              batch: seq<Posted>, reqs: seq<R.Request>)
    requires C.Lawful(b) && Tiled(cs, order) && Measured(cs) && Wired(order, C.Commit(b, x.hw).taps)
    requires Names(batch, order, reqs) && R.SizedRun(C.Commit(b, x.hw).taps, reqs)
    requires R.Truthful(C.Commit(b, x.hw).taps, CacheOf(cs, order))
    ensures Means(b, x, cs, order, reqs, FlushAll(cs, batch), Readings(b, x, cs, batch))
    decreases |batch|
  {
    if batch != [] {
      var first := FlushOne(cs, batch[0].tap, batch[0].op);
      var y := C.Exec(b, x, first.posted);
      assert NamesOne(batch[0], order, reqs[0]);
      if reqs[0].k < |order| {
        FirstMeans(b, x, cs, order, reqs[0].k, reqs[0].op, first);
      } else {
        FlushRefused(cs, order, batch[0].tap, batch[0].op);
      }
      SamePlacesTiled(cs, first.contexts, order);
      R.SizedTail(C.Commit(b, x.hw).taps, C.Commit(b, y.hw).taps, reqs);
      FlushMeans(b, y, first.contexts, order, batch[1..], reqs[1..]);
      MeansCons(b, x, cs, order, reqs, first, y, FlushAll(first.contexts, batch[1..]), Readings(b, y, first.contexts, batch[1..]));
    }
  }

  /** How the first op fares, and what it is to do. */
  ghost predicate FirstAsMeant<S>(b: C.Behaviour<S>, x: C.Shown<S>, cs: Contexts, order: seq<Tap>, r: R.Request,
                                  f: Flush, y: C.Shown<S>)
    requires |order| == |C.Commit(b, x.hw).taps| && |f.verdicts| == 1
  {
    var taps, cache := C.Commit(b, x.hw).taps, CacheOf(cs, order);
    if r.k < |order| then
      var m := R.Meaning(b, taps, cache, r.k, r.op);
      && f.verdicts[0].Translated?
      && C.Commit(b, y.hw).taps == m.taps && R.Read(y.tdo, f.verdicts[0].reading) == m.reading
      && CacheOf(f.contexts, order) == R.CacheAfter(taps, cache, r.k, r.op)
    else
      !f.verdicts[0].Translated? && C.Commit(b, y.hw).taps == taps && CacheOf(f.contexts, order) == cache
  }

  lemma {:induction false} MeansCons<S>(b: C.Behaviour<S>, x: C.Shown<S>, cs: Contexts, order: seq<Tap>, reqs: seq<R.Request>,
                                       first: Flush, y: C.Shown<S>, rest: Flush, readings: seq<Option<Bits>>)
    requires |order| == |C.Commit(b, x.hw).taps| && R.SizedRun(C.Commit(b, x.hw).taps, reqs)
    requires reqs != [] && |first.verdicts| == 1 && y == C.Exec(b, x, first.posted)
    requires FirstAsMeant(b, x, cs, order, reqs[0], first, y) && |order| == |C.Commit(b, y.hw).taps|
    requires R.SizedRun(C.Commit(b, y.hw).taps, reqs[1..]) && Means(b, y, first.contexts, order, reqs[1..], rest, readings)
    ensures Means(b, x, cs, order, reqs, Flush(rest.contexts, first.posted + rest.posted, first.verdicts + rest.verdicts),
                  [if first.verdicts[0].Translated? then R.Read(y.tdo, first.verdicts[0].reading) else None] + readings)
  {
    C.ExecConcat(b, x, first.posted, rest.posted);
  }

  lemma {:induction false} FirstMeans<S(!new)>(b: C.Behaviour<S>, x: C.Shown<S>, cs: Contexts, order: seq<Tap>,
                                              k: nat, op: C.TapOp, f: Flush)
    requires C.Lawful(b) && Tiled(cs, order) && Measured(cs) && Wired(order, C.Commit(b, x.hw).taps) && k < |order|
    requires R.Sized(C.Commit(b, x.hw).taps, k, op) && f == FlushOne(cs, order[k], op)
    requires R.Truthful(C.Commit(b, x.hw).taps, CacheOf(cs, order))
    ensures var taps, cache, y := C.Commit(b, x.hw).taps, CacheOf(cs, order), C.Exec(b, x, f.posted);
            var m := R.Meaning(b, taps, cache, k, op);
            && C.Commit(b, y.hw).taps == m.taps && Wired(order, m.taps) && R.SameLengths(m.taps, taps)
            && CacheOf(f.contexts, order) == R.CacheAfter(taps, cache, k, op)
            && R.Truthful(m.taps, CacheOf(f.contexts, order))
            && f.verdicts[0].Translated? && R.Read(y.tdo, f.verdicts[0].reading) == m.reading
  {
    var taps := C.Commit(b, x.hw).taps;
    assert Placed(cs, order, k);
    ContextIsGeometry(cs, order, taps, k);
    R.OpRefines(b, x, taps, CacheOf(cs, order), k, op);
    CachedIsLoaded(cs, order, taps, k, C.Compile(R.Geo(taps, k), cs[order[k]].currentIr, op).loads);
    R.MeaningKeepsLengths(b, taps, CacheOf(cs, order), k, op);
  }

  /** A batch keeps a uniform cache uniform. */
  lemma {:induction false} FlushUniform(cs: Contexts, order: seq<Tap>, batch: seq<Posted>)
    requires Tiled(cs, order) && Measured(cs) && R.Uniform(CacheOf(cs, order))
    ensures R.Uniform(CacheOf(FlushAll(cs, batch).contexts, order))
    decreases |batch|
  {
    if batch != [] {
      var first := FlushOne(cs, batch[0].tap, batch[0].op);
      forall i | 0 <= i < |order| ensures order[i] in cs { assert Placed(cs, order, i); }
      SamePlacesTiled(cs, first.contexts, order);
      if first.contexts == cs {
        assert CacheOf(first.contexts, order) == CacheOf(cs, order);
      } else {
        assert forall i :: 0 <= i < |order| ==> CacheOf(first.contexts, order)[i].Some?;
      }
      FlushUniform(first.contexts, order, batch[1..]);
    }
  }

  // ----- Every op of every batch --------------------------------------------------------------

  /** Whatever was posted before it, an op finds a truthful cache, uniform if it was,
      and is served; or it is refused. */
  ghost predicate PostServed<S>(b: C.Behaviour<S>, z: C.Shown<S>, cs: Contexts, order: seq<Tap>, r: R.Request, reading: Option<Bits>) {
    && R.Truthful(C.Commit(b, z.hw).taps, CacheOf(cs, order))
    && if r.k < |order| then A.Served(b, z, CacheOf(cs, order), r, reading) else reading == None
  }

  lemma {:induction false} EveryPostServed<S(!new)>(b: C.Behaviour<S>, x: C.Shown<S>, cs: Contexts, order: seq<Tap>,
                                                   batch: seq<Posted>, reqs: seq<R.Request>, i: nat)
    requires C.Lawful(b) && Tiled(cs, order) && Measured(cs) && Wired(order, C.Commit(b, x.hw).taps)
    requires Names(batch, order, reqs) && R.SizedRun(C.Commit(b, x.hw).taps, reqs) && i < |batch|
    requires R.Truthful(C.Commit(b, x.hw).taps, CacheOf(cs, order))
    ensures var f := FlushAll(cs, batch[..i]);
            && (R.Uniform(CacheOf(cs, order)) ==> R.Uniform(CacheOf(f.contexts, order)))
            && PostServed(b, C.Exec(b, x, f.posted), f.contexts, order, reqs[i], Readings(b, x, cs, batch)[i])
    decreases i
  {
    assert NamesOne(batch[0], order, reqs[0]);
    if i == 0 {
      assert batch[..0] == [];
      FirstServed(b, x, cs, order, batch, reqs[0]);
    } else {
      var first := FlushOne(cs, batch[0].tap, batch[0].op);
      var y := C.Exec(b, x, first.posted);
      FirstLeaves(b, x, cs, order, batch[0], reqs[0], first, y);
      R.SizedTail(C.Commit(b, x.hw).taps, C.Commit(b, y.hw).taps, reqs);
      NamesTail(batch, order, reqs);
      EveryPostServed(b, y, first.contexts, order, batch[1..], reqs[1..], i - 1);
      FlushPrefix(b, x, cs, batch, i, first, y, FlushAll(cs, batch[..i]), FlushAll(first.contexts, batch[1..][..i - 1]));
    }
  }

  lemma {:induction false} NamesTail(batch: seq<Posted>, order: seq<Tap>, reqs: seq<R.Request>)
    requires Names(batch, order, reqs) && batch != []
    ensures Names(batch[1..], order, reqs[1..])
  {
    forall j | 0 <= j < |reqs| - 1 ensures NamesOne(batch[1..][j], order, reqs[1..][j]) { assert NamesOne(batch[j + 1], order, reqs[j + 1]); }
  }

  lemma {:induction false} FlushPrefix<S>(b: C.Behaviour<S>, x: C.Shown<S>, cs: Contexts, batch: seq<Posted>, i: nat,
                                          first: Flush, y: C.Shown<S>, f: Flush, g: Flush)
    requires Measured(cs) && 0 < i < |batch| && first == FlushOne(cs, batch[0].tap, batch[0].op) && y == C.Exec(b, x, first.posted)
    requires f == FlushAll(cs, batch[..i]) && g == FlushAll(first.contexts, batch[1..][..i - 1])
    ensures f.contexts == g.contexts && C.Exec(b, x, f.posted) == C.Exec(b, y, g.posted)
    ensures Readings(b, x, cs, batch)[i] == Readings(b, y, first.contexts, batch[1..])[i - 1]
  {
    assert batch[..i][0] == batch[0] && batch[..i][1..] == batch[1..][..i - 1];
    C.ExecConcat(b, x, first.posted, g.posted);
  }

  lemma {:induction false} FirstServed<S(!new)>(b: C.Behaviour<S>, x: C.Shown<S>, cs: Contexts, order: seq<Tap>,
                                               batch: seq<Posted>, r: R.Request)
    requires C.Lawful(b) && Tiled(cs, order) && Measured(cs) && Wired(order, C.Commit(b, x.hw).taps)
    requires batch != [] && NamesOne(batch[0], order, r) && (r.k < |order| ==> R.Sized(C.Commit(b, x.hw).taps, r.k, r.op))
    requires R.Truthful(C.Commit(b, x.hw).taps, CacheOf(cs, order))
    ensures PostServed(b, x, cs, order, r, Readings(b, x, cs, batch)[0])
  {
    var taps := C.Commit(b, x.hw).taps;
    if r.k < |order| {
      assert Placed(cs, order, r.k);
      ContextIsGeometry(cs, order, taps, r.k);
      A.OpServed(b, x, taps, CacheOf(cs, order), r, Readings(b, x, cs, batch)[0]);
    } else {
      FlushRefused(cs, order, batch[0].tap, batch[0].op);
    }
  }

  /** What the first op leaves for the others. */
  lemma {:induction false} FirstLeaves<S(!new)>(b: C.Behaviour<S>, x: C.Shown<S>, cs: Contexts, order: seq<Tap>,
                                               p: Posted, r: R.Request, first: Flush, y: C.Shown<S>)
    requires C.Lawful(b) && Tiled(cs, order) && Measured(cs) && Wired(order, C.Commit(b, x.hw).taps)
    requires NamesOne(p, order, r) && (r.k < |order| ==> R.Sized(C.Commit(b, x.hw).taps, r.k, r.op))
    requires R.Truthful(C.Commit(b, x.hw).taps, CacheOf(cs, order))
    requires first == FlushOne(cs, p.tap, p.op) && y == C.Exec(b, x, first.posted)
    ensures Tiled(first.contexts, order) && Wired(order, C.Commit(b, y.hw).taps)
    ensures R.SameLengths(C.Commit(b, y.hw).taps, C.Commit(b, x.hw).taps)
    ensures R.Truthful(C.Commit(b, y.hw).taps, CacheOf(first.contexts, order))
    ensures R.Uniform(CacheOf(cs, order)) ==> R.Uniform(CacheOf(first.contexts, order))
  {
    if r.k < |order| {
      FirstMeans(b, x, cs, order, r.k, r.op, first);
    } else {
      FlushRefused(cs, order, p.tap, p.op);
    }
    SamePlacesTiled(cs, first.contexts, order);
  }

  // ----- Topology changes and the cache -----------------------------------------------------

  /** A detached TAP is cached as nothing, or as what padding loads into it. */
  predicate Parked(cs: Contexts) {
    forall t :: t in cs && !cs[t].enabled ==> cs[t].currentIr == None || cs[t].currentIr == Some(Ones(t.irlen))
  }

  /** Nothing is cached for a TAP of the chain, or that it is in BYPASS. */
  predicate AtMostBypass(cs: Contexts, order: seq<Tap>) {
    forall k :: 0 <= k < |order| && order[k] in cs ==>
      cs[order[k]].currentIr == None || cs[order[k]].currentIr == Some(Ones(order[k].irlen))
  }

  /** Cached instructions other than that of `t` are kept. */
  predicate CacheKept(a: Contexts, b: Contexts, t: Tap) {
    forall u :: u in a && u != t ==> u in b && b[u].currentIr == a[u].currentIr
  }

  /** After a TAP joined: exactly when the cached instructions are still true. */
  lemma {:induction false} JoinKeepsCacheIff<S>(a: Contexts, b: Contexts, order: seq<Tap>, k: nat, t: Tap,
                                               taps: seq<C.TapHw<S>>, h: C.TapHw<S>)
    requires Tiled(a, order) && k <= |order| && t !in order && t in b && CacheKept(a, b, t)
    requires Wired(order, taps) && |h.ir| == t.irlen && R.Truthful(taps, CacheOf(a, order))
    requires b[t].currentIr == None || b[t].currentIr == Some(Ones(t.irlen))
    ensures R.Truthful(R.Inserted(taps, k, h), CacheOf(b, InsertAt(order, k, t))) <==>
      && (b[t].currentIr.Some? ==> R.InBypass(h))
      && (R.InBypass(h) || forall i :: 0 <= i < |order| && order[i] in a && a[order[i]].currentIr.Some? ==>
                             a[order[i]].currentIr == Some(Ones(order[i].irlen)))
  {
    var cache := CacheOf(a, order);
    forall i | 0 <= i < |order| ensures order[i] in a && order[i] != t { assert Placed(a, order, i) && order[i] in order; }
    CacheJoins(a, b, order, k, t);
    R.JoinTruthfulIff(taps, cache, k, h, b[t].currentIr);
  }

  lemma {:induction false} CacheJoins(a: Contexts, b: Contexts, order: seq<Tap>, k: nat, t: Tap)
    requires k <= |order| && t in b && CacheKept(a, b, t)
    requires forall i :: 0 <= i < |order| ==> order[i] in a && order[i] != t
    ensures CacheOf(b, InsertAt(order, k, t)) == R.Inserted(CacheOf(a, order), k, b[t].currentIr)
  {
    var after := InsertAt(order, k, t);
    forall j | 0 <= j < |after|
      ensures CacheOf(b, after)[j] == R.Inserted(CacheOf(a, order), k, b[t].currentIr)[j]
    {
      assert after[j] == if j < k then order[j] else if j == k then t else order[j - 1];
    }
  }
}
