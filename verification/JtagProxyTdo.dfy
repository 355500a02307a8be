/** The read side of the proxy: the TDO vector a call returns is the one the
    peer would have sampled on the TAP itself. */
module JtagProxyTdo {
  import opened BitSequences
  import T = TapController
  import opened JtagOps
  import W = JtagTmsWalker
  import E = JtagOpEncoder
  import R = EncoderRefinement
  import P = JtagProxy

  /** A device is any function from the events it has seen to the bit it drives. */
  type Device = seq<T.Event> -> bool

  /** TDO on every TCK: driven in Shift, zero elsewhere. */
  function Sampled(dev: Device, hist: seq<T.Event>, s: T.State, w: seq<T.Tck>): (v: seq<bool>)
    ensures |v| == |w|
    decreases |w|
  {
    if w == [] then []
    else [s.Shift? && dev(hist)] + Sampled(dev, hist + T.EdgeEvents(s, w[0]), T.Next(s, w[0].tms), w[1..])
  }

  /** The driven bits alone: they depend on the events only. */
  function Driven(dev: Device, hist: seq<T.Event>, ev: seq<T.Event>): seq<bool>
    decreases |ev|
  {
    if ev == [] then []
    else (if ev[0].Shifted? then [dev(hist)] else []) + Driven(dev, hist + [ev[0]], ev[1..])
  }

  lemma {:induction false} DrivenConcat(dev: Device, hist: seq<T.Event>, a: seq<T.Event>, b: seq<T.Event>)
    ensures Driven(dev, hist, a + b) == Driven(dev, hist, a) + Driven(dev, hist + a, b)
    decreases |a|
  {
    if a == [] {
      assert a + b == b && hist + a == hist;
    } else {
      var next := hist + [a[0]];
      assert (a + b)[0] == a[0] && (a + b)[1..] == a[1..] + b;
      DrivenConcat(dev, next, a[1..], b);
      assert next + a[1..] == hist + a;
      Assoc(if a[0].Shifted? then [dev(hist)] else [], Driven(dev, next, a[1..]), Driven(dev, hist + a, b));
    }
  }

  lemma {:induction false} DrivenQuiet(dev: Device, hist: seq<T.Event>, ev: seq<T.Event>)
    requires forall e :: e in ev ==> !e.Shifted?
    ensures Driven(dev, hist, ev) == []
    decreases |ev|
  {
    if ev != [] {
      DrivenQuiet(dev, hist + [ev[0]], ev[1..]);
    }
  }

  /** `n` bits starting at position `from`: `bits` at the given positions,
      zeros elsewhere. */
  function Spread(from: nat, n: nat, positions: seq<nat>, bits: seq<bool>): (v: seq<bool>)
    ensures |v| == n
    decreases n
  {
    if n == 0 then []
    else if positions != [] && positions[0] == from && bits != []
    then [bits[0]] + Spread(from + 1, n - 1, positions[1..], bits[1..])
    else [false] + Spread(from + 1, n - 1, positions, bits)
  }

  lemma {:induction false} PositionsAhead(s: T.State, w: seq<T.Tck>, base: nat)
    ensures forall p :: p in T.ShiftPositions(s, w, base) ==> base <= p < base + |w|
    decreases |w|
  {
    if w != [] {
      PositionsAhead(T.Next(s, w[0].tms), w[1..], base + 1);
    }
  }

  function IfShift<X>(s: T.State, x: X): seq<X> { if s.Shift? then [x] else [] }

  /** The first TCK of a stream: its bit, and the driven bits behind it. */
  lemma {:induction false} DrivenFirst(dev: Device, hist: seq<T.Event>, s: T.State, w: seq<T.Tck>, e: seq<T.Event>)
    requires w != [] && e == T.EdgeEvents(s, w[0])
    ensures Driven(dev, hist, T.Trace(s, w)) == IfShift(s, dev(hist)) + Driven(dev, hist + e, T.Trace(T.Next(s, w[0].tms), w[1..]))
  {
    DrivenConcat(dev, hist, e, T.Trace(T.Next(s, w[0].tms), w[1..]));
    if s.Shift? {
      assert e[1..] == [];
    } else {
      DrivenQuiet(dev, hist, e);
    }
  }

  lemma {:induction false} ShiftPositionsCons(s: T.State, bits: seq<T.Tck>, i: nat)
    requires bits != []
    ensures T.ShiftPositions(s, bits, i) == IfShift(s, i) + T.ShiftPositions(T.Next(s, bits[0].tms), bits[1..], i + 1)
  {}

  lemma {:induction false} SpreadFirst(from: nat, n: nat, s: T.State, b: bool, ps: seq<nat>, bits: seq<bool>)
    requires ps != [] ==> ps[0] > from
    ensures Spread(from, n + 1, IfShift(s, from) + ps, IfShift(s, b) + bits) == [s.Shift? && b] + Spread(from + 1, n, ps, bits)
  {
    if s.Shift? {
      assert ([from] + ps)[1..] == ps && ([b] + bits)[1..] == bits;
    } else {
      assert IfShift(s, from) + ps == ps && IfShift(s, b) + bits == bits;
    }
  }

  /** Sampling is spreading the driven bits over the Shift TCKs. */
  lemma {:induction false} SampledIsSpread(dev: Device, hist: seq<T.Event>, s: T.State, w: seq<T.Tck>, base: nat,
                                           ps: seq<nat>, driven: seq<bool>)
    requires ps == T.ShiftPositions(s, w, base) && driven == Driven(dev, hist, T.Trace(s, w))
    ensures Sampled(dev, hist, s, w) == Spread(base, |w|, ps, driven)
    decreases |w|
  {
    if w != [] {
      var e, s1 := T.EdgeEvents(s, w[0]), T.Next(s, w[0].tms);
      var ps1, driven1 := T.ShiftPositions(s1, w[1..], base + 1), Driven(dev, hist + e, T.Trace(s1, w[1..]));
      SampledIsSpread(dev, hist + e, s1, w[1..], base + 1, ps1, driven1);
      PositionsAhead(s1, w[1..], base + 1);
      DrivenFirst(dev, hist, s, w, e);
      ShiftPositionsCons(s, w, base);
      SampledStep(dev, hist, s, w, base, Sampled(dev, hist + e, s1, w[1..]), ps1, driven1, ps, driven);
    }
  }

  lemma {:induction false} SampledStep(dev: Device, hist: seq<T.Event>, s: T.State, w: seq<T.Tck>, base: nat, tail: seq<bool>,
                                       ps: seq<nat>, driven: seq<bool>, allPs: seq<nat>, allDriven: seq<bool>)
    requires w != [] && tail == Spread(base + 1, |w| - 1, ps, driven) && forall p :: p in ps ==> base < p
    requires allPs == IfShift(s, base) + ps && allDriven == IfShift(s, dev(hist)) + driven
    ensures [s.Shift? && dev(hist)] + tail == Spread(base, |w|, allPs, allDriven)
  {
    assert ps != [] ==> ps[0] in ps;
    SpreadFirst(base, |w| - 1, s, dev(hist), ps, driven);
  }

  // ----- Slicing results out of the encoder's stream ------------------------

  /** TDO of each slot: `tdo[offset : offset + len(tdi)]`. */
  predicate Fits(v: seq<bool>, slots: seq<E.Slot>) {
    forall i :: 0 <= i < |slots| ==>
      slots[i].op.Shift? && slots[i].offset + |slots[i].op.tdi| <= |v|
  }

  function Slices(v: seq<bool>, slots: seq<E.Slot>): (r: seq<seq<bool>>)
    requires Fits(v, slots)
    ensures |r| == |slots| && forall i :: 0 <= i < |r| ==> |r[i]| == |slots[i].op.tdi|
  {
    seq(|slots|, i requires 0 <= i < |slots| => v[slots[i].offset..][..|slots[i].op.tdi|])
  }

  function Flat(r: seq<seq<bool>>): seq<bool> { if r == [] then [] else r[0] + Flat(r[1..]) }

  function Gather(v: seq<bool>, positions: seq<nat>): (r: seq<bool>)
    requires forall p :: p in positions ==> p < |v|
    ensures |r| == |positions|
  {
    seq(|positions|, i requires 0 <= i < |positions| => assert positions[i] in positions; v[positions[i]])
  }

  lemma {:induction false} SlicesGather(v: seq<bool>, slots: seq<E.Slot>)
    requires Fits(v, slots)
    ensures forall p :: p in R.SlotPositions(slots) ==> p < |v|
    ensures Flat(Slices(v, slots)) == Gather(v, R.SlotPositions(slots))
    decreases |slots|
  {
    if slots != [] {
      SlicesGather(v, slots[1..]);
      assert Slices(v, slots)[1..] == Slices(v, slots[1..]);
      GatherSlice(v, slots[0].offset, |slots[0].op.tdi|, R.SlotPositions(slots[1..]));
    }
  }

  lemma {:induction false} GatherSlice(v: seq<bool>, offset: nat, n: nat, ps: seq<nat>)
    requires offset + n <= |v| && forall p :: p in ps ==> p < |v|
    ensures forall p :: p in R.Range(offset, n) + ps ==> p < |v|
    ensures Gather(v, R.Range(offset, n) + ps) == v[offset..][..n] + Gather(v, ps)
  {
    var here := R.Range(offset, n);
    assert Gather(v, here) == v[offset..][..n];
    assert Gather(v, here + ps) == Gather(v, here) + Gather(v, ps);
  }

  /** Gathering the Shift TCKs of a sampled stream yields the driven bits. */
  lemma {:induction false} GatherSampled(dev: Device, hist: seq<T.Event>, s: T.State, w: seq<T.Tck>,
                                         base: nat, v: seq<bool>)
    requires base + |w| == |v| && v[base..] == Sampled(dev, hist, s, w)
    ensures forall p :: p in T.ShiftPositions(s, w, base) ==> p < |v|
    ensures Gather(v, T.ShiftPositions(s, w, base)) == Driven(dev, hist, T.Trace(s, w))
    decreases |w|
  {
    if w != [] {
      var e, s1 := T.EdgeEvents(s, w[0]), T.Next(s, w[0].tms);
      assert v[base] == v[base..][0];
      assert v[base + 1..] == v[base..][1..] == Sampled(dev, hist + e, s1, w[1..]);
      GatherSampled(dev, hist + e, s1, w[1..], base + 1, v);
      DrivenFirst(dev, hist, s, w, e);
      ShiftPositionsCons(s, w, base);
      GatherFirst(v, base, s, dev(hist), T.ShiftPositions(s1, w[1..], base + 1));
    }
  }

  lemma {:induction false} GatherFirst(v: seq<bool>, base: nat, s: T.State, b: bool, ps: seq<nat>)
    requires base < |v| && v[base] == (s.Shift? && b) && forall p :: p in ps ==> p < |v|
    ensures forall p :: p in IfShift(s, base) + ps ==> p < |v|
    ensures Gather(v, IfShift(s, base) + ps) == IfShift(s, b) + Gather(v, ps)
  {
    if s.Shift? {
      assert Gather(v, [base] + ps) == [v[base]] + Gather(v, ps);
    } else {
      assert IfShift(s, base) + ps == ps && IfShift(s, b) + Gather(v, ps) == Gather(v, ps);
    }
  }

  // ----- Placing results in the peer's stream -------------------------------

  function SpanPositions(spans: seq<W.Span>): seq<nat> {
    if spans == [] then []
    else (if spans[0].start <= spans[0].stop then R.Range(spans[0].start, spans[0].stop - spans[0].start) else [])
         + SpanPositions(spans[1..])
  }

  /** Spans in order, apart, inside [from, n). */
  predicate Placed(spans: seq<W.Span>, from: nat, n: nat) {
    if spans == [] then from <= n
    else from <= spans[0].start < spans[0].stop && Placed(spans[1..], spans[0].stop, n)
  }

  predicate Sized(spans: seq<W.Span>, results: seq<seq<bool>>) {
    |spans| == |results|
    && forall i :: 0 <= i < |spans| ==> spans[i].start + |results[i]| == spans[i].stop
  }

  /** The reassembled vector from `cursor` on. */
  function Assembled(cursor: nat, n: nat, spans: seq<W.Span>, results: seq<seq<bool>>): seq<bool>
    requires Placed(spans, cursor, n) && |spans| == |results|
    decreases |spans|
  {
    if spans == [] then Zeros(n - cursor)
    else Zeros(spans[0].start - cursor) + results[0] + Assembled(spans[0].stop, n, spans[1..], results[1..])
  }

  method Reassemble(n: nat, spans: seq<W.Span>, results: seq<seq<bool>>) returns (tdo: seq<bool>)
    requires Placed(spans, 0, n) && Sized(spans, results)
    ensures tdo == Assembled(0, n, spans, results)
  {
    tdo := [];
    var cursor: nat := 0;
    var k := 0;
    assert spans[0..] == spans && results[0..] == results;
    while k < |spans|
      invariant 0 <= k <= |spans| && Partial(tdo, cursor, n, spans, results, k)
    {
      PartialStep(tdo, cursor, n, spans, results, k);
      if spans[k].start > cursor {
        tdo := tdo + Zeros(spans[k].start - cursor);
      }
      tdo := tdo + results[k];
      cursor := spans[k].stop;
      k := k + 1;
    }
    PartialEnd(tdo, cursor, n, spans, results);
    if cursor < n {
      tdo := tdo + Zeros(n - cursor);
    }
  }

  /** `tdo` is what the first `k` results make, up to `cursor`. */
  predicate Partial(tdo: seq<bool>, cursor: nat, n: nat, spans: seq<W.Span>, results: seq<seq<bool>>, k: nat)
    requires k <= |spans| == |results| && Placed(spans, 0, n)
  {
    Placed(spans[k..], cursor, n) && Assembled(0, n, spans, results) == tdo + Assembled(cursor, n, spans[k..], results[k..])
  }

  lemma {:induction false} PartialStep(tdo: seq<bool>, cursor: nat, n: nat, spans: seq<W.Span>, results: seq<seq<bool>>, k: nat)
    requires k < |spans| == |results| && Placed(spans, 0, n) && Partial(tdo, cursor, n, spans, results, k)
    ensures cursor <= spans[k].start
    ensures Partial((if spans[k].start > cursor then tdo + Zeros(spans[k].start - cursor) else tdo) + results[k],
                    spans[k].stop, n, spans, results, k + 1)
  {
    AssembledCons(cursor, n, spans, results, k);
    Regroup(tdo, Zeros(spans[k].start - cursor), results[k], Assembled(spans[k].stop, n, spans[k + 1..], results[k + 1..]));
    assert tdo + Zeros(0) == tdo;
  }

  lemma {:induction false} Regroup(a: seq<bool>, b: seq<bool>, c: seq<bool>, d: seq<bool>)
    ensures a + ((b + c) + d) == ((a + b) + c) + d
  {}

  lemma {:induction false} PartialEnd(tdo: seq<bool>, cursor: nat, n: nat, spans: seq<W.Span>, results: seq<seq<bool>>)
    requires |spans| == |results| && Placed(spans, 0, n) && Partial(tdo, cursor, n, spans, results, |spans|)
    ensures cursor <= n && Assembled(0, n, spans, results) == if cursor < n then tdo + Zeros(n - cursor) else tdo
  {
    assert spans[|spans|..] == [];
    assert tdo + Zeros(0) == tdo;
  }

  lemma {:induction false} AssembledCons(cursor: nat, n: nat, spans: seq<W.Span>, results: seq<seq<bool>>, k: nat)
    requires k < |spans| == |results| && Placed(spans[k..], cursor, n)
    ensures cursor <= spans[k].start && Placed(spans[k + 1..], spans[k].stop, n)
    ensures Assembled(cursor, n, spans[k..], results[k..]) ==
            (Zeros(spans[k].start - cursor) + results[k])
            + Assembled(spans[k].stop, n, spans[k + 1..], results[k + 1..])
  {
    assert spans[k..][1..] == spans[k + 1..] && results[k..][1..] == results[k + 1..];
  }

  lemma {:induction false} SpreadGap(from: nat, k: nat, n: nat, ps: seq<nat>, bits: seq<bool>)
    requires k <= n && (ps != [] ==> from + k <= ps[0])
    ensures Spread(from, n, ps, bits) == Zeros(k) + Spread(from + k, n - k, ps, bits)
    decreases k
  {
    if k > 0 {
      SpreadGap(from + 1, k - 1, n - 1, ps, bits);
      assert Zeros(k) == [false] + Zeros(k - 1);
    }
  }

  lemma {:induction false} SpreadBlock(from: nat, block: seq<bool>, n: nat, ps: seq<nat>, bits: seq<bool>)
    requires |block| <= n
    ensures Spread(from, n, R.Range(from, |block|) + ps, block + bits) ==
            block + Spread(from + |block|, n - |block|, ps, bits)
    decreases |block|
  {
    var range := R.Range(from, |block|);
    if block == [] {
      assert range + ps == ps && block + bits == bits;
    } else {
      assert (range + ps)[1..] == R.Range(from + 1, |block| - 1) + ps;
      assert (block + bits)[1..] == block[1..] + bits;
      SpreadBlock(from + 1, block[1..], n - 1, ps, bits);
    }
  }

  lemma {:induction false} PlacedPositions(spans: seq<W.Span>, from: nat, n: nat)
    requires Placed(spans, from, n)
    ensures from <= n && (spans != [] ==> spans[0].stop <= n)
    ensures SpanPositions(spans) != [] ==> from <= SpanPositions(spans)[0]
    decreases |spans|
  {
    if spans != [] {
      PlacedPositions(spans[1..], spans[0].stop, n);
    }
  }

  lemma {:induction false} AssembledIsSpread(cursor: nat, n: nat, spans: seq<W.Span>, results: seq<seq<bool>>,
                                             ps: seq<nat>, bits: seq<bool>)
    requires Placed(spans, cursor, n) && Sized(spans, results) && ps == SpanPositions(spans) && bits == Flat(results)
    ensures cursor <= n && Assembled(cursor, n, spans, results) == Spread(cursor, n - cursor, ps, bits)
    decreases |spans|
  {
    PlacedPositions(spans, cursor, n);
    if spans == [] {
      SpreadNothing(cursor, n - cursor);
    } else {
      var stop, ps1, bits1 := spans[0].stop, SpanPositions(spans[1..]), Flat(results[1..]);
      AssembledIsSpread(stop, n, spans[1..], results[1..], ps1, bits1);
      AssembledFirst(cursor, n, spans, results, ps, bits, ps1, bits1);
    }
  }

  lemma {:induction false} AssembledFirst(cursor: nat, n: nat, spans: seq<W.Span>, results: seq<seq<bool>>, ps: seq<nat>, bits: seq<bool>,
                                         ps1: seq<nat>, bits1: seq<bool>)
    requires spans != [] && Placed(spans, cursor, n) && Sized(spans, results) && ps == SpanPositions(spans) && bits == Flat(results)
    requires ps1 == SpanPositions(spans[1..]) && bits1 == Flat(results[1..]) && spans[0].stop <= n
    requires Assembled(spans[0].stop, n, spans[1..], results[1..]) == Spread(spans[0].stop, n - spans[0].stop, ps1, bits1)
    ensures Assembled(cursor, n, spans, results) == Spread(cursor, n - cursor, ps, bits)
  {
    AssembleStep(cursor, n, spans[0], results[0], ps1, bits1, Assembled(spans[0].stop, n, spans[1..], results[1..]),
                 ps, bits, Assembled(cursor, n, spans, results));
  }

  lemma {:induction false} AssembleStep(cursor: nat, n: nat, span: W.Span, block: seq<bool>, ps: seq<nat>, bits: seq<bool>,
                                        rest: seq<bool>, allPs: seq<nat>, allBits: seq<bool>, all: seq<bool>)
    requires cursor <= span.start < span.stop <= n && span.start + |block| == span.stop
    requires rest == Spread(span.stop, n - span.stop, ps, bits) && all == Zeros(span.start - cursor) + block + rest
    requires allPs == R.Range(span.start, span.stop - span.start) + ps && allBits == block + bits
    ensures all == Spread(cursor, n - cursor, allPs, allBits)
  {
    SpreadSpan(cursor, span.start, block, n, ps, bits);
  }

  lemma {:induction false} SpreadNothing(from: nat, n: nat)
    ensures Spread(from, n, [], []) == Zeros(n)
  {
    SpreadGap(from, n, n, [], []);
  }

  lemma {:induction false} SpreadSpan(cursor: nat, a: nat, block: seq<bool>, n: nat, ps: seq<nat>, bits: seq<bool>)
    requires cursor <= a && block != [] && a + |block| <= n
    ensures Spread(cursor, n - cursor, R.Range(a, |block|) + ps, block + bits) ==
            Zeros(a - cursor) + block + Spread(a + |block|, n - (a + |block|), ps, bits)
  {
    SpreadGap(cursor, a - cursor, n - cursor, R.Range(a, |block|) + ps, block + bits);
    SpreadBlock(a, block, n - a, ps, bits);
  }

  // ----- The spans the walker records -----------------------------------------

  predicate Collecting(w: W.Walk, i: nat) { |w.seg| <= i && (!w.pos.SHIFT? ==> w.seg == []) }

  /** Spans in order, from the first uncollected bit on, that cover the
      collected bits and the given TCKs. */
  predicate Covers(spans: seq<W.Span>, w: W.Walk, i: nat, n: nat, ps: seq<nat>)
    requires |w.seg| <= i
  {
    CoversFrom(spans, i - |w.seg|, n, R.Range(i - |w.seg|, |w.seg|) + ps)
  }

  /** A call records exactly the TCKs whose pre-edge state is Shift. */
  lemma {:induction false} CallSpansExact(w: W.Walk, bits: seq<T.Tck>, i: nat)
    requires Collecting(w, i)
    ensures Covers(W.CallSpans(w, bits, i), w, i, i + |bits|, T.ShiftPositions(P.TapOf(w), bits, i))
    decreases |bits|
  {
    if bits == [] {
      FlushSpansExact(w, i);
    } else {
      var w1, n := W.Step(w, bits[0]), i + |bits|;
      CallSpansExact(w1, bits[1..], i + 1);
      var rest, ps := W.CallSpans(w1, bits[1..], i + 1), T.ShiftPositions(P.TapOf(w1), bits[1..], i + 1);
      CallSpansCons(w, w1, bits, i);
      PositionsFirst(w, w1, bits, i);
      FirstStepExact(w, w1, bits[0], i, n, rest, ps, W.CallSpans(w, bits, i), T.ShiftPositions(P.TapOf(w), bits, i));
    }
  }

  lemma {:induction false} FirstStepExact(w: W.Walk, w1: W.Walk, t: T.Tck, i: nat, n: nat, rest: seq<W.Span>, ps: seq<nat>,
                                          spans: seq<W.Span>, positions: seq<nat>)
    requires Collecting(w, i) && w1 == W.Step(w, t) && |w1.seg| <= i + 1 && Covers(rest, w1, i + 1, n, ps)
    requires spans == W.StepSpans(w, t, i) + rest && positions == (if w.pos.SHIFT? then [i] else []) + ps
    ensures Covers(spans, w, i, n, positions)
  {
    StepShape(w, t, i, w1);
    StepCovers(w.pos.SHIFT?, w1.pos.SHIFT?, |w.seg|, |w1.seg|, W.StepSpans(w, t, i), i, n, rest, ps);
  }

  lemma {:induction false} PositionsFirst(w: W.Walk, w1: W.Walk, bits: seq<T.Tck>, i: nat)
    requires bits != [] && w1 == W.Step(w, bits[0])
    ensures T.ShiftPositions(P.TapOf(w), bits, i)
         == (if w.pos.SHIFT? then [i] else []) + T.ShiftPositions(P.TapOf(w1), bits[1..], i + 1)
  {
    P.StepFollowsTap(w, bits[0]);
    ShiftPositionsCons(P.TapOf(w), bits, i);
  }

  lemma {:induction false} CallSpansCons(w: W.Walk, w1: W.Walk, bits: seq<T.Tck>, i: nat)
    requires bits != [] && |w.seg| <= i && w1 == W.Step(w, bits[0]) && |w1.seg| <= i + 1
    ensures W.CallSpans(w, bits, i) == W.StepSpans(w, bits[0], i) + W.CallSpans(w1, bits[1..], i + 1)
  {}

  lemma {:induction false} FlushSpansExact(w: W.Walk, i: nat)
    requires Collecting(w, i)
    ensures Covers(W.FlushSpans(w, i), w, i, i, [])
  {
    var spans := W.FlushSpans(w, i);
    if spans != [] {
      assert spans[1..] == [];
    }
  }

  /** What a TCK does to the collected bits and the spans. */
  lemma {:induction false} StepShape(w: W.Walk, t: T.Tck, i: nat, w1: W.Walk)
    requires Collecting(w, i) && w1 == W.Step(w, t)
    ensures P.TapOf(w).Shift? <==> w.pos.SHIFT?
    ensures !w.pos.SHIFT? ==> |w.seg| == 0 && |w1.seg| == 0 && W.StepSpans(w, t, i) == []
    ensures w.pos.SHIFT? && w1.pos.SHIFT? ==> |w1.seg| == |w.seg| + 1 && W.StepSpans(w, t, i) == []
    ensures w.pos.SHIFT? && !w1.pos.SHIFT? ==> |w1.seg| == 0 && W.StepSpans(w, t, i) == [W.Span(i - |w.seg|, i + 1)]
  {}

  /** Spans from `from` on whose TCKs are `ps`. */
  predicate CoversFrom(spans: seq<W.Span>, from: nat, n: nat, ps: seq<nat>) {
    Placed(spans, from, n) && SpanPositions(spans) == ps
  }

  lemma {:induction false} CoversIdle(rest: seq<W.Span>, i: nat, n: nat, ps: seq<nat>)
    requires CoversFrom(rest, i + 1, n, R.Range(i + 1, 0) + ps)
    ensures CoversFrom([] + rest, i, n, R.Range(i, 0) + ([] + ps))
  {
    assert R.Range(i, 0) + ([] + ps) == ps && R.Range(i + 1, 0) + ps == ps && [] + rest == rest;
  }

  lemma {:induction false} CoversShifting(rest: seq<W.Span>, start: nat, k: nat, n: nat, ps: seq<nat>)
    requires CoversFrom(rest, start, n, R.Range(start, k + 1) + ps)
    ensures CoversFrom([] + rest, start, n, R.Range(start, k) + ([start + k] + ps))
  {
    assert [] + rest == rest;
    RangeSnoc(start, k, ps);
  }

  lemma {:induction false} CoversLeaving(rest: seq<W.Span>, start: nat, k: nat, n: nat, ps: seq<nat>)
    requires CoversFrom(rest, start + k + 1, n, R.Range(start + k + 1, 0) + ps)
    ensures CoversFrom([W.Span(start, start + k + 1)] + rest, start, n, R.Range(start, k) + ([start + k] + ps))
  {
    var all := [W.Span(start, start + k + 1)] + rest;
    assert all[1..] == rest && R.Range(start + k + 1, 0) + ps == ps;
    RangeSnoc(start, k, ps);
  }

  lemma {:induction false} RangeSnoc(start: nat, k: nat, ps: seq<nat>)
    ensures R.Range(start, k + 1) + ps == R.Range(start, k) + ([start + k] + ps)
  {
    assert R.Range(start, k + 1) == R.Range(start, k) + [start + k];
    assert R.Range(start, k) + [start + k] + ps == R.Range(start, k) + ([start + k] + ps);
  }

  /** The step of the induction, for whatever the rest of the call records:
      `k` bits collected before the TCK and `k1` after it, `here` its spans. */
  lemma {:induction false} StepCovers(shift: bool, stay: bool, k: nat, k1: nat, here: seq<W.Span>, i: nat, n: nat,
                                      rest: seq<W.Span>, ps: seq<nat>)
    requires k <= i && k1 <= i + 1 && CoversFrom(rest, i + 1 - k1, n, R.Range(i + 1 - k1, k1) + ps)
    requires !shift ==> k == 0 && k1 == 0 && here == []
    requires shift && stay ==> k1 == k + 1 && here == []
    requires shift && !stay ==> k1 == 0 && here == [W.Span(i - k, i + 1)]
    ensures CoversFrom(here + rest, i - k, n, R.Range(i - k, k) + ((if shift then [i] else []) + ps))
  {
    if !shift {
      CoversIdle(rest, i, n, ps);
    } else if stay {
      CoversShifting(rest, i - k, k, n, ps);
    } else {
      CoversLeaving(rest, i - k, k, n, ps);
    }
  }

  /** One span per posted Shift, as long as its payload. */
  lemma {:induction false} SpansMatchOps(w: W.Walk, bits: seq<T.Tck>, i: nat)
    requires Collecting(w, i)
    ensures Match(W.CallSpans(w, bits, i), R.Payloads(W.CallOps(w, bits)))
    decreases |bits|
  {
    if bits == [] {
      FlushMatches(w, i);
    } else {
      SpansMatchOps(W.Step(w, bits[0]), bits[1..], i + 1);
      FirstMatches(w, W.Step(w, bits[0]), bits, i);
    }
  }

  lemma {:induction false} FirstMatches(w: W.Walk, w1: W.Walk, bits: seq<T.Tck>, i: nat)
    requires bits != [] && Collecting(w, i) && w1 == W.Step(w, bits[0]) && |w1.seg| <= i + 1
    requires Match(W.CallSpans(w1, bits[1..], i + 1), R.Payloads(W.CallOps(w1, bits[1..])))
    ensures Match(W.CallSpans(w, bits, i), R.Payloads(W.CallOps(w, bits)))
  {
    StepMatches(w, bits[0], i);
    R.PayloadsConcat(W.StepOps(w, bits[0]), W.CallOps(w1, bits[1..]));
    CallSpansCons(w, w1, bits, i);
    MatchConcat(W.StepSpans(w, bits[0], i), R.Payloads(W.StepOps(w, bits[0])),
                W.CallSpans(w1, bits[1..], i + 1), R.Payloads(W.CallOps(w1, bits[1..])));
  }

  lemma {:induction false} FlushMatches(w: W.Walk, i: nat)
    requires Collecting(w, i)
    ensures Match(W.FlushSpans(w, i), R.Payloads(W.FlushOps(w)))
  {
    assert W.FlushOps(w) == [] || W.FlushOps(w)[1..] == [];
  }

  lemma {:induction false} StepMatches(w: W.Walk, t: T.Tck, i: nat)
    requires Collecting(w, i)
    ensures Match(W.StepSpans(w, t, i), R.Payloads(W.StepOps(w, t)))
  {
    assert W.StepOps(w, t) == [] || W.StepOps(w, t)[1..] == [];
  }

  lemma {:induction false} MatchConcat(a: seq<W.Span>, p: seq<Op>, b: seq<W.Span>, q: seq<Op>)
    requires Match(a, p) && Match(b, q)
    ensures Match(a + b, p + q)
  {}

  predicate Match(spans: seq<W.Span>, ops: seq<Op>) {
    |spans| == |ops|
    && forall k :: 0 <= k < |spans| ==> ops[k].Shift? && spans[k].start + |ops[k].tdi| == spans[k].stop
  }

  /** What a call over `n` TCKs returns: the slices of the adapter's TDO,
      put where the walker recorded the Shifts. */
  ghost predicate Returns(dev: Device, hist: seq<T.Event>, s: T.State, enc: E.Encoded,
                          spans: seq<W.Span>, n: nat, tdo: seq<bool>)
  {
    var v := Sampled(dev, hist, s, enc.wire);
    && Fits(v, enc.slots)
    && Placed(spans, 0, n) && Sized(spans, Slices(v, enc.slots))
    && tdo == Assembled(0, n, spans, Slices(v, enc.slots))
  }

  /** A call made with the books balanced, on any device with any past,
      returns exactly what the peer would have sampled on the TAP. */
  lemma {:induction false} CallReadsTrueTdo(dev: Device, hist: seq<T.Event>, l: E.Label, s: T.State, r: Rest,
                         w: W.Walk, bits: seq<T.Tck>, batches: seq<seq<Op>>)
    requires R.RestsAt(l, s, r) && P.InSync(r, w) && w.seg == [] && w.run == 0
    requires R.Flatten(batches) == W.CallOps(w, bits)
    ensures E.EncodeAll(l, batches, 0).Some?
    ensures Returns(dev, hist, s, E.EncodeAll(l, batches, 0).value, W.CallSpans(w, bits, 0), |bits|,
                    Sampled(dev, hist + P.Owed(r, w), P.TapOf(w), bits))
  {
    P.CallBalanced(r, w, bits);
    P.BatchesArePlain(batches);
    R.BatchesRefine(l, s, r, batches, 0);
    R.BatchSlotsCarryPayloads(l, batches, 0);
    CallReads(dev, hist, s, E.EncodeAll(l, batches, 0).value, r, w, bits);
  }

  lemma {:induction false} CallReads(dev: Device, hist: seq<T.Event>, s: T.State, enc: E.Encoded, r: Rest, w: W.Walk, bits: seq<T.Tck>)
    requires P.InSync(r, w) && w.seg == [] && w.run == 0
    requires P.Balanced(r, w, T.Trace(P.TapOf(w), bits), W.CallOps(w, bits), W.Call(w, bits))
    requires R.RealisesRun(s, r, W.CallOps(w, bits), 0, enc)
    requires R.SlotOps(enc.slots) == R.Payloads(W.CallOps(w, bits))
    requires forall i :: 0 <= i < |enc.slots| ==> R.Carries(enc.wire, 0, enc.slots[i])
    ensures Returns(dev, hist, s, enc, W.CallSpans(w, bits, 0), |bits|,
                    Sampled(dev, hist + P.Owed(r, w), P.TapOf(w), bits))
  {
    CallSpansExact(w, bits, 0);
    SpansMatchOps(w, bits, 0);
    SameDriven(dev, hist, T.Trace(s, enc.wire), r, w, bits);
    assert R.Range(0, 0) == [];
    AssemblesTrueTdo(dev, hist, s, enc, W.CallSpans(w, bits, 0), hist + P.Owed(r, w), P.TapOf(w), bits);
  }

  /** If the device drives the same bits on the adapter's stream as on the
      peer's, slicing and reassembling is sampling. */
  lemma {:induction false} AssemblesTrueTdo(dev: Device, hist: seq<T.Event>, s: T.State, enc: E.Encoded, spans: seq<W.Span>,
                         hist': seq<T.Event>, s': T.State, bits: seq<T.Tck>)
    requires T.ShiftPositions(s, enc.wire, 0) == R.SlotPositions(enc.slots)
    requires forall i :: 0 <= i < |enc.slots| ==> R.Carries(enc.wire, 0, enc.slots[i])
    requires Match(spans, R.SlotOps(enc.slots)) && Placed(spans, 0, |bits|)
    requires SpanPositions(spans) == T.ShiftPositions(s', bits, 0)
    requires Driven(dev, hist, T.Trace(s, enc.wire)) == Driven(dev, hist', T.Trace(s', bits))
    ensures Returns(dev, hist, s, enc, spans, |bits|, Sampled(dev, hist', s', bits))
  {
    var v := Sampled(dev, hist, s, enc.wire);
    CarriedSlotsFit(enc, v, spans);
    SlicesAreDriven(dev, hist, s, enc, v);
    SampledIsSpread(dev, hist', s', bits, 0, T.ShiftPositions(s', bits, 0), Driven(dev, hist', T.Trace(s', bits)));
    SpreadAssembles(|bits|, spans, Slices(v, enc.slots), T.ShiftPositions(s', bits, 0),
                    Driven(dev, hist', T.Trace(s', bits)), Sampled(dev, hist', s', bits));
  }

  lemma {:induction false} SpreadAssembles(n: nat, spans: seq<W.Span>, slices: seq<seq<bool>>, ps: seq<nat>, driven: seq<bool>, tdo: seq<bool>)
    requires Placed(spans, 0, n) && Sized(spans, slices) && SpanPositions(spans) == ps && Flat(slices) == driven
    requires tdo == Spread(0, n, ps, driven)
    ensures tdo == Assembled(0, n, spans, slices)
  {
    AssembledIsSpread(0, n, spans, slices, SpanPositions(spans), Flat(slices));
  }

  lemma {:induction false} SlicesAreDriven(dev: Device, hist: seq<T.Event>, s: T.State, enc: E.Encoded, v: seq<bool>)
    requires v == Sampled(dev, hist, s, enc.wire) && Fits(v, enc.slots)
    requires T.ShiftPositions(s, enc.wire, 0) == R.SlotPositions(enc.slots)
    ensures Flat(Slices(v, enc.slots)) == Driven(dev, hist, T.Trace(s, enc.wire))
  {
    SlicesGather(v, enc.slots);
    assert v[0..] == v;
    GatherSampled(dev, hist, s, enc.wire, 0, v);
  }

  lemma {:induction false} CarriedSlotsFit(enc: E.Encoded, v: seq<bool>, spans: seq<W.Span>)
    requires |v| == |enc.wire| && Match(spans, R.SlotOps(enc.slots))
    requires forall i :: 0 <= i < |enc.slots| ==> R.Carries(enc.wire, 0, enc.slots[i])
    ensures Fits(v, enc.slots) && Sized(spans, Slices(v, enc.slots))
  {
    assert forall i :: 0 <= i < |enc.slots| ==> R.Carries(enc.wire, 0, enc.slots[i]);
    assert forall k :: 0 <= k < |spans| ==> R.SlotOps(enc.slots)[k] == enc.slots[k].op;
  }

  /** Balanced books mean the device drives the same bits on both sides. */
  lemma {:induction false} SameDriven(dev: Device, hist: seq<T.Event>, shown: seq<T.Event>, r: Rest, w: W.Walk, bits: seq<T.Tck>)
    requires P.InSync(r, w) && w.seg == [] && w.run == 0
    requires P.Balanced(r, w, T.Trace(P.TapOf(w), bits), W.CallOps(w, bits), W.Call(w, bits))
    requires shown == AllEvents(r, W.CallOps(w, bits))
    ensures Driven(dev, hist, shown) == Driven(dev, hist + P.Owed(r, w), T.Trace(P.TapOf(w), bits))
  {
    var before := P.Owed(r, w);
    var r' := AfterAll(r, W.CallOps(w, bits));
    var after := P.Owed(r', W.Call(w, bits));
    OwedIsQuiet(r, w);
    OwedIsQuiet(r', W.Call(w, bits));
    DrivenConcat(dev, hist, shown, after);
    DrivenConcat(dev, hist, before, T.Trace(P.TapOf(w), bits));
    DrivenQuiet(dev, hist, before);
    DrivenQuiet(dev, hist + shown, after);
    var trace := T.Trace(P.TapOf(w), bits);
    calc {
      Driven(dev, hist, shown);
      Driven(dev, hist, shown) + Driven(dev, hist + shown, after);
      Driven(dev, hist, shown + after);
      Driven(dev, hist, before + trace);
      [] + Driven(dev, hist + before, trace);
      Driven(dev, hist + before, trace);
    }
  }

  lemma {:induction false} OwedIsQuiet(r: Rest, w: W.Walk)
    requires P.InSync(r, w) && w.seg == [] && w.run == 0
    ensures forall e :: e in P.Owed(r, w) ==> !e.Shifted?
  {
    P.OwedBetweenCalls(r, w);
  }
}
