/** The futures of a batch of TapOps, read off the wire: each gets its part of the
    TDO sampled at the slot of the Shift that carried it. */
module ChainReadings {
  import opened BitSequences
  import opened Wrappers
  import opened ScanChain
  import opened ChainGeometry
  import opened ChainWiring
  import opened ChainWire
  import T = TapController
  import J = JtagOps
  import E = JtagOpEncoder
  import F = EncoderRefinement
  import C = ChainCompiler
  import R = ChainRefinement
  import P = JtagProxyTdo

  // ----- TDO, TCK by TCK ---------------------------------------------------------------

  /** The bit the chain drives on a TCK: what leaves the open register in Shift,
      zero elsewhere. */
  function TdoBit<S>(h: C.Hw<S>, s: T.State, t: T.Tck): bool {
    s.Shift? && !h.reg.Closed? && ShiftOut(h.reg.bits, [t.tdi])[0]
  }

  /** TDO on every TCK of a wire stream. */
  function WireTdo<S>(b: C.Behaviour<S>, h: C.Hw<S>, s: T.State, w: seq<T.Tck>): (v: Bits)
    ensures |v| == |w|
    decreases |w|
  {
    if w == [] then []
    else [TdoBit(h, s, w[0])] + WireTdo(b, Follow(b, h, T.EdgeEvents(s, w[0])), T.Next(s, w[0].tms), w[1..])
  }

  /** In the scan columns a register is open. */
  predicate Engaged<S>(h: C.Hw<S>, s: T.State) {
    s.Capture? || s.Shift? || s.Exit1? || s.Pause? || s.Exit2? ==> !h.reg.Closed?
  }

  lemma {:induction false} StaysEngaged<S>(b: C.Behaviour<S>, h: C.Hw<S>, s: T.State, t: T.Tck)
    requires Engaged(h, s)
    ensures Engaged(Follow(b, h, T.EdgeEvents(s, t)), T.Next(s, t.tms))
  {
    var ev := T.EdgeEvents(s, t);
    if ev != [] {
      assert ev == [ev[0]];
      FollowOne(b, h, ev[0]);
    }
  }

  lemma {:induction false} EdgeTdo<S>(b: C.Behaviour<S>, h: C.Hw<S>, s: T.State, t: T.Tck)
    requires Engaged(h, s)
    ensures TdoOf(b, h, T.EdgeEvents(s, t)) == P.IfShift(s, TdoBit(h, s, t))
  {
    var ev := T.EdgeEvents(s, t);
    if ev != [] {
      assert ev == [ev[0]];
      FollowOne(b, h, ev[0]);
    }
  }

  /** Gathering the Shift TCKs gives the TDO of the events. */
  lemma {:induction false} GatherWire<S>(b: C.Behaviour<S>, h: C.Hw<S>, s: T.State, w: seq<T.Tck>, base: nat, v: Bits)
    requires Engaged(h, s) && base + |w| == |v| && v[base..] == WireTdo(b, h, s, w)
    ensures forall p :: p in T.ShiftPositions(s, w, base) ==> p < |v|
    ensures P.Gather(v, T.ShiftPositions(s, w, base)) == TdoOf(b, h, T.Trace(s, w))
    decreases |w|
  {
    if w != [] {
      var ev, s1 := T.EdgeEvents(s, w[0]), T.Next(s, w[0].tms);
      var h1 := Follow(b, h, ev);
      assert v[base] == v[base..][0];
      assert v[base + 1..] == v[base..][1..] == WireTdo(b, h1, s1, w[1..]);
      StaysEngaged(b, h, s, w[0]);
      GatherWire(b, h1, s1, w[1..], base + 1, v);
      FollowConcat(b, h, ev, T.Trace(s1, w[1..]));
      EdgeTdo(b, h, s, w[0]);
      P.ShiftPositionsCons(s, w, base);
      P.GatherFirst(v, base, s, TdoBit(h, s, w[0]), T.ShiftPositions(s1, w[1..], base + 1));
    }
  }

  // ----- TDO, Shift by Shift -------------------------------------------------------------

  /** The TDO of every Shift that has a payload. */
  function TdoList<S>(b: C.Behaviour<S>, x: C.Shown<S>, ops: seq<J.Op>): seq<Bits>
    decreases |ops|
  {
    if ops == [] then []
    else (if ops[0].Shift? && ops[0].tdi != [] then [OpTdo(b, x, ops[0])] else [])
         + TdoList(b, C.ExecOne(b, x, ops[0]), ops[1..])
  }

  lemma {:induction false} TdoListFlat<S>(b: C.Behaviour<S>, x: C.Shown<S>, ops: seq<J.Op>)
    requires NoEmptyShift(ops)
    ensures P.Flat(TdoList(b, x, ops)) == ShiftTdos(b, x, ops)
    decreases |ops|
  {
    if ops != [] {
      var y := C.ExecOne(b, x, ops[0]);
      TdoListFlat(b, y, ops[1..]);
      FlatCons(ops[0].Shift?, OpTdo(b, x, ops[0]), TdoList(b, y, ops[1..]));
    }
  }

  lemma {:induction false} FlatCons(shift: bool, a: Bits, r: seq<Bits>)
    requires !shift ==> a == []
    ensures P.Flat((if shift then [a] else []) + r) == a + P.Flat(r)
  {
    if shift {
      assert ([a] + r)[1..] == r;
    } else {
      assert [] + r == r && a + P.Flat(r) == P.Flat(r);
    }
  }

  lemma {:induction false} TdoListSizes<S(!new)>(b: C.Behaviour<S>, x: C.Shown<S>, ops: seq<J.Op>)
    requires Ticks(b) && ChainOnly(ops) && J.AllLegal(RestOf(x.hw), ops)
    ensures SameSizes(TdoList(b, x, ops), F.Payloads(ops))
    decreases |ops|
  {
    if ops != [] {
      OpFollows(b, x, ops[0]);
      TdoListSizes(b, C.ExecOne(b, x, ops[0]), ops[1..]);
    }
  }

  predicate SameSizes(tdos: seq<Bits>, ops: seq<J.Op>) {
    |tdos| == |ops| && forall i :: 0 <= i < |ops| ==> ops[i].Shift? && |tdos[i]| == |ops[i].tdi|
  }

  /** Lists of equal sizes are equal when they are end to end. */
  lemma {:induction false} FlatInjective(a: seq<Bits>, c: seq<Bits>)
    requires |a| == |c| && (forall i :: 0 <= i < |a| ==> |a[i]| == |c[i]|) && P.Flat(a) == P.Flat(c)
    ensures a == c
    decreases |a|
  {
    if a != [] {
      assert a[0] == P.Flat(a)[..|a[0]|] && c[0] == P.Flat(c)[..|c[0]|];
      assert P.Flat(a[1..]) == P.Flat(a)[|a[0]|..] && P.Flat(c[1..]) == P.Flat(c)[|c[0]|..];
      FlatInjective(a[1..], c[1..]);
      assert a == [a[0]] + a[1..] && c == [c[0]] + c[1..];
    }
  }

  /** Sampling the wire at the slots gives what the Shifts read, one by one. */
  lemma {:induction false} SlotsReadShifts<S(!new)>(b: C.Behaviour<S>, x: C.Shown<S>, l: E.Label, s: T.State, ops: seq<J.Op>,
                                                    enc: E.Encoded, v: Bits)
    requires Ticks(b) && ChainOnly(ops) && NoEmptyShift(ops) && F.RestsAt(l, s, RestOf(x.hw))
    requires J.AllLegal(RestOf(x.hw), ops)
    requires E.Encode(l, ops, 0) == Some(enc) && v == WireTdo(b, x.hw, s, enc.wire)
    ensures P.Fits(v, enc.slots) && P.Slices(v, enc.slots) == TdoList(b, x, ops)
  {
    F.EncodeRefines(l, s, RestOf(x.hw), ops, 0);
    F.SlotsCarryPayloads(l, ops, 0);
    FullShiftsAreNoStrays(ops);
    ExecFollows(b, x, ops);
    SlotsRead(b, x.hw, s, enc, v);
    TdoListFlat(b, x, ops);
    TdoListSizes(b, x, ops);
    SlotSizes(v, enc.slots, ops, TdoList(b, x, ops));
    FlatInjective(P.Slices(v, enc.slots), TdoList(b, x, ops));
  }

  lemma {:induction false} SlotSizes(v: Bits, slots: seq<E.Slot>, ops: seq<J.Op>, tdos: seq<Bits>)
    requires P.Fits(v, slots) && F.SlotOps(slots) == F.Payloads(ops) && SameSizes(tdos, F.Payloads(ops))
    ensures |P.Slices(v, slots)| == |tdos| && forall i :: 0 <= i < |tdos| ==> |P.Slices(v, slots)[i]| == |tdos[i]|
  {
    forall i | 0 <= i < |tdos| ensures |P.Slices(v, slots)[i]| == |tdos[i]| {
      assert F.SlotOps(slots)[i] == slots[i].op;
    }
  }

  lemma {:induction false} SlotsRead<S>(b: C.Behaviour<S>, h: C.Hw<S>, s: T.State, enc: E.Encoded, v: Bits)
    requires Engaged(h, s) && v == WireTdo(b, h, s, enc.wire)
    requires forall i :: 0 <= i < |enc.slots| ==> F.Carries(enc.wire, 0, enc.slots[i])
    requires T.ShiftPositions(s, enc.wire, 0) == F.SlotPositions(enc.slots)
    ensures P.Fits(v, enc.slots) && P.Flat(P.Slices(v, enc.slots)) == TdoOf(b, h, T.Trace(s, enc.wire))
  {
    assert forall i :: 0 <= i < |enc.slots| ==> F.Carries(enc.wire, 0, enc.slots[i]);
    P.SlicesGather(v, enc.slots);
    assert v[0..] == v;
    GatherWire(b, h, s, enc.wire, 0, v);
  }

  // ----- Futures ---------------------------------------------------------------------------

  /** What the futures of a batch get from the TDO of the Shifts posted for it,
      `done` of them before it: each its part of the last one its op posted. */
  function SlotReadings(tdos: seq<Bits>, cs: Contexts, batch: seq<Posted>, done: nat): (r: seq<Option<Bits>>)
    requires Measured(cs)
    ensures |r| == |batch|
    decreases |batch|
  {
    if batch == [] then []
    else
      var first := FlushOne(cs, batch[0].tap, batch[0].op);
      var now := done + |F.Payloads(first.posted)|;
      [SlotReading(tdos, now, first.verdicts[0])] + SlotReadings(tdos, first.contexts, batch[1..], now)
  }

  function SlotReading(tdos: seq<Bits>, now: nat, verdict: Verdict): Option<Bits> {
    if verdict.Translated? && 0 < now <= |tdos| then R.Read(tdos[now - 1], verdict.reading) else None
  }

  lemma {:induction false} TdoListConcat<S>(b: C.Behaviour<S>, x: C.Shown<S>, p: seq<J.Op>, q: seq<J.Op>)
    ensures TdoList(b, x, p + q) == TdoList(b, x, p) + TdoList(b, C.Exec(b, x, p), q)
    decreases |p|
  {
    if p == [] {
      assert p + q == q;
    } else {
      assert (p + q)[0] == p[0] && (p + q)[1..] == p[1..] + q;
      TdoListConcat(b, C.ExecOne(b, x, p[0]), p[1..], q);
    }
  }

  /** The TDO shown last is that of the last Shift. */
  lemma {:induction false} LastTdo<S>(b: C.Behaviour<S>, x: C.Shown<S>, ops: seq<J.Op>)
    requires NoEmptyShift(ops)
    ensures var tdos := TdoList(b, x, ops); C.Exec(b, x, ops).tdo == if tdos == [] then x.tdo else tdos[|tdos| - 1]
    decreases |ops|
  {
    if ops != [] {
      var op, tail, y := ops[0], ops[1..], C.ExecOne(b, x, ops[0]);
      LastTdo(b, y, tail);
      ShownBy(b, x, op);
      TdoListCons(b, x, ops, op, tail, y);
      LastCons(TdoList(b, y, tail), op.Shift?, x.tdo, y.tdo, C.Exec(b, y, tail).tdo);
    }
  }

  lemma {:induction false} TdoListCons<S>(b: C.Behaviour<S>, x: C.Shown<S>, ops: seq<J.Op>, op: J.Op, tail: seq<J.Op>, y: C.Shown<S>)
    requires ops != [] && op == ops[0] && tail == ops[1..] && y == C.ExecOne(b, x, op) && (op.Shift? ==> op.tdi != [])
    ensures TdoList(b, x, ops) == (if op.Shift? then [OpTdo(b, x, op)] else []) + TdoList(b, y, tail)
    ensures C.Exec(b, x, ops) == C.Exec(b, y, tail)
  {}

  lemma {:induction false} TdoListCount<S>(b: C.Behaviour<S>, x: C.Shown<S>, ops: seq<J.Op>)
    ensures |TdoList(b, x, ops)| == |F.Payloads(ops)|
    decreases |ops|
  {
    if ops != [] {
      TdoListCount(b, C.ExecOne(b, x, ops[0]), ops[1..]);
    }
  }

  /** Only a Shift shows something new. */
  lemma {:induction false} ShownBy<S>(b: C.Behaviour<S>, x: C.Shown<S>, op: J.Op)
    ensures C.ExecOne(b, x, op).tdo == if op.Shift? then OpTdo(b, x, op) else x.tdo
  {}

  lemma {:induction false} LastCons(rest: seq<Bits>, shift: bool, before: Bits, shown: Bits, last: Bits)
    requires last == (if rest == [] then shown else rest[|rest| - 1]) && (!shift ==> shown == before)
    ensures var tdos := (if shift then [shown] else []) + rest;
            last == if tdos == [] then before else tdos[|tdos| - 1]
  {}

  /** An op that has something to read posts a Shift with a payload. */
  lemma {:induction false} ReaderShifts(g: C.Geometry, currentIr: Option<Bits>, op: C.TapOp)
    requires Full(op) && g.irlen > 0
    ensures var c := C.Compile(g, currentIr, op); c.reading.Slice? ==> F.Payloads(c.ops) != []
  {
    var c := C.Compile(g, currentIr, op);
    if c.reading.Slice? {
      var n := |c.ops|;
      assert c.ops[n - 1].Shift? && c.ops[n - 1].tdi != [];
      LastHasPayload(c.ops);
    }
  }

  lemma {:induction false} LastHasPayload(ops: seq<J.Op>)
    requires ops != [] && ops[|ops| - 1].Shift? && ops[|ops| - 1].tdi != []
    ensures F.Payloads(ops) != []
    decreases |ops|
  {
    if |ops| > 1 {
      LastHasPayload(ops[1..]);
    }
  }

  /** The futures get their slices of the Shifts' TDO. */
  lemma {:induction false} ReadingsAreSlices<S>(b: C.Behaviour<S>, x: C.Shown<S>, cs: Contexts, batch: seq<Posted>,
                                               tdos: seq<Bits>, done: nat)
    requires Measured(cs) && (forall t :: t in cs ==> t.irlen > 0) && forall i :: 0 <= i < |batch| ==> Full(batch[i].op)
    requires done <= |tdos| && tdos[done..] == TdoList(b, x, FlushAll(cs, batch).posted)
    ensures Readings(b, x, cs, batch) == SlotReadings(tdos, cs, batch, done)
    decreases |batch|
  {
    if batch != [] {
      var first := FlushOne(cs, batch[0].tap, batch[0].op);
      var y, now := C.Exec(b, x, first.posted), done + |F.Payloads(first.posted)|;
      ReadingsStart(b, x, cs, batch, tdos, done, first, y, now);
      ReadingsAreSlices(b, y, first.contexts, batch[1..], tdos, now);
      ReadingsCons(b, x, cs, batch, tdos, done, first, y, now);
    }
  }

  lemma {:induction false} ReadingsStart<S>(b: C.Behaviour<S>, x: C.Shown<S>, cs: Contexts, batch: seq<Posted>,
                                           tdos: seq<Bits>, done: nat, first: Flush, y: C.Shown<S>, now: nat)
    requires batch != [] && Measured(cs) && (forall t :: t in cs ==> t.irlen > 0) && Full(batch[0].op)
    requires done <= |tdos| && tdos[done..] == TdoList(b, x, FlushAll(cs, batch).posted)
    requires first == FlushOne(cs, batch[0].tap, batch[0].op)
    requires y == C.Exec(b, x, first.posted) && now == done + |F.Payloads(first.posted)|
    ensures Starts(b, y, FlushAll(first.contexts, batch[1..]).posted, tdos, now, first.verdicts[0])
  {
    var rest := FlushAll(first.contexts, batch[1..]).posted;
    PostedCons(cs, batch, first, rest);
    ReadingsFirst(b, x, first, rest, FlushAll(cs, batch).posted, tdos, done, y) by {
      FirstReading(b, x, cs, batch[0].tap, batch[0].op, first);
    }
  }

  /** Every Shift a flushed op posts is counted, the last one shows what is read,
      and there is one if something is. */
  ghost predicate Anchored<S>(b: C.Behaviour<S>, x: C.Shown<S>, f: Flush) {
    var here := TdoList(b, x, f.posted);
    && |f.verdicts| == 1 && |here| == |F.Payloads(f.posted)|
    && (here != [] ==> C.Exec(b, x, f.posted).tdo == here[|here| - 1])
    && (f.verdicts[0].Translated? && f.verdicts[0].reading.Slice? ==> here != [])
  }

  /** The reading at hand is right, and the TDO of the ops to come starts at `now`. */
  ghost predicate Starts<S>(b: C.Behaviour<S>, y: C.Shown<S>, rest: seq<J.Op>, tdos: seq<Bits>, now: nat, verdict: Verdict) {
    && now <= |tdos| && tdos[now..] == TdoList(b, y, rest)
    && SlotReading(tdos, now, verdict) == if verdict.Translated? then R.Read(y.tdo, verdict.reading) else None
  }

  lemma {:induction false} ReadingsFirst<S>(b: C.Behaviour<S>, x: C.Shown<S>, first: Flush, rest: seq<J.Op>, all: seq<J.Op>,
                                           tdos: seq<Bits>, done: nat, y: C.Shown<S>)
    requires Anchored(b, x, first) && all == first.posted + rest && y == C.Exec(b, x, first.posted)
    requires done <= |tdos| && tdos[done..] == TdoList(b, x, all)
    ensures Starts(b, y, rest, tdos, done + |F.Payloads(first.posted)|, first.verdicts[0])
  {
    TdoListConcat(b, x, first.posted, rest);
    ReadingStep(tdos, done, TdoList(b, x, first.posted), TdoList(b, y, rest), first.verdicts[0], y.tdo);
  }

  lemma {:induction false} PostedCons(cs: Contexts, batch: seq<Posted>, first: Flush, rest: seq<J.Op>)
    requires batch != [] && Measured(cs) && first == FlushOne(cs, batch[0].tap, batch[0].op)
    requires rest == FlushAll(first.contexts, batch[1..]).posted
    ensures FlushAll(cs, batch).posted == first.posted + rest
  {}

  lemma {:induction false} ReadingsCons<S>(b: C.Behaviour<S>, x: C.Shown<S>, cs: Contexts, batch: seq<Posted>,
                                          tdos: seq<Bits>, done: nat, first: Flush, y: C.Shown<S>, now: nat)
    requires batch != [] && Measured(cs) && first == FlushOne(cs, batch[0].tap, batch[0].op)
    requires y == C.Exec(b, x, first.posted) && now == done + |F.Payloads(first.posted)|
    requires SlotReading(tdos, now, first.verdicts[0]) ==
             if first.verdicts[0].Translated? then R.Read(y.tdo, first.verdicts[0].reading) else None
    requires Readings(b, y, first.contexts, batch[1..]) == SlotReadings(tdos, first.contexts, batch[1..], now)
    ensures Readings(b, x, cs, batch) == SlotReadings(tdos, cs, batch, done)
  {}

  lemma {:induction false} ReadingStep(tdos: seq<Bits>, done: nat, here: seq<Bits>, rest: seq<Bits>, verdict: Verdict, tdo: Bits)
    requires done <= |tdos| && tdos[done..] == here + rest && (here != [] ==> tdo == here[|here| - 1])
    requires verdict.Translated? && verdict.reading.Slice? ==> here != []
    ensures done + |here| <= |tdos| && tdos[done + |here|..] == rest
    ensures SlotReading(tdos, done + |here|, verdict) == if verdict.Translated? then R.Read(tdo, verdict.reading) else None
  {
    var now := done + |here|;
    assert |tdos[done..]| == |here| + |rest|;
    assert tdos[now..] == tdos[done..][|here|..];
    assert here != [] ==> tdos[now - 1] == tdos[done..][|here| - 1];
  }

  lemma {:induction false} FirstReading<S>(b: C.Behaviour<S>, x: C.Shown<S>, cs: Contexts, t: Tap, op: C.TapOp, f: Flush)
    requires Measured(cs) && (forall u :: u in cs ==> u.irlen > 0) && Full(op) && f == FlushOne(cs, t, op)
    ensures Anchored(b, x, f)
  {
    if t in cs && cs[t].enabled {
      CompiledSendable(GeometryOf(t, cs[t]), cs[t].currentIr, op);
      ReaderShifts(GeometryOf(t, cs[t]), cs[t].currentIr, op);
    }
    LastTdo(b, x, f.posted);
    TdoListCount(b, x, f.posted);
  }

  /** A flushed batch on the wire: the futures get their parts of the TDO sampled at
      the slots the encoder reported. */
  lemma {:induction false} WireReads<S(!new)>(b: C.Behaviour<S>, x: C.Shown<S>, cs: Contexts, batch: seq<Posted>,
                                             l: E.Label, s: T.State, enc: E.Encoded, v: Bits)
    requires Ticks(b) && Measured(cs) && F.RestsAt(l, s, RestOf(x.hw))
    requires (forall t :: t in cs ==> t.irlen > 0) && forall i :: 0 <= i < |batch| ==> Full(batch[i].op)
    requires E.Encode(l, FlushAll(cs, batch).posted, 0) == Some(enc) && v == WireTdo(b, x.hw, s, enc.wire)
    ensures P.Fits(v, enc.slots)
    ensures Readings(b, x, cs, batch) == SlotReadings(P.Slices(v, enc.slots), cs, batch, 0)
  {
    FlushSendable(cs, batch);
    SlotsReadShifts(b, x, l, s, FlushAll(cs, batch).posted, enc, v);
    var tdos := P.Slices(v, enc.slots);
    assert tdos[0..] == tdos;
    ReadingsAreSlices(b, x, cs, batch, tdos, 0);
  }

  /** From TapOps to the wire and back: a batch flushed by a chain, lowered by the
      encoder and clocked out, does to every TAP what the batch means, and the TDO
      sampled on the wire, sliced at the slots, holds what its ops mean to read. */
  lemma {:induction false} WireMeans<S(!new)>(b: C.Behaviour<S>, x: C.Shown<S>, cs: Contexts, order: seq<Tap>,
                                             batch: seq<Posted>, reqs: seq<R.Request>, l: E.Label, s: T.State)
    requires C.Lawful(b) && Ticks(b) && Tiled(cs, order) && Measured(cs) && Wired(order, C.Commit(b, x.hw).taps)
    requires Names(batch, order, reqs) && R.SizedRun(C.Commit(b, x.hw).taps, reqs)
    requires R.Truthful(C.Commit(b, x.hw).taps, CacheOf(cs, order))
    requires (forall t :: t in cs ==> t.irlen > 0) && forall i :: 0 <= i < |batch| ==> Full(batch[i].op)
    requires F.RestsAt(l, s, RestOf(x.hw))
    ensures var sent := E.Encode(l, FlushAll(cs, batch).posted, 0);
            && sent.Some?
            && var enc, meant := sent.value, R.MeaningRun(b, C.Commit(b, x.hw).taps, CacheOf(cs, order), reqs);
               var v := WireTdo(b, x.hw, s, enc.wire);
               && C.Commit(b, Follow(b, x.hw, T.Trace(s, enc.wire))).taps == meant.taps
               && P.Fits(v, enc.slots) && SlotReadings(P.Slices(v, enc.slots), cs, batch, 0) == meant.readings
  {
    FlushMeans(b, x, cs, order, batch, reqs);
    FlushSendable(cs, batch);
    WireExecutes(b, x, l, s, FlushAll(cs, batch).posted);
    var enc := E.Encode(l, FlushAll(cs, batch).posted, 0).value;
    WireReads(b, x, cs, batch, l, s, enc, WireTdo(b, x.hw, s, enc.wire));
  }
}
