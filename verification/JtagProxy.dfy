/** Walker and encoder back to back: a peer's TMS/TDI stream, translated to
    ops and lowered again, drives the TAP through the same events and reads
    the same TDO as if the peer had been wired to the TAP directly. */
module JtagProxy {
  import T = TapController
  import opened JtagOps
  import W = JtagTmsWalker
  import E = JtagOpEncoder
  import R = EncoderRefinement

  /** The TAP state a walker position stands for. */
  function Full(p: W.Pos, ir: bool): T.State {
    match p
    case TLR => T.TestLogicReset
    case RTI => T.RunTestIdle
    case SEL_DR => T.SelectDr
    case SEL_IR => T.SelectIr
    case CAPTURE => T.Capture(ir)
    case SHIFT => T.Shift(ir)
    case EXIT1 => T.Exit1(ir)
    case PAUSE => T.Pause(ir)
    case EXIT2 => T.Exit2(ir)
    case UPDATE => T.Update(ir)
  }

  function TapOf(w: W.Walk): T.State { Full(w.pos, w.inIr) }

  /** The ops posted so far have left the TAP at `r`; the peer is at `w`. */
  predicate InSync(r: Rest, w: W.Walk) {
    match w.pos
    case TLR => true
    case RTI => w.run == 0 ==> r.AtIdle?
    case SEL_DR => !r.AtReset?
    case SEL_IR => !r.AtReset?
    case _ => r == Open(w.inIr)
  }

  /** Events the peer has caused that no posted op has caused yet. */
  function Owed(r: Rest, w: W.Walk): seq<T.Event> {
    match w.pos
    case TLR => EnterReset(r)
    case RTI => Leave(r) + T.Idles(w.run)
    case SEL_DR => Leave(r)
    case SEL_IR => Leave(r)
    case SHIFT => Shifts(w.inIr, w.seg)
    case UPDATE => Leave(r)
    case _ => []
  }

  /** Ops as the walker posts them: Shifts carry bits and no trailing idle. */
  predicate Plain(ops: seq<Op>) {
    forall op :: op in ops && op.Shift? ==> op.tdi != []
  }

  /** `ops` take the TAP from `r` to `r'` and show `events`. */
  predicate Shows(r: Rest, ops: seq<Op>, r': Rest, events: seq<T.Event>) {
    AllLegal(r, ops) && AfterAll(r, ops) == r' && AllEvents(r, ops) == events
  }

  lemma {:induction false} Shows0(r: Rest)
    ensures Shows(r, [], r, [])
  {}

  lemma {:induction false} Shows1(r: Rest, op: Op)
    requires Legal(r, op)
    ensures Shows(r, [op], After(r, op), Events(r, op))
  {
    assert [op][1..] == [];
    assert Events(r, op) + [] == Events(r, op);
  }

  /** Walking from `w` to `w'` keeps the books: what the posted ops show plus
      what is then owed is what was owed plus what the peer did. */
  predicate Balanced(r: Rest, w: W.Walk, did: seq<T.Event>, ops: seq<Op>, w': W.Walk) {
    && AllLegal(r, ops) && InSync(AfterAll(r, ops), w')
    && AllEvents(r, ops) + Owed(AfterAll(r, ops), w') == Owed(r, w) + did
  }

  lemma {:induction false} BalancedEntering(r: Rest, w: W.Walk, t: T.Tck)
    requires InSync(r, w) && (w.pos.RTI? || w.pos.UPDATE?) && !t.tms
    ensures Balanced(r, w, T.EdgeEvents(TapOf(w), t), [], W.Step(w, t))
  {
    Shows0(r);
    var w' := W.Step(w, t);
    if w.pos.RTI? {
      assert T.Idles(w.run + 1) == T.Idles(w.run) + [T.Idle];
      assert Owed(r, w') == Owed(r, w) + [T.Idle];
    } else {
      assert T.Idles(1) == [T.Idle];
    }
    assert [] + Owed(r, w') == Owed(r, w');
  }

  lemma {:induction false} BalancedElsewhere(r: Rest, w: W.Walk, t: T.Tck)
    requires InSync(r, w) && W.StepOps(w, t) == [] && !w.pos.SHIFT? && !W.NextState(t.tms, w.pos).RTI?
    ensures Balanced(r, w, T.EdgeEvents(TapOf(w), t), [], W.Step(w, t))
  {
    Shows0(r);
    if w.pos.RTI? {
      assert T.Idles(0) == [];
    }
    var w' := W.Step(w, t);
    assert Owed(r, w') == Owed(r, w) + T.EdgeEvents(TapOf(w), t);
    assert [] + Owed(r, w') == Owed(r, w');
  }

  lemma {:induction false} BalancedInShift(r: Rest, w: W.Walk, t: T.Tck)
    requires InSync(r, w) && w.pos.SHIFT?
    ensures Balanced(r, w, T.EdgeEvents(TapOf(w), t), W.StepOps(w, t), W.Step(w, t))
  {
    var bits := w.seg + [t.tdi];
    assert Shifts(w.inIr, bits) == Shifts(w.inIr, w.seg) + [T.Shifted(w.inIr, t.tdi)];
    if t.tms {
      Shows1(r, Shift(bits, 0));
      assert Events(r, Shift(bits, 0)) == Shifts(w.inIr, bits);
    } else {
      Shows0(r);
      assert [] + Shifts(w.inIr, bits) == Shifts(w.inIr, bits);
    }
  }

  lemma {:induction false} BalancedOnCapture(r: Rest, w: W.Walk, t: T.Tck)
    requires InSync(r, w) && W.NextState(t.tms, w.pos).CAPTURE?
    ensures Balanced(r, w, T.EdgeEvents(TapOf(w), t), W.StepOps(w, t), W.Step(w, t))
  {
    Shows1(r, if w.pos == W.SEL_IR then CaptureIr else CaptureDr);
  }

  lemma {:induction false} BalancedOnLeaving(r: Rest, w: W.Walk, t: T.Tck)
    requires InSync(r, w) && w.pos != W.NextState(t.tms, w.pos) && (w.pos.TLR? || (w.pos.RTI? && w.run > 0))
    ensures Balanced(r, w, T.EdgeEvents(TapOf(w), t), W.StepOps(w, t), W.Step(w, t))
  {
    Shows1(r, if w.pos.TLR? then Reset(5) else Run(w.run));
    assert T.Idles(1) == [T.Idle];
  }

  lemma {:induction false} StepBalanced(r: Rest, w: W.Walk, t: T.Tck)
    requires InSync(r, w)
    ensures Balanced(r, w, T.EdgeEvents(TapOf(w), t), W.StepOps(w, t), W.Step(w, t))
  {
    var n := W.NextState(t.tms, w.pos);
    if w.pos.SHIFT? {
      BalancedInShift(r, w, t);
    } else if n.CAPTURE? {
      BalancedOnCapture(r, w, t);
    } else if w.pos != n && (w.pos.TLR? || (w.pos.RTI? && w.run > 0)) {
      BalancedOnLeaving(r, w, t);
    } else if n.RTI? {
      BalancedEntering(r, w, t);
    } else {
      BalancedElsewhere(r, w, t);
    }
  }

  /** The collapsed diagram and the side flag follow the 16-state controller. */
  lemma {:induction false} StepFollowsTap(w: W.Walk, t: T.Tck)
    ensures TapOf(W.Step(w, t)) == T.Next(TapOf(w), t.tms) && Plain(W.StepOps(w, t))
  {}

  lemma {:induction false} BalancedThen(r: Rest, w: W.Walk, x: seq<T.Event>, a: seq<Op>, w1: W.Walk,
                     y: seq<T.Event>, b: seq<Op>, w2: W.Walk)
    requires Balanced(r, w, x, a, w1) && Balanced(AfterAll(r, a), w1, y, b, w2)
    ensures Balanced(r, w, x + y, a + b, w2)
  {
    AllConcat(r, a, b);
    var m := AfterAll(r, a);
    Carry(Owed(r, w), x, AllEvents(r, a), Owed(m, w1), y, AllEvents(m, b), Owed(AfterAll(m, b), w2));
  }

  lemma {:induction false} Carry(before: seq<T.Event>, x: seq<T.Event>, a: seq<T.Event>, mid: seq<T.Event>,
              y: seq<T.Event>, b: seq<T.Event>, after: seq<T.Event>)
    requires a + mid == before + x && b + after == mid + y
    ensures (a + b) + after == before + (x + y)
  {
    assert (a + b) + after == a + (mid + y) == (before + x) + y;
  }

  lemma {:induction false} FlushBalanced(r: Rest, w: W.Walk)
    requires InSync(r, w)
    ensures Balanced(r, w, [], W.FlushOps(w), W.Flushed(w)) && Plain(W.FlushOps(w))
  {
    var ops := W.FlushOps(w);
    if ops == [] {
      Shows0(r);
      assert Owed(r, W.Flushed(w)) == Owed(r, w);
    } else {
      Shows1(r, ops[0]);
      assert ops == [ops[0]];
    }
    assert T.Idles(0) == [] && Shifts(w.inIr, []) == [];
  }

  lemma {:induction false} CallBalanced(r: Rest, w: W.Walk, bits: seq<T.Tck>)
    requires InSync(r, w)
    ensures Balanced(r, w, T.Trace(TapOf(w), bits), W.CallOps(w, bits), W.Call(w, bits))
    ensures TapOf(W.Call(w, bits)) == T.Walk(TapOf(w), bits) && Plain(W.CallOps(w, bits))
    decreases |bits|
  {
    if bits == [] {
      FlushBalanced(r, w);
    } else {
      var ops, w1 := W.StepOps(w, bits[0]), W.Step(w, bits[0]);
      StepBalanced(r, w, bits[0]);
      StepFollowsTap(w, bits[0]);
      CallBalanced(AfterAll(r, ops), w1, bits[1..]);
      BalancedThen(r, w, T.EdgeEvents(TapOf(w), bits[0]), ops, w1,
                   T.Trace(TapOf(w1), bits[1..]), W.CallOps(w1, bits[1..]), W.Call(w1, bits[1..]));
    }
  }

  function Joined(calls: seq<seq<T.Tck>>): seq<T.Tck> {
    if calls == [] then [] else calls[0] + Joined(calls[1..])
  }

  lemma {:induction false} CallsBalanced(r: Rest, w: W.Walk, calls: seq<seq<T.Tck>>)
    requires InSync(r, w)
    ensures Balanced(r, w, T.Trace(TapOf(w), Joined(calls)), W.CallsOps(w, calls), W.Calls(w, calls))
    ensures Plain(W.CallsOps(w, calls))
    decreases |calls|
  {
    if calls == [] {
      Shows0(r);
      assert [] + Owed(r, w) == Owed(r, w) + [];
    } else {
      var ops, w1 := W.CallOps(w, calls[0]), W.Call(w, calls[0]);
      CallBalanced(r, w, calls[0]);
      CallsBalanced(AfterAll(r, ops), w1, calls[1..]);
      T.WalkConcat(TapOf(w), calls[0], Joined(calls[1..]));
      BalancedThen(r, w, T.Trace(TapOf(w), calls[0]), ops, w1,
                   T.Trace(TapOf(w1), Joined(calls[1..])), W.CallsOps(w1, calls[1..]), W.Calls(w1, calls[1..]));
    }
  }

  /** Between calls only an Update, a Reset or both can be pending, and only
      while the peer is on its way out of a scan column or in reset. */
  predicate Pending(owed: seq<T.Event>, p: W.Pos) {
    || owed == []
    || ((p.UPDATE? || p.SEL_DR? || p.SEL_IR?) && |owed| == 1 && owed[0].Updated?)
    || (p.TLR? && owed == [T.Reset])
    || (p.TLR? && |owed| == 2 && owed[0].Updated? && owed[1] == T.Reset)
  }

  lemma {:induction false} OwedBetweenCalls(r: Rest, w: W.Walk)
    requires InSync(r, w) && w.seg == [] && w.run == 0
    ensures Pending(Owed(r, w), w.pos)
  {
    assert T.Idles(0) == [] && Shifts(w.inIr, []) == [];
  }

  lemma {:induction false} CallsBetween(w: W.Walk, calls: seq<seq<T.Tck>>)
    requires w.seg == [] && w.run == 0
    ensures W.Calls(w, calls).seg == [] && W.Calls(w, calls).run == 0
    decreases |calls|
  {
    if calls != [] {
      CallsBetween(W.Call(w, calls[0]), calls[1..]);
    }
  }

  lemma {:induction false} PlainHasNoStray(ops: seq<Op>)
    requires Plain(ops)
    ensures R.NoStray(ops)
    decreases |ops|
  {
    if ops != [] {
      PlainHasNoStray(ops[1..]);
      assert ops == [ops[0]] + ops[1..];
    }
  }

  lemma {:induction false} FlattenContains(batches: seq<seq<Op>>, b: seq<Op>, op: Op)
    requires b in batches && op in b
    ensures op in R.Flatten(batches)
    decreases |batches|
  {
    if b != batches[0] {
      FlattenContains(batches[1..], b, op);
    }
  }

  lemma {:induction false} BatchesArePlain(batches: seq<seq<Op>>)
    requires Plain(R.Flatten(batches))
    ensures forall b :: b in batches ==> R.NoStray(b)
  {
    forall b | b in batches
      ensures R.NoStray(b)
    {
      forall op | op in b ensures op in R.Flatten(batches) { FlattenContains(batches, b, op); }
      PlainHasNoStray(b);
    }
  }

  /** The whole proxy. For every TMS/TDI stream, cut into any calls, and any
      batching of the ops the walker posts, the encoder raises nothing and
      its stream shows the peer's events, short only of a pending final
      Update or Reset. */
  lemma {:induction false} ProxyPreservesTrace(calls: seq<seq<T.Tck>>, batches: seq<seq<Op>>)
    requires R.Flatten(batches) == W.CallsOps(W.START, calls)
    ensures E.EncodeAll(E.TLR, batches, 0).Some?
    ensures exists owed ::
              && T.Trace(T.TestLogicReset, E.EncodeAll(E.TLR, batches, 0).value.wire) + owed
                 == T.Trace(T.TestLogicReset, Joined(calls))
              && Pending(owed, W.Calls(W.START, calls).pos)
  {
    var ops, w := W.CallsOps(W.START, calls), W.Calls(W.START, calls);
    var r, did := AfterAll(AtReset, ops), T.Trace(T.TestLogicReset, Joined(calls));
    CallsBalanced(AtReset, W.START, calls);
    BatchesArePlain(batches);
    R.BatchesRefine(E.TLR, T.TestLogicReset, AtReset, batches, 0);
    CallsBetween(W.START, calls);
    OwedBetweenCalls(r, w);
    assert Owed(AtReset, W.START) + did == did;
    assert T.Trace(T.TestLogicReset, E.EncodeAll(E.TLR, batches, 0).value.wire) + Owed(r, w) == did && Pending(Owed(r, w), w.pos);
  }
}
