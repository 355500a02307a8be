/** The walker: a TMS/TDI stream, cut into calls, read back as JTAG ops. */
module JtagTmsWalker {
  import opened BitSequences
  import opened Wrappers
  import T = TapController
  import opened JtagOps

  /** The TAP diagram with its two scan columns collapsed into one. */
  datatype Pos = TLR | RTI | SEL_DR | SEL_IR | CAPTURE | SHIFT | EXIT1 | PAUSE | EXIT2 | UPDATE

  function NextState(tms: bool, p: Pos): Pos {
    match p
    case TLR => if tms then TLR else RTI
    case RTI => if tms then SEL_DR else RTI
    case SEL_DR => if tms then SEL_IR else CAPTURE
    case SEL_IR => if tms then TLR else CAPTURE
    case CAPTURE => if tms then EXIT1 else SHIFT
    case SHIFT => if tms then EXIT1 else SHIFT
    case EXIT1 => if tms then UPDATE else PAUSE
    case PAUSE => if tms then EXIT2 else PAUSE
    case EXIT2 => if tms then UPDATE else SHIFT
    case UPDATE => if tms then SEL_DR else RTI
  }

  /** The walker in the middle of a call: its two persistent fields, the
      payload bits collected since `shift_start` and the idle TCKs counted
      since `run_start`. */
  datatype Walk = Walk(pos: Pos, inIr: bool, seg: seq<bool>, run: nat)

  /** A stretch [start, stop) of the input that one Shift op covers. */
  datatype Span = Span(start: nat, stop: nat)

  function Step(w: Walk, t: T.Tck): Walk {
    var n := NextState(t.tms, w.pos);
    Walk(n,
         if n == CAPTURE then w.pos == SEL_IR else w.inIr,
         if n == SHIFT && w.pos == SHIFT then w.seg + [t.tdi] else [],
         if n == RTI then (if w.pos == RTI then w.run + 1 else 1) else 0)
  }

  /** The op posted on one TCK, if any: on leaving Shift, Run-Test/Idle or
      Test-Logic-Reset and on entering Capture. */
  function StepOps(w: Walk, t: T.Tck): seq<Op> {
    var n := NextState(t.tms, w.pos);
    if w.pos == SHIFT && n != SHIFT then [Shift(w.seg + [t.tdi], 0)]
    else if w.pos == RTI && n != RTI then (if w.run > 0 then [Run(w.run)] else [])
    else if w.pos == TLR && n != TLR then [Reset(5)]
    else if n == CAPTURE then [if w.pos == SEL_IR then CaptureIr else CaptureDr]
    else []
  }

  /** What is posted when the input ends inside Shift or Run-Test/Idle. */
  function FlushOps(w: Walk): seq<Op> {
    if w.pos == SHIFT && w.seg != [] then [Shift(w.seg, 0)]
    else if w.pos == RTI && w.run > 0 then [Run(w.run)]
    else []
  }

  function Flushed(w: Walk): Walk { w.(seg := [], run := 0) }

  /** One call of `process`: the walker afterwards and the ops posted. */
  function Call(w: Walk, bits: seq<T.Tck>): (w': Walk)
    ensures w'.seg == [] && w'.run == 0
    decreases |bits|
  {
    if bits == [] then Flushed(w) else Call(Step(w, bits[0]), bits[1..])
  }

  function CallOps(w: Walk, bits: seq<T.Tck>): seq<Op>
    decreases |bits|
  {
    if bits == [] then FlushOps(w) else StepOps(w, bits[0]) + CallOps(Step(w, bits[0]), bits[1..])
  }

  /** A stream cut into calls. */
  function Calls(w: Walk, calls: seq<seq<T.Tck>>): Walk
    decreases |calls|
  {
    if calls == [] then w else Calls(Call(w, calls[0]), calls[1..])
  }

  function CallsOps(w: Walk, calls: seq<seq<T.Tck>>): seq<Op>
    decreases |calls|
  {
    if calls == [] then [] else CallOps(w, calls[0]) + CallsOps(Call(w, calls[0]), calls[1..])
  }

  const START := Walk(TLR, false, [], 0)

  // ----- Output alignment ---------------------------------------------------

  /** The span recorded when TCK number `i` posts a Shift. */
  function StepSpans(w: Walk, t: T.Tck, i: nat): seq<Span>
    requires |w.seg| <= i
  {
    if w.pos == SHIFT && NextState(t.tms, w.pos) != SHIFT then [Span(i - |w.seg|, i + 1)] else []
  }

  function FlushSpans(w: Walk, n: nat): seq<Span>
    requires |w.seg| <= n
  {
    if w.pos == SHIFT && w.seg != [] then [Span(n - |w.seg|, n)] else []
  }

  /** The spans recorded from TCK number `i` of a call on. */
  function CallSpans(w: Walk, bits: seq<T.Tck>, i: nat): seq<Span>
    requires |w.seg| <= i
    decreases |bits|
  {
    if bits == [] then FlushSpans(w, i) else StepSpans(w, bits[0], i) + CallSpans(Step(w, bits[0]), bits[1..], i + 1)
  }

  class Walker {
    var state: Pos
    var inIr: bool

    constructor ()
      ensures state == TLR && !inIr
    {
      state, inIr := TLR, false;
    }

    /** The walker between two calls. */
    function Between(): (w: Walk)
      reads this
    {
      Walk(state, inIr, [], 0)
    }

    /** One pass of the bit loop: TCK number `i` of the call. */
    method ProcessBit(bits: seq<T.Tck>, i: nat, shiftStart: Option<nat>, runStart: Option<nat>, ghost w: Walk)
      returns (ops: seq<Op>, spans: seq<Span>, shiftStart': Option<nat>, runStart': Option<nat>)
      requires i < |bits| && InLoop(w, state, inIr, shiftStart, runStart, bits, i)
      modifies this
      ensures InLoop(Step(w, bits[i]), state, inIr, shiftStart', runStart', bits, i + 1)
      ensures ops == StepOps(w, bits[i]) && spans == StepSpans(w, bits[i], i)
    {
      ops, spans, shiftStart', runStart' := [], [], shiftStart, runStart;
      var next := NextState(bits[i].tms, state);
      if state == SHIFT {
        var segment := Tdi(bits[shiftStart.value..i + 1]);
        assert segment == w.seg + [bits[i].tdi];
        if next != SHIFT {
          ops, spans := [Shift(segment, 0)], [Span(shiftStart.value, i + 1)];
          shiftStart' := None;
        }
      }
      if state == RTI && next != RTI && runStart.Some? {
        var cycles := i - runStart.value;
        if cycles > 0 {
          ops := ops + [Run(cycles)];
        }
        runStart' := None;
      }
      if state == TLR && next != TLR {
        ops := ops + [Reset(5)];
      }
      if next == CAPTURE {
        inIr := state == SEL_IR;
        ops := ops + [if inIr then CaptureIr else CaptureDr];
      }
      if next == SHIFT && state != SHIFT {
        shiftStart' := Some(i + 1);
      }
      if next == RTI && state != RTI {
        runStart' := Some(i);
      }
      state := next;
    }

    /** One call: the ops posted, in order, and the input stretch covered by
        each Shift among them. */
    method Process(bits: seq<T.Tck>) returns (ops: seq<Op>, spans: seq<Span>)
      modifies this
      ensures ops == CallOps(old(Between()), bits)
      ensures spans == CallSpans(old(Between()), bits, 0)
      ensures Between() == Call(old(Between()), bits)
    {
      ghost var w0 := Between();
      var shiftStart, runStart;
      ghost var w;
      ops, spans, shiftStart, runStart, w := ProcessBits(bits);
      PostedAll(w0, w, bits, ops, spans);
      var posted, covered := Flush(bits, shiftStart, runStart, w);
      ops, spans := ops + posted, spans + covered;
    }

    /** The loop over the bits of a call. */
    method ProcessBits(bits: seq<T.Tck>)
      returns (ops: seq<Op>, spans: seq<Span>, shiftStart: Option<nat>, runStart: Option<nat>, ghost w: Walk)
      modifies this
      ensures InLoop(w, state, inIr, shiftStart, runStart, bits, |bits|)
      ensures Posted(old(Between()), w, bits, |bits|, ops, spans)
    {
      ghost var w0 := Between();
      w := w0;
      ops, spans := [], [];
      shiftStart := if state == SHIFT then Some(0) else None;
      runStart := if state == RTI then Some(0) else None;
      var i := 0;
      PostedNone(w0, bits);
      while i < |bits|
        invariant 0 <= i <= |bits| && InLoop(w, state, inIr, shiftStart, runStart, bits, i)
        invariant Posted(w0, w, bits, i, ops, spans)
      {
        PostedStep(w0, w, bits, i, ops, spans);
        var posted, covered;
        posted, covered, shiftStart, runStart := ProcessBit(bits, i, shiftStart, runStart, w);
        ops, spans := ops + posted, spans + covered;
        w, i := Step(w, bits[i]), i + 1;
      }
    }

    /** End of input inside Shift or Run-Test/Idle. */
    method Flush(bits: seq<T.Tck>, shiftStart: Option<nat>, runStart: Option<nat>, ghost w: Walk)
      returns (ops: seq<Op>, spans: seq<Span>)
      requires InLoop(w, state, inIr, shiftStart, runStart, bits, |bits|)
      ensures |w.seg| <= |bits| && ops == FlushOps(w) && spans == FlushSpans(w, |bits|)
    {
      ops, spans := [], [];
      if state == SHIFT && shiftStart.Some? && shiftStart.value < |bits| {
        ops, spans := [Shift(Tdi(bits[shiftStart.value..|bits|]), 0)], [Span(shiftStart.value, |bits|)];
      }
      if state == RTI && runStart.Some? && runStart.value < |bits| {
        ops := ops + [Run(|bits| - runStart.value)];
      }
    }
  }

  function Tdi(bits: seq<T.Tck>): (r: seq<bool>)
    ensures |r| == |bits|
  {
    seq(|bits|, k requires 0 <= k < |bits| => bits[k].tdi)
  }

  /** The loop variables of `Process` against the abstract walk. */
  ghost predicate InLoop(w: Walk, state: Pos, inIr: bool, shiftStart: Option<nat>, runStart: Option<nat>,
                         bits: seq<T.Tck>, i: nat)
    requires i <= |bits|
  {
    && w.pos == state && w.inIr == inIr
    && (state == SHIFT ==> shiftStart.Some? && shiftStart.value <= i && w.seg == Tdi(bits[shiftStart.value..i]))
    && (state != SHIFT ==> w.seg == [])
    && (state == RTI ==> runStart.Some? && runStart.value <= i && w.run == i - runStart.value)
    && (state != RTI ==> w.run == 0)
  }

  /** What the first `i` TCKs of a call have posted, against the whole call. */
  ghost predicate Posted(w0: Walk, w: Walk, bits: seq<T.Tck>, i: nat, ops: seq<Op>, spans: seq<Span>)
    requires w0.seg == []
  {
    && i <= |bits| && |w.seg| <= i
    && CallOps(w0, bits) == ops + CallOps(w, bits[i..])
    && CallSpans(w0, bits, 0) == spans + CallSpans(w, bits[i..], i)
    && Call(w0, bits) == Call(w, bits[i..])
  }

  lemma {:induction false} PostedNone(w0: Walk, bits: seq<T.Tck>)
    requires w0.seg == []
    ensures Posted(w0, w0, bits, 0, [], [])
  {
    assert bits[0..] == bits;
  }

  lemma {:induction false} PostedStep(w0: Walk, w: Walk, bits: seq<T.Tck>, i: nat, ops: seq<Op>, spans: seq<Span>)
    requires w0.seg == [] && i < |bits| && Posted(w0, w, bits, i, ops, spans)
    ensures Posted(w0, Step(w, bits[i]), bits, i + 1, ops + StepOps(w, bits[i]), spans + StepSpans(w, bits[i], i))
  {
    assert bits[i..][0] == bits[i] && bits[i..][1..] == bits[i + 1..];
    Assoc(ops, StepOps(w, bits[i]), CallOps(Step(w, bits[i]), bits[i + 1..]));
    Assoc(spans, StepSpans(w, bits[i], i), CallSpans(Step(w, bits[i]), bits[i + 1..], i + 1));
  }

  lemma {:induction false} PostedAll(w0: Walk, w: Walk, bits: seq<T.Tck>, ops: seq<Op>, spans: seq<Span>)
    requires w0.seg == [] && Posted(w0, w, bits, |bits|, ops, spans)
    ensures CallOps(w0, bits) == ops + FlushOps(w)
    ensures CallSpans(w0, bits, 0) == spans + FlushSpans(w, |bits|)
    ensures Call(w0, bits) == Flushed(w)
  {
    assert bits[|bits|..] == [];
  }
}
