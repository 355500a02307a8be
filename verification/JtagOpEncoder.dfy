/** Lowering of JTAG ops to a TMS/TDI stream: the emitters as functions of
    the rest-state label, and the stateful encoder that runs them. */
module JtagOpEncoder {
  import opened BitSequences
  import opened Wrappers
  import T = TapController
  import opened JtagOps

  /** The encoder's own idea of where the TAP is. The last two labels occur
      only between two ops of one batch. */
  datatype Label = TLR | RTI | PAUSE | PRE_SHIFT | IN_SHIFT

  /** A Shift of the batch and the offset of its first payload bit. */
  datatype Slot = Slot(op: Op, offset: nat)

  datatype Emitted = Emitted(wire: seq<T.Tck>, at: Label)

  datatype Encoded = Encoded(wire: seq<T.Tck>, slots: seq<Slot>, at: Label)

  /** A TMS pattern clocked with TDI low. */
  function Pattern(tms: seq<bool>): (w: seq<T.Tck>)
    ensures |w| == |tms|
  {
    seq(|tms|, i requires 0 <= i < |tms| => T.Tck(tms[i], false))
  }

  function ResetTms(count: int): seq<bool> {
    Ones(if count > 5 then count else 5)
  }

  /** 0xe73c, LSB first. */
  function SwitchTms(): seq<bool> {
    [false, false, true, true, true, true, false, false, true, true, true, false, false, true, true, true]
  }

  function SwdToJtagTms(): seq<bool> { Ones(50) + SwitchTms() + Ones(5) }

  function EmitRun(l: Label, cycles: nat): Emitted {
    Emitted(
      (if l.PAUSE? then Pattern([true, true]) else []) + T.Repeat(false, false, cycles),
      if l.PAUSE? || (l.TLR? && cycles > 0) then RTI else l)
  }

  function EnterCapture(l: Label, ir: bool): seq<T.Tck> {
    match l
    case RTI => Pattern(if ir then [true, true, false] else [true, false])
    case PAUSE => Pattern(if ir then [true, true, true, true, false] else [true, true, true, false])
    case TLR => Pattern(if ir then [false, true, true, false] else [false, true, false])
    case _ => []
  }

  /** Nothing is emitted before another Capture or a Run: from Capture and
      from Pause the same TMS bits lead to Update. */
  function CaptureExit(next: Option<Op>): Emitted {
    if next.Some? && next.value.Shift? then Emitted(Pattern([false]), PRE_SHIFT)
    else if next.Some? && (IsCapture(next.value) || next.value.Run?) then Emitted([], PAUSE)
    else Emitted(Pattern([true, false]), PAUSE)
  }

  /** Payload bits, TMS low except on the last one when Shift is left there. */
  function Payload(bits: seq<bool>, leave: bool): (w: seq<T.Tck>)
    ensures |w| == |bits|
  {
    seq(|bits|, i requires 0 <= i < |bits| => T.Tck(leave && i == |bits| - 1, bits[i]))
  }

  function ShiftEntry(l: Label): seq<T.Tck> {
    if l.PAUSE? then Pattern([true, false]) else []
  }

  predicate IsShift(next: Option<Op>) { next.Some? && next.value.Shift? }

  /** Payload and exit: an empty Shift that has to leave clocks one zero. */
  function ShiftBody(bits: seq<bool>, next: Option<Op>): Emitted {
    if IsShift(next) then Emitted(Payload(bits, false), IN_SHIFT)
    else Emitted(Payload(if bits == [] then [false] else bits, true) + Pattern([false]), PAUSE)
  }

  function EmitShift(l: Label, op: Op, next: Option<Op>): Emitted
    requires op.Shift?
  {
    var body := ShiftBody(op.tdi, next);
    var run := EmitRun(body.at, op.postRun);
    if op.postRun == 0 then Emitted(ShiftEntry(l) + body.wire, body.at)
    else Emitted(ShiftEntry(l) + body.wire + run.wire, run.at)
  }

  /** The states in which an emitter raises. */
  predicate Accepts(l: Label, op: Op, next: Option<Op>) {
    match op
    case Shift(_, postRun) => (l.PAUSE? || l.PRE_SHIFT? || l.IN_SHIFT?) && !(postRun > 0 && IsShift(next))
    case CaptureDr => l.TLR? || l.RTI? || l.PAUSE?
    case CaptureIr => l.TLR? || l.RTI? || l.PAUSE?
    case _ => true
  }

  function EmitCapture(l: Label, ir: bool, next: Option<Op>): Emitted {
    var exit := CaptureExit(next);
    Emitted(EnterCapture(l, ir) + exit.wire, exit.at)
  }

  function EmitOp(l: Label, op: Op, next: Option<Op>): Emitted {
    match op
    case Reset(count) => Emitted(Pattern(ResetTms(count)), TLR)
    case SwdToJtag => Emitted(Pattern(SwdToJtagTms()), TLR)
    case Run(cycles) => EmitRun(l, cycles)
    case CaptureDr => EmitCapture(l, false, next)
    case CaptureIr => EmitCapture(l, true, next)
    case Shift(_, _) => EmitShift(l, op, next)
  }

  /** The slot recorded while emitting `op` at stream offset `base`. */
  function OpSlot(l: Label, op: Op, base: nat): seq<Slot> {
    if op.Shift? && op.tdi != [] then [Slot(op, base + |ShiftEntry(l)|)] else []
  }

  function Lookahead(ops: seq<Op>, i: nat): Option<Op> {
    if i + 1 < |ops| then Some(ops[i + 1]) else None
  }

  /** A batch lowered from label `l`; None where the source raises. `base` is
      the number of TCKs already in the buffers. */
  function Encode(l: Label, ops: seq<Op>, base: nat): Option<Encoded>
    decreases |ops|
  {
    if ops == [] then Some(Encoded([], [], l))
    else
      var next := Lookahead(ops, 0);
      if !Accepts(l, ops[0], next) then None
      else
        var head := EmitOp(l, ops[0], next);
        Prepend(head.wire, OpSlot(l, ops[0], base), Encode(head.at, ops[1..], base + |head.wire|))
  }

  function Prepend(wire: seq<T.Tck>, slots: seq<Slot>, tail: Option<Encoded>): Option<Encoded> {
    if tail.None? then None else Some(Encoded(wire + tail.value.wire, slots + tail.value.slots, tail.value.at))
  }

  /** Batches lowered one after the other on the same encoder; slot offsets
      are relative to the concatenated stream. */
  function EncodeAll(l: Label, batches: seq<seq<Op>>, base: nat): Option<Encoded>
    decreases |batches|
  {
    if batches == [] then Some(Encoded([], [], l))
    else
      var head := Encode(l, batches[0], base);
      if head.None? then None
      else
        Prepend(head.value.wire, head.value.slots,
                EncodeAll(head.value.at, batches[1..], base + |head.value.wire|))
  }

  /** Two equally long buffers read as a stream of TCKs. */
  function Zip(tms: seq<bool>, tdi: seq<bool>): (w: seq<T.Tck>)
    requires |tms| == |tdi|
    ensures |w| == |tms|
  {
    seq(|tms|, i requires 0 <= i < |tms| => T.Tck(tms[i], tdi[i]))
  }

  /** The stateful encoder. The two output buffers of a call to `Encode` and
      its slot list are fields, emptied when the call starts. */
  class Encoder {
    var state: Label
    var tms: seq<bool>
    var tdi: seq<bool>
    var slots: seq<Slot>

    ghost predicate Valid()
      reads this
    {
      |tms| == |tdi|
    }

    ghost function Wire(): seq<T.Tck>
      reads this
      requires Valid()
    {
      Zip(tms, tdi)
    }

    constructor ()
      ensures Valid() && state == TLR && Wire() == [] && slots == []
    {
      state, tms, tdi, slots := TLR, [], [], [];
    }

    method Append(t: seq<bool>, d: seq<bool>)
      requires Valid() && |t| == |d|
      modifies `tms, `tdi
      ensures Valid() && Wire() == old(Wire()) + Zip(t, d)
    {
      tms, tdi := tms + t, tdi + d;
    }

    method EmitTmsPattern(pattern: seq<bool>)
      requires Valid()
      modifies `tms, `tdi, `state
      ensures Valid() && Wire() == old(Wire()) + Pattern(pattern) && state == TLR
    {
      Append(pattern, Zeros(|pattern|));
      assert Zip(pattern, Zeros(|pattern|)) == Pattern(pattern);
      state := TLR;
    }

    method EmitRunOp(cycles: nat)
      requires Valid()
      modifies `tms, `tdi, `state
      ensures Valid()
      ensures Wire() == old(Wire()) + EmitRun(old(state), cycles).wire && state == EmitRun(old(state), cycles).at
    {
      ghost var before := Wire();
      if state == PAUSE {
        Append([true, true], [false, false]);
        assert Zip([true, true], [false, false]) == Pattern([true, true]);
        state := RTI;
      } else if state == TLR && cycles != 0 {
        state := RTI;
      }
      if cycles != 0 {
        Append(Zeros(cycles), Zeros(cycles));
        assert Zip(Zeros(cycles), Zeros(cycles)) == T.Repeat(false, false, cycles);
      }
      assert Wire() == before + EmitRun(old(state), cycles).wire;
    }

    method EmitEnterCapture(ir: bool) returns (ok: bool)
      requires Valid()
      modifies `tms, `tdi
      ensures Valid() && (ok <==> state == TLR || state == RTI || state == PAUSE)
      ensures ok ==> Wire() == old(Wire()) + EnterCapture(state, ir)
    {
      var pattern := [];
      ok := true;
      match state {
        case RTI => pattern := if ir then [true, true, false] else [true, false];
        case PAUSE => pattern := if ir then [true, true, true, true, false] else [true, true, true, false];
        case TLR => pattern := if ir then [false, true, true, false] else [false, true, false];
        case _ => ok := false;
      }
      Append(pattern, Zeros(|pattern|));
      assert Zip(pattern, Zeros(|pattern|)) == Pattern(pattern);
    }

    method EmitCaptureExit(next: Option<Op>)
      requires Valid()
      modifies `tms, `tdi, `state
      ensures Valid() && Wire() == old(Wire()) + CaptureExit(next).wire && state == CaptureExit(next).at
    {
      if next.Some? && next.value.Shift? {
        Append([false], [false]);
        assert Zip([false], [false]) == Pattern([false]);
        state := PRE_SHIFT;
      } else if next.Some? && (IsCapture(next.value) || next.value.Run?) {
        state := PAUSE;
      } else {
        Append([true, false], [false, false]);
        assert Zip([true, false], [false, false]) == Pattern([true, false]);
        state := PAUSE;
      }
    }

    /** The last payload bit shares its TCK with the edge out of Shift. */
    method ExitShift(next: Option<Op>, lastTdi: bool, skippedPayload: bool)
      requires Valid()
      modifies `tms, `tdi, `state
      ensures Valid()
      ensures IsShift(next) ==>
                Wire() == old(Wire()) + (if skippedPayload then [] else [T.Tck(false, lastTdi)]) && state == IN_SHIFT
      ensures !IsShift(next) ==>
                Wire() == old(Wire()) + [T.Tck(true, !skippedPayload && lastTdi), T.Tck(false, false)] && state == PAUSE
    {
      if IsShift(next) {
        if !skippedPayload {
          Append([false], [lastTdi]);
        }
        state := IN_SHIFT;
      } else {
        Append([true, false], [!skippedPayload && lastTdi, false]);
        state := PAUSE;
      }
    }

    method EmitPayload(op: Op, next: Option<Op>)
      requires Valid() && op.Shift?
      modifies this
      ensures Valid() && Wire() == old(Wire()) + ShiftBody(op.tdi, next).wire && state == ShiftBody(op.tdi, next).at
      ensures slots == old(slots) + if op.tdi == [] then [] else [Slot(op, old(|tdi|))]
    {
      var n := |op.tdi|;
      if n == 0 {
        ExitShift(next, false, true);
      } else {
        slots := slots + [Slot(op, |tdi|)];
        ghost var before := Wire();
        if n > 1 {
          Append(Zeros(n - 1), op.tdi[..n - 1]);
        }
        assert Wire() == before + Payload(op.tdi, true)[..n - 1];
        ExitShift(next, op.tdi[n - 1], false);
      }
      assert Wire() == old(Wire()) + ShiftBody(op.tdi, next).wire;
    }

    method EmitShiftOp(op: Op, next: Option<Op>) returns (ok: bool)
      requires Valid() && op.Shift?
      modifies this
      ensures Valid() && (ok <==> Accepts(old(state), op, next))
      ensures ok ==> Wire() == old(Wire()) + EmitShift(old(state), op, next).wire
      ensures ok ==> state == EmitShift(old(state), op, next).at
      ensures ok ==> slots == old(slots) + OpSlot(old(state), op, old(|tdi|))
    {
      ghost var l, before := state, Wire();
      ok := EnterShift();
      if !ok || (op.postRun != 0 && IsShift(next)) {
        return false;
      }
      EmitPayload(op, next);
      ghost var entry, body := ShiftEntry(l), ShiftBody(op.tdi, next);
      Assoc(before, entry, body.wire);
      if op.postRun != 0 {
        EmitRunOp(op.postRun);
        Assoc(before, entry + body.wire, EmitRun(body.at, op.postRun).wire);
      }
    }

    /** Back from Pause, or still there; raises elsewhere. */
    method EnterShift() returns (ok: bool)
      requires Valid()
      modifies `tms, `tdi
      ensures Valid() && (ok <==> state == PAUSE || state == PRE_SHIFT || state == IN_SHIFT)
      ensures ok ==> Wire() == old(Wire()) + ShiftEntry(state)
    {
      ok := true;
      if state == PAUSE {
        Append([true, false], [false, false]);
        assert Zip([true, false], [false, false]) == Pattern([true, false]);
      } else if state != PRE_SHIFT && state != IN_SHIFT {
        ok := false;
      }
    }

    method EmitOne(op: Op, next: Option<Op>) returns (ok: bool)
      requires Valid()
      modifies this
      ensures Valid() && (ok <==> Accepts(old(state), op, next))
      ensures ok ==> Wire() == old(Wire()) + EmitOp(old(state), op, next).wire
      ensures ok ==> state == EmitOp(old(state), op, next).at
      ensures ok ==> slots == old(slots) + OpSlot(old(state), op, old(|tdi|))
    {
      ok := true;
      match op {
        case Reset(count) => EmitTmsPattern(ResetTms(count));
        case SwdToJtag => EmitTmsPattern(SwdToJtagTms());
        case Run(cycles) => EmitRunOp(cycles);
        case CaptureDr =>
          ok := EmitEnterCapture(false);
          if ok { EmitCaptureExit(next); }
        case CaptureIr =>
          ok := EmitEnterCapture(true);
          if ok { EmitCaptureExit(next); }
        case Shift(_, _) =>
          ok := EmitShiftOp(op, next);
      }
    }

    /** Lowers a batch, or reports that the source would raise. */
    method EncodeBatch(ops: seq<Op>) returns (ok: bool)
      requires Valid()
      modifies this
      ensures Valid() && (ok <==> Encode(old(state), ops, 0).Some?)
      ensures ok ==> Encode(old(state), ops, 0) == Some(Encoded(Wire(), slots, state))
    {
      tms, tdi, slots := [], [], [];
      var i := 0;
      EncodedNone(state, ops);
      assert Wire() == [];
      while i < |ops|
        invariant Valid() && 0 <= i <= |ops| && EncodedSoFar(old(state), ops, i, Encoded(Wire(), slots, state))
      {
        EncodedStep(old(state), ops, i, Encoded(Wire(), slots, state), EmitOp(state, ops[i], Lookahead(ops, i)));
        ok := EmitOne(ops[i], Lookahead(ops, i));
        if !ok {
          return;
        }
        i := i + 1;
      }
      EncodedAll(old(state), ops, Encoded(Wire(), slots, state));
      ok := true;
    }
  }

  /** What the first `i` ops of a batch came to, against the whole batch. */
  ghost predicate EncodedSoFar(l: Label, ops: seq<Op>, i: nat, e: Encoded) {
    i <= |ops| && Encode(l, ops, 0) == Prepend(e.wire, e.slots, Encode(e.at, ops[i..], |e.wire|))
  }

  lemma {:induction false} EncodedNone(l: Label, ops: seq<Op>)
    ensures EncodedSoFar(l, ops, 0, Encoded([], [], l))
  {
    assert ops[0..] == ops;
    PrependNothing([], [], l, Encode(l, ops, 0));
  }

  lemma {:induction false} EncodedStep(l: Label, ops: seq<Op>, i: nat, e: Encoded, m: Emitted)
    requires EncodedSoFar(l, ops, i, e) && i < |ops| && m == EmitOp(e.at, ops[i], Lookahead(ops, i))
    ensures !Accepts(e.at, ops[i], Lookahead(ops, i)) ==> Encode(l, ops, 0).None?
    ensures Accepts(e.at, ops[i], Lookahead(ops, i)) ==>
      EncodedSoFar(l, ops, i + 1, Encoded(e.wire + m.wire, e.slots + OpSlot(e.at, ops[i], |e.wire|), m.at))
  {
    var rest := ops[i..];
    assert rest[0] == ops[i] && rest[1..] == ops[i + 1..] && Lookahead(rest, 0) == Lookahead(ops, i);
    PrependTwice(e.wire, e.slots, m.wire, OpSlot(e.at, ops[i], |e.wire|), Encode(m.at, ops[i + 1..], |e.wire| + |m.wire|));
  }

  lemma {:induction false} EncodedAll(l: Label, ops: seq<Op>, e: Encoded)
    requires EncodedSoFar(l, ops, |ops|, e)
    ensures Encode(l, ops, 0) == Some(e)
  {
    assert ops[|ops|..] == [];
    PrependNothing(e.wire, e.slots, e.at, None);
  }

  lemma {:induction false} PrependNothing(wire: seq<T.Tck>, slots: seq<Slot>, l: Label, e: Option<Encoded>)
    ensures Prepend([], [], e) == e
    ensures Prepend(wire, slots, Some(Encoded([], [], l))) == Some(Encoded(wire, slots, l))
  {
    if e.Some? {
      assert [] + e.value.wire == e.value.wire && [] + e.value.slots == e.value.slots;
    }
    assert wire + [] == wire && slots + [] == slots;
  }

  lemma {:induction false} PrependTwice(a: seq<T.Tck>, x: seq<Slot>, b: seq<T.Tck>, y: seq<Slot>, tail: Option<Encoded>)
    ensures Prepend(a, x, Prepend(b, y, tail)) == Prepend(a + b, x + y, tail)
  {
    if tail.Some? {
      assert a + (b + tail.value.wire) == a + b + tail.value.wire;
      assert x + (y + tail.value.slots) == x + y + tail.value.slots;
    }
  }
}
