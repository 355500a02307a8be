/** What the encoder clocks out, TCK by TCK, where the TAP does not tell: how long
    resets last, the word that switches to JTAG, and TDI outside payloads. */
module JtagWire {
  import opened BitSequences
  import opened Wrappers
  import T = TapController
  import opened JtagOps
  import opened JtagOpEncoder
  import F = EncoderRefinement
  import N = BitStrings

  /** TMS high and TDI low for `n` TCKs. */
  predicate Held(w: seq<T.Tck>, from: nat, n: nat) {
    from + n <= |w| && forall i :: from <= i < from + n ==> w[i] == T.Tck(true, false)
  }

  /** Wherever in a batch and from whatever label, a reset holds TMS high for the
      TCKs asked for, but no less than five. */
  lemma {:induction false} ResetOnWire(l: Label, ops: seq<Op>, base: nat) returns (w: seq<T.Tck>)
    requires ops != [] && ops[0].Reset?
    ensures |w| == (if ops[0].count < 5 then 5 else ops[0].count) && Held(w, 0, |w|)
    ensures Encode(l, ops, base) == Prepend(w, [], Encode(TLR, ops[1..], base + |w|))
  {
    var m := EmitOp(l, ops[0], Lookahead(ops, 0));
    w := m.wire;
    F.EncodeCons(l, ops, base, m, OpSlot(l, ops[0], base));
  }

  /** The switch to JTAG: fifty ones, the word 0xe73c from its lowest bit on, five ones. */
  lemma {:induction false} SwdToJtagOnWire(l: Label, ops: seq<Op>, base: nat) returns (w: seq<T.Tck>)
    requires ops != [] && ops[0].SwdToJtag?
    ensures |w| == 71 && Held(w, 0, 50) && Held(w, 66, 5)
    ensures forall i: nat :: i < 16 ==> w[50 + i] == T.Tck((0xe73c / N.Pow2(i)) % 2 == 1, false)
    ensures Encode(l, ops, base) == Prepend(w, [], Encode(TLR, ops[1..], base + |w|))
  {
    var m := EmitOp(l, ops[0], Lookahead(ops, 0));
    w := m.wire;
    F.EncodeCons(l, ops, base, m, OpSlot(l, ops[0], base));
    SwitchWord();
    forall i: nat | i < 16 ensures w[50 + i] == T.Tck((0xe73c / N.Pow2(i)) % 2 == 1, false) {
      assert w[50 + i] == T.Tck(SwitchTms()[i], false);
      N.LowBitsAt(0xe73c, 16, i);
    }
  }

  /** The word, its four digits from their lowest bits on. */
  lemma {:induction false} SwitchWord()
    ensures SwitchTms() == N.LowBits(0xe73c, 16)
  {
    N.ValueRoundTrip(SwitchTms());
    WordValue(SwitchTms());
  }

  lemma {:induction false} WordValue(bits: Bits)
    requires |bits| == 16
    requires !bits[0] && !bits[1] && bits[2] && bits[3] && bits[4] && bits[5] && !bits[6] && !bits[7]
    requires bits[8] && bits[9] && bits[10] && !bits[11] && !bits[12] && bits[13] && bits[14] && bits[15]
    ensures N.Value(bits) == 0xe73c
  {
    N.DigitAt(bits, 12, 0xe);
    N.DigitAt(bits, 8, 0x7);
    N.DigitAt(bits, 4, 0x3);
    N.DigitAt(bits, 0, 0xc);
    assert bits[16..] == [] && bits[0..] == bits;
  }

  /** The TCKs an op takes: one for each of its events, and the silent ones on the
      way; none is spent in a state that could be left. */
  function Silent(l: Label, op: Op, next: Option<Op>): nat {
    match op
    case Run(_) => if l.PAUSE? then 1 else 0
    case Shift(_, postRun) => (if l.PAUSE? then 2 else 0) + (if IsShift(next) then 0 else 1) + if postRun > 0 then 1 else 0
    case _ =>
      // to Exit2, Select-DR and Select-IR, then out of Capture
      (if l.PAUSE? then 1 else 0) + (if op.CaptureIr? then 2 else 1)
      + if IsShift(next) then 1
        else if next.Some? && (IsCapture(next.value) || next.value.Run?) then 0
        else 2
  }

  lemma {:induction false} TckCount(l: Label, s: T.State, r: Rest, op: Op, next: Option<Op>)
    requires F.Matches(l, s, r, Some(op)) && Accepts(l, op, next) && !op.Reset? && !op.SwdToJtag?
    ensures |EmitOp(l, op, next).wire| == |Events(r, F.Effective(op, next))| + Silent(l, op, next)
  {}

  /** TDI is low but for payload bits. */
  lemma {:induction false} TdiIsPayload(l: Label, op: Op, next: Option<Op>, base: nat)
    ensures var w, slots := EmitOp(l, op, next).wire, OpSlot(l, op, base);
            forall i :: 0 <= i < |w| && w[i].tdi ==>
              slots != [] && slots[0].offset <= base + i < slots[0].offset + |op.tdi| && op.tdi[base + i - slots[0].offset]
  {
    QuietTdi(l, op, next);
    if op.Shift? {
      ShiftTdi(l, op, next);
    }
  }

  lemma {:induction false} QuietTdi(l: Label, op: Op, next: Option<Op>)
    ensures !op.Shift? ==> forall t :: t in EmitOp(l, op, next).wire ==> !t.tdi
  {}

  lemma {:induction false} ShiftTdi(l: Label, op: Op, next: Option<Op>)
    requires op.Shift?
    ensures var w, entry := EmitShift(l, op, next).wire, |ShiftEntry(l)|;
            forall i :: 0 <= i < |w| && w[i].tdi ==> entry <= i < entry + |op.tdi| && op.tdi[i - entry]
  {}
}
