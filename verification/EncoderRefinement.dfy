/** The encoder refines the TAP controller: what its TMS/TDI stream does on a
    TAP is exactly what the ops mean, whatever the batching. */
module EncoderRefinement {
  import opened BitSequences
  import opened Wrappers
  import T = TapController
  import opened JtagOps
  import opened JtagOpEncoder

  /** A zero-length Shift that is not followed by another Shift in its batch
      leaves through Shift and clocks one zero. */
  function Effective(op: Op, next: Option<Op>): (r: Op)
    ensures Legal(Open(false), op) && (r.Shift? <==> op.Shift?)
  {
    if op.Shift? && op.tdi == [] && !IsShift(next) then op.(tdi := [false]) else op
  }

  function EffectiveOps(ops: seq<Op>): (r: seq<Op>)
    ensures |r| == |ops|
    decreases |ops|
  {
    if ops == [] then [] else [Effective(ops[0], Lookahead(ops, 0))] + EffectiveOps(ops[1..])
  }

  /** The label describes the TAP and the op-level position. Under PAUSE the
      TAP may still be in Capture, when `next` leaves by TMS high twice;
      under RTI it may still be in Update, whose successors are those of
      Run-Test/Idle. */
  predicate Matches(l: Label, s: T.State, r: Rest, next: Option<Op>) {
    match l
    case TLR => s.TestLogicReset? && r.AtReset?
    case RTI => (s.RunTestIdle? || s.Update?) && r.AtIdle?
    case PAUSE =>
      r.Open? && (s == T.Pause(r.ir)
                  || (s == T.Capture(r.ir) && next.Some? && (IsCapture(next.value) || next.value.Run?)))
    case PRE_SHIFT => r.Open? && s == T.Shift(r.ir) && IsShift(next)
    case IN_SHIFT => r.Open? && s == T.Shift(r.ir) && IsShift(next)
  }

  /** Between batches the TAP really rests. */
  predicate RestsAt(l: Label, s: T.State, r: Rest) { Matches(l, s, r, None) }

  function First(ops: seq<Op>): Option<Op> { if ops == [] then None else Some(ops[0]) }

  function Range(from: nat, n: nat): (r: seq<nat>)
    ensures |r| == n
  {
    seq(n, i => from + i)
  }

  function SlotPositions(slots: seq<Slot>): seq<nat> {
    if slots == [] then []
    else (if slots[0].op.Shift? then Range(slots[0].offset, |slots[0].op.tdi|) else [])
         + SlotPositions(slots[1..])
  }

  // ----- Fixed patterns ------------------------------------------------

  /** Clocking `tms` with TDI low from `s` ends in `e` and shows `events`. */
  predicate Does(s: T.State, w: seq<T.Tck>, e: T.State, events: seq<T.Event>) {
    T.Walk(s, w) == e && T.Trace(s, w) == events
  }

  lemma {:induction false} DoesNothing(s: T.State)
    ensures Does(s, Pattern([]), s, [])
  {}

  /** One more TCK in front. */
  lemma {:induction false} DoesCons(s: T.State, tms: bool, rest: seq<bool>, e: T.State, events: seq<T.Event>)
    requires Does(T.Next(s, tms), Pattern(rest), e, events)
    ensures Does(s, Pattern([tms] + rest), e, T.EdgeEvents(s, T.Tck(tms, false)) + events)
  {
    assert Pattern([tms] + rest)[1..] == Pattern(rest);
  }

  lemma {:induction false} DoesThen(s: T.State, a: seq<T.Tck>, m: T.State, x: seq<T.Event>, b: seq<T.Tck>, e: T.State, y: seq<T.Event>)
    requires Does(s, a, m, x) && Does(m, b, e, y)
    ensures Does(s, a + b, e, x + y)
  {
    T.WalkConcat(s, a, b);
  }

  lemma {:induction false} Does1(s: T.State, a: bool)
    ensures Does(s, Pattern([a]), T.Next(s, a), T.EdgeEvents(s, T.Tck(a, false)))
  {
    var s1 := T.Next(s, a);
    DoesNothing(s1);
    DoesCons(s, a, [], s1, []);
    assert [a] + [] == [a];
  }

  lemma {:induction false} Does2(s: T.State, a: bool, b: bool)
    ensures var s1 := T.Next(s, a);
            Does(s, Pattern([a, b]), T.Next(s1, b),
                 T.EdgeEvents(s, T.Tck(a, false)) + T.EdgeEvents(s1, T.Tck(b, false)))
  {
    var s1 := T.Next(s, a);
    Does1(s1, b);
    DoesCons(s, a, [b], T.Next(s1, b), T.EdgeEvents(s1, T.Tck(b, false)));
    assert [a] + [b] == [a, b];
  }

  // ----- Emitters --------------------------------------------------------

  lemma {:induction false} RunDoes(l: Label, s: T.State, r: Rest, n: nat)
    requires Matches(l, s, r, Some(Run(n))) && (l.TLR? || l.RTI? || l.PAUSE?)
    ensures var m := EmitRun(l, n);
            var e := T.Walk(s, m.wire);
            Does(s, m.wire, e, Events(r, Run(n))) && RestsAt(m.at, e, After(r, Run(n)))
  {
    if l.PAUSE? {
      RunFromScan(s, r.ir, n);
    } else {
      T.RunTrace(s, n);
      assert EmitRun(l, n).wire == T.Repeat(false, false, n);
    }
  }

  /** Idle cycles from Capture or Pause go through Update. */
  lemma {:induction false} RunFromScan(s: T.State, ir: bool, n: nat)
    requires s == T.Capture(ir) || s == T.Pause(ir)
    ensures var w := Pattern([true, true]) + T.Repeat(false, false, n);
            var e := T.Walk(s, w);
            Does(s, w, e, [T.Updated(ir)] + T.Idles(n)) && e == if n == 0 then T.Update(ir) else T.RunTestIdle
  {
    var u := T.Update(ir);
    Does2(s, true, true);
    assert Does(s, Pattern([true, true]), u, [T.Updated(ir)]);
    T.RunTrace(u, n);
    DoesThen(s, Pattern([true, true]), u, [T.Updated(ir)], T.Repeat(false, false, n),
             T.Walk(u, T.Repeat(false, false, n)), T.Idles(n));
  }

  /** Run-Test/Idle and Update reach Capture by the same TMS bits. */
  lemma {:induction false} SelectDoes(s: T.State, ir: bool)
    requires s.RunTestIdle? || s.Update?
    ensures Does(s, Pattern(if ir then [true, true, false] else [true, false]), T.Capture(ir), [T.Captured(ir)])
  {
    if ir {
      Does2(T.SelectDr, true, false);
      DoesCons(s, true, [true, false], T.Capture(true), [T.Captured(true)]);
      assert [true] + [true, false] == [true, true, false];
    } else {
      Does2(s, true, false);
    }
  }

  function CaptureOp(ir: bool): Op { if ir then CaptureIr else CaptureDr }

  function SelectTms(ir: bool): seq<bool> { if ir then [true, true, false] else [true, false] }

  lemma {:induction false} EnterFromPause(s: T.State, r: Rest, ir: bool)
    requires r.Open? && (s == T.Pause(r.ir) || s == T.Capture(r.ir))
    ensures Does(s, Pattern([true, true]) + Pattern(SelectTms(ir)), T.Capture(ir),
                 [T.Updated(r.ir)] + [T.Captured(ir)])
  {
    Does2(s, true, true);
    SelectDoes(T.Update(r.ir), ir);
    DoesThen(s, Pattern([true, true]), T.Update(r.ir), [T.Updated(r.ir)],
             Pattern(SelectTms(ir)), T.Capture(ir), [T.Captured(ir)]);
  }

  lemma {:induction false} EnterFromReset(ir: bool)
    ensures Does(T.TestLogicReset, Pattern([false] + SelectTms(ir)), T.Capture(ir), [T.Idle] + [T.Captured(ir)])
  {
    SelectDoes(T.RunTestIdle, ir);
    DoesCons(T.TestLogicReset, false, SelectTms(ir), T.Capture(ir), [T.Captured(ir)]);
  }

  lemma {:induction false} EnterCaptureDoes(l: Label, s: T.State, r: Rest, ir: bool)
    requires Matches(l, s, r, Some(CaptureOp(ir))) && (l.TLR? || l.RTI? || l.PAUSE?)
    ensures Does(s, EnterCapture(l, ir), T.Capture(ir), Events(r, CaptureOp(ir)))
  {
    match l {
      case RTI => SelectDoes(s, ir);
      case TLR =>
        EnterFromReset(ir);
        assert EnterCapture(l, ir) == Pattern([false] + SelectTms(ir));
      case PAUSE =>
        EnterFromPause(s, r, ir);
        assert EnterCapture(l, ir) == Pattern([true, true]) + Pattern(SelectTms(ir));
    }
  }

  lemma {:induction false} CaptureDoes(l: Label, s: T.State, r: Rest, ir: bool, next: Option<Op>)
    requires Matches(l, s, r, Some(CaptureOp(ir))) && Accepts(l, CaptureOp(ir), next)
    ensures var m := EmitCapture(l, ir, next);
            var e := T.Walk(s, m.wire);
            Does(s, m.wire, e, Events(r, CaptureOp(ir))) && Matches(m.at, e, Open(ir), next)
  {
    EnterCaptureDoes(l, s, r, ir);
    CaptureExitDoes(ir, next);
    var exit := CaptureExit(next).wire;
    DoesThen(s, EnterCapture(l, ir), T.Capture(ir), Events(r, CaptureOp(ir)), exit, T.Walk(T.Capture(ir), exit), []);
    assert Events(r, CaptureOp(ir)) + [] == Events(r, CaptureOp(ir));
  }

  lemma {:induction false} CaptureExitDoes(ir: bool, next: Option<Op>)
    ensures var m := CaptureExit(next);
            var e := T.Walk(T.Capture(ir), m.wire);
            Does(T.Capture(ir), m.wire, e, []) && Matches(m.at, e, Open(ir), next)
  {
    if IsShift(next) {
      Does1(T.Capture(ir), false);
    } else {
      Does2(T.Capture(ir), true, false);
    }
  }

  /** TMS high from a rest state ends in reset, silently once there. */
  lemma {:induction false} ResetDoes(l: Label, s: T.State, r: Rest, n: nat)
    requires RestsAt(l, s, r) && n >= 5
    ensures Does(s, T.Repeat(true, false, n), T.TestLogicReset, EnterReset(r))
  {
    T.HoldReset(n);
    if l.RTI? {
      SelectReset(s, n);
    } else if l.PAUSE? {
      PauseReset(r.ir, n);
    }
  }

  lemma {:induction false} PauseReset(ir: bool, n: nat)
    requires n >= 5
    ensures Does(T.Pause(ir), T.Repeat(true, false, n), T.TestLogicReset, [T.Updated(ir), T.Reset])
  {
    T.OnesStep(T.Pause(ir), n);
    T.OnesStep(T.Exit2(ir), n - 1);
    SelectReset(T.Update(ir), n - 2);
  }

  lemma {:induction false} SelectReset(s: T.State, n: nat)
    requires (s.RunTestIdle? || s.Update?) && n >= 3
    ensures Does(s, T.Repeat(true, false, n), T.TestLogicReset, [T.Reset])
  {
    T.OnesStep(s, n);
    T.OnesStep(T.SelectDr, n - 1);
    T.OnesStep(T.SelectIr, n - 2);
    T.HoldReset(n - 3);
  }

  /** The switch word from Test-Logic-Reset. */
  lemma {:induction false} SwitchDoes()
    ensures Does(T.TestLogicReset, Pattern(SwitchTms()),
                 T.TestLogicReset,
                 [T.Idle, T.Idle, T.Reset, T.Idle, T.Idle, T.Reset, T.Idle, T.Idle, T.Reset])
  {
    var bounce, ev := [false, false, true, true, true], [T.Idle, T.Idle, T.Reset];
    BounceDoes();
    SwitchShape(bounce);
    ThreeTimes(ev);
    ThreeBounces(Pattern(bounce), ev, Pattern(SwitchTms()), ev + ev + ev);
  }

  lemma {:induction false} ThreeTimes(ev: seq<T.Event>)
    requires ev == [T.Idle, T.Idle, T.Reset]
    ensures ev + ev + ev == [T.Idle, T.Idle, T.Reset, T.Idle, T.Idle, T.Reset, T.Idle, T.Idle, T.Reset]
  {}

  lemma {:induction false} SwitchShape(bounce: seq<bool>)
    requires bounce == [false, false, true, true, true]
    ensures Pattern(SwitchTms()) == (Pattern(bounce) + Pattern([true])) + (Pattern(bounce) + Pattern(bounce))
  {}

  lemma {:induction false} ThreeBounces(b: seq<T.Tck>, ev: seq<T.Event>, all: seq<T.Tck>, evs: seq<T.Event>)
    requires Does(T.TestLogicReset, b, T.TestLogicReset, ev)
    requires all == (b + Pattern([true])) + (b + b) && evs == ev + ev + ev
    ensures Does(T.TestLogicReset, all, T.TestLogicReset, evs)
  {
    Does1(T.TestLogicReset, true);
    DoesThen(T.TestLogicReset, b, T.TestLogicReset, ev, Pattern([true]), T.TestLogicReset, []);
    DoesThen(T.TestLogicReset, b, T.TestLogicReset, ev, b, T.TestLogicReset, ev);
    DoesThen(T.TestLogicReset, b + Pattern([true]), T.TestLogicReset, ev + [], b + b, T.TestLogicReset, ev + ev);
    assert ev + [] + (ev + ev) == ev + ev + ev;
  }

  lemma {:induction false} BounceDoes()
    ensures Does(T.TestLogicReset, Pattern([false, false, true, true, true]),
                 T.TestLogicReset, [T.Idle, T.Idle, T.Reset])
  {
    Does2(T.TestLogicReset, false, false);
    Does2(T.SelectDr, true, true);
    DoesCons(T.RunTestIdle, true, [true, true], T.TestLogicReset, [T.Reset]);
    DoesThen(T.TestLogicReset, Pattern([false, false]), T.RunTestIdle, [T.Idle, T.Idle],
             Pattern([true] + [true, true]), T.TestLogicReset, [T.Reset]);
    assert Pattern([false, false, true, true, true]) == Pattern([false, false]) + Pattern([true] + [true, true]);
  }

  lemma {:induction false} SwdToJtagDoes(l: Label, s: T.State, r: Rest)
    requires RestsAt(l, s, r)
    ensures Does(s, Pattern(SwdToJtagTms()), T.TestLogicReset, Events(r, SwdToJtag))
  {
    ResetDoes(l, s, r, 50);
    SwitchDoes();
    var ev := [T.Idle, T.Idle, T.Reset, T.Idle, T.Idle, T.Reset, T.Idle, T.Idle, T.Reset];
    SwitchSettles(s, EnterReset(r), SwitchTms(), ev);
    OnesAround(SwitchTms());
  }

  lemma {:induction false} OnesAround(word: seq<bool>)
    ensures Pattern(Ones(50) + word + Ones(5)) ==
            T.Repeat(true, false, 50) + (Pattern(word) + T.Repeat(true, false, 5))
  {}

  lemma {:induction false} SwitchSettles(s: T.State, x: seq<T.Event>, word: seq<bool>, ev: seq<T.Event>)
    requires Does(s, T.Repeat(true, false, 50), T.TestLogicReset, x)
    requires Does(T.TestLogicReset, Pattern(word), T.TestLogicReset, ev)
    ensures Does(s, T.Repeat(true, false, 50) + (Pattern(word) + T.Repeat(true, false, 5)), T.TestLogicReset, x + ev)
  {
    T.HoldReset(5);
    DoesThen(T.TestLogicReset, Pattern(word), T.TestLogicReset, ev, T.Repeat(true, false, 5), T.TestLogicReset, []);
    DoesThen(s, T.Repeat(true, false, 50), T.TestLogicReset, x,
             Pattern(word) + T.Repeat(true, false, 5), T.TestLogicReset, ev + []);
    assert ev + [] == ev;
  }

  // ----- Shift -----------------------------------------------------------

  lemma {:induction false} PayloadDoes(ir: bool, bits: seq<bool>, leave: bool, base: nat)
    ensures var e := if bits != [] && leave then T.Exit1(ir) else T.Shift(ir);
            Does(T.Shift(ir), Payload(bits, leave), e, Shifts(ir, bits))
    ensures T.ShiftPositions(T.Shift(ir), Payload(bits, leave), base) == Range(base, |bits|)
    decreases |bits|
  {
    if |bits| == 1 {
      assert Payload(bits, leave)[1..] == [];
      assert Shifts(ir, bits) == [T.Shifted(ir, bits[0])];
      assert Range(base, 1) == [base];
    } else if bits != [] {
      PayloadDoes(ir, bits[1..], leave, base + 1);
      assert Payload(bits, leave)[1..] == Payload(bits[1..], leave);
      assert Shifts(ir, bits) == [T.Shifted(ir, bits[0])] + Shifts(ir, bits[1..]);
      assert Range(base, |bits|) == [base] + Range(base + 1, |bits| - 1);
    }
  }

  /** Control bits never clock the shift register. */
  lemma {:induction false} QuietPositions(s: T.State, w: seq<T.Tck>, base: nat)
    requires forall e :: e in T.Trace(s, w) ==> !e.Shifted?
    ensures T.ShiftPositions(s, w, base) == []
    decreases |w|
  {
    if w != [] {
      var t := T.Trace(s, w);
      assert t == T.EdgeEvents(s, w[0]) + T.Trace(T.Next(s, w[0].tms), w[1..]);
      assert t != [] ==> t[0] in t;
      assert !s.Shift?;
      QuietPositions(T.Next(s, w[0].tms), w[1..], base + 1);
    }
  }

  /** An emitted op, seen from the TAP: the right events, a label that
      describes where the TAP is, and payload TCKs where the slots say. */
  ghost predicate Lowers(m: Emitted, slots: seq<Slot>, s: T.State, r: Rest, op: Op, next: Option<Op>, base: nat)
    requires Legal(r, op)
  {
    && T.Trace(s, m.wire) == Events(r, Effective(op, next))
    && Matches(m.at, T.Walk(s, m.wire), After(r, op), next)
    && (Effective(op, next) == op ==> T.ShiftPositions(s, m.wire, base) == SlotPositions(slots))
  }

  lemma {:induction false} ShiftEntryDoes(l: Label, s: T.State, r: Rest, op: Op)
    requires op.Shift? && r.Open? && Matches(l, s, r, Some(op))
    ensures Does(s, ShiftEntry(l), T.Shift(r.ir), [])
  {
    if l.PAUSE? {
      Does2(s, true, false);
    } else {
      assert ShiftEntry(l) == [];
    }
  }

  lemma {:induction false} ShiftBodyDoes(ir: bool, bits: seq<bool>, next: Option<Op>)
    ensures var m := ShiftBody(bits, next);
            var e := if IsShift(next) then T.Shift(ir) else T.Pause(ir);
            Does(T.Shift(ir), m.wire, e, Shifts(ir, Effective(Shift(bits, 0), next).tdi))
  {
    var sent := Effective(Shift(bits, 0), next).tdi;
    PayloadDoes(ir, sent, !IsShift(next), 0);
    if !IsShift(next) {
      Does1(T.Exit1(ir), false);
      DoesThen(T.Shift(ir), Payload(sent, true), T.Exit1(ir), Shifts(ir, sent), Pattern([false]), T.Pause(ir), []);
      assert Shifts(ir, sent) + [] == Shifts(ir, sent);
    }
  }

  lemma {:induction false} ShiftBodyPositions(ir: bool, bits: seq<bool>, next: Option<Op>, base: nat)
    requires bits != [] || IsShift(next)
    ensures T.ShiftPositions(T.Shift(ir), ShiftBody(bits, next).wire, base) == Range(base, |bits|)
  {
    PayloadDoes(ir, bits, !IsShift(next), base);
    if !IsShift(next) {
      T.ShiftPositionsConcat(T.Shift(ir), Payload(bits, true), Pattern([false]), base);
      Does1(T.Exit1(ir), false);
      QuietPositions(T.Exit1(ir), Pattern([false]), base + |bits|);
    }
  }

  /** Entry, payload and exit, before any trailing idle cycles. */
  lemma {:induction false} ShiftCoreDoes(l: Label, s: T.State, r: Rest, op: Op, next: Option<Op>)
    requires op.Shift? && r.Open? && Matches(l, s, r, Some(op))
    ensures var w := ShiftEntry(l) + ShiftBody(op.tdi, next).wire;
            Does(s, w, if IsShift(next) then T.Shift(r.ir) else T.Pause(r.ir), Shifts(r.ir, Effective(op, next).tdi))
  {
    ShiftEntryDoes(l, s, r, op);
    ShiftBodyDoes(r.ir, op.tdi, next);
    var ev := Shifts(r.ir, Effective(op, next).tdi);
    DoesThen(s, ShiftEntry(l), T.Shift(r.ir), [], ShiftBody(op.tdi, next).wire,
             if IsShift(next) then T.Shift(r.ir) else T.Pause(r.ir), ev);
    assert [] + ev == ev;
  }

  lemma {:induction false} ShiftCorePositions(l: Label, s: T.State, r: Rest, op: Op, next: Option<Op>, base: nat)
    requires op.Shift? && r.Open? && Matches(l, s, r, Some(op)) && Effective(op, next) == op
    ensures T.ShiftPositions(s, ShiftEntry(l) + ShiftBody(op.tdi, next).wire, base) ==
            SlotPositions(OpSlot(l, op, base))
  {
    ShiftEntryDoes(l, s, r, op);
    QuietPositions(s, ShiftEntry(l), base);
    var start := base + |ShiftEntry(l)|;
    ShiftBodyPositions(r.ir, op.tdi, next, start);
    T.ShiftPositionsConcat(s, ShiftEntry(l), ShiftBody(op.tdi, next).wire, base);
    assert SlotPositions(OpSlot(l, op, base)) == Range(start, |op.tdi|);
  }

  lemma {:induction false} ShiftLowers(l: Label, s: T.State, r: Rest, op: Op, next: Option<Op>, base: nat)
    requires op.Shift? && r.Open? && Matches(l, s, r, Some(op)) && Accepts(l, op, next)
    ensures Lowers(EmitShift(l, op, next), OpSlot(l, op, base), s, r, op, next, base)
  {
    ShiftCoreDoes(l, s, r, op, next);
    var core := ShiftEntry(l) + ShiftBody(op.tdi, next).wire;
    var ev := Shifts(r.ir, Effective(op, next).tdi);
    if Effective(op, next) == op {
      ShiftCorePositions(l, s, r, op, next, base);
    }
    if op.postRun > 0 {
      ThenIdle(s, core, r.ir, ev, op.postRun, base);
    } else {
      assert ev + [] == ev;
    }
  }

  /** Idle cycles behind a scan that rests in Pause. */
  lemma {:induction false} ThenIdle(s: T.State, core: seq<T.Tck>, ir: bool, ev: seq<T.Event>, n: nat, base: nat)
    requires Does(s, core, T.Pause(ir), ev) && n > 0
    ensures var run := EmitRun(PAUSE, n).wire;
            && Does(s, core + run, T.RunTestIdle, ev + ([T.Updated(ir)] + T.Idles(n)))
            && T.ShiftPositions(s, core + run, base) == T.ShiftPositions(s, core, base)
  {
    var run := EmitRun(PAUSE, n).wire;
    RunFromScan(T.Pause(ir), ir, n);
    DoesThen(s, core, T.Pause(ir), ev, run, T.RunTestIdle, [T.Updated(ir)] + T.Idles(n));
    T.ShiftPositionsConcat(s, core, run, base);
    QuietPositions(T.Pause(ir), run, base + |core|);
  }

  lemma {:induction false} ResetLowers(l: Label, s: T.State, r: Rest, op: Op, next: Option<Op>)
    requires (op.Reset? || op.SwdToJtag?) && RestsAt(l, s, r)
    ensures Does(s, EmitOp(l, op, next).wire, T.TestLogicReset, Events(r, op))
  {
    if op.Reset? {
      var n := if op.count > 5 then op.count else 5;
      ResetDoes(l, s, r, n);
      assert Pattern(ResetTms(op.count)) == T.Repeat(true, false, n);
    } else {
      SwdToJtagDoes(l, s, r);
    }
  }

  lemma {:induction false} NoShiftEvents(r: Rest, op: Op)
    requires !op.Shift?
    ensures forall e :: e in Events(r, op) ==> !e.Shifted?
  {}

  /** Ops other than Shift never clock the shift register. */
  lemma {:induction false} QuietLowers(m: Emitted, s: T.State, r: Rest, op: Op, next: Option<Op>, base: nat)
    requires !op.Shift?
    requires T.Trace(s, m.wire) == Events(r, op)
    requires Matches(m.at, T.Walk(s, m.wire), After(r, op), next)
    ensures Lowers(m, [], s, r, op, next, base)
  {
    NoShiftEvents(r, op);
    QuietPositions(s, m.wire, base);
  }

  /** Every op the encoder accepts lowers correctly, from every label. */
  lemma {:induction false} OpLowers(l: Label, s: T.State, r: Rest, op: Op, next: Option<Op>, base: nat)
    requires Matches(l, s, r, Some(op)) && Accepts(l, op, next)
    ensures Legal(r, op) && Lowers(EmitOp(l, op, next), OpSlot(l, op, base), s, r, op, next, base)
  {
    if op.Shift? {
      ShiftLowers(l, s, r, op, next, base);
    } else {
      if IsCapture(op) {
        CaptureDoes(l, s, r, op.CaptureIr?, next);
      } else if op.Run? {
        RunDoes(l, s, r, op.cycles);
      } else {
        ResetLowers(l, s, r, op, next);
      }
      QuietLowers(EmitOp(l, op, next), s, r, op, next, base);
    }
  }

  // ----- Batches ---------------------------------------------------------

  /** A batch in which every empty Shift is followed by another Shift. */
  predicate NoStray(ops: seq<Op>) { EffectiveOps(ops) == ops }

  lemma {:induction false} SlotPositionsConcat(a: seq<Slot>, b: seq<Slot>)
    ensures SlotPositions(a + b) == SlotPositions(a) + SlotPositions(b)
  {
    if a == [] {
      assert a + b == b;
    } else {
      assert (a + b)[1..] == a[1..] + b;
      SlotPositionsConcat(a[1..], b);
    }
  }

  /** The stream shows the events of the batch (stray empty Shifts clock
      their zero), ends where the label says, and the TCKs in Shift are
      exactly the payload slots. */
  ghost predicate Realises(s: T.State, r: Rest, ops: seq<Op>, base: nat, e: Encoded) {
    && AllLegal(r, EffectiveOps(ops))
    && T.Trace(s, e.wire) == AllEvents(r, EffectiveOps(ops))
    && RestsAt(e.at, T.Walk(s, e.wire), AfterAll(r, ops))
    && (NoStray(ops) ==> T.ShiftPositions(s, e.wire, base) == SlotPositions(e.slots))
  }

  lemma {:induction false} RealisesCons(head: Emitted, slots: seq<Slot>, s: T.State, r: Rest, ops: seq<Op>, base: nat, tail: Encoded)
    requires ops != [] && Legal(r, ops[0]) && Lowers(head, slots, s, r, ops[0], Lookahead(ops, 0), base)
    requires Realises(T.Walk(s, head.wire), After(r, ops[0]), ops[1..], base + |head.wire|, tail)
    ensures Realises(s, r, ops, base, Encoded(head.wire + tail.wire, slots + tail.slots, tail.at))
  {
    RestStep(head.wire, s, r, ops, tail);
    PositionsStep(head.wire, slots, s, ops, base, tail);
    TraceStep(head.wire, s, r, ops, Lookahead(ops, 0), tail.wire);
  }

  lemma {:induction false} TraceStep(head: seq<T.Tck>, s: T.State, r: Rest, ops: seq<Op>, next: Option<Op>, tail: seq<T.Tck>)
    requires ops != [] && Legal(r, ops[0]) && next == Lookahead(ops, 0) && T.Trace(s, head) == Events(r, Effective(ops[0], next))
    requires AllLegal(After(r, ops[0]), EffectiveOps(ops[1..]))
    requires T.Trace(T.Walk(s, head), tail) == AllEvents(After(r, ops[0]), EffectiveOps(ops[1..]))
    ensures AllLegal(r, EffectiveOps(ops)) && T.Trace(s, head + tail) == AllEvents(r, EffectiveOps(ops))
  {
    EffectiveCons(ops);
    EffectiveAfter(r, ops[0], next);
    TraceCons(s, head, tail, r, EffectiveOps(ops));
  }

  lemma {:induction false} EffectiveAfter(r: Rest, op: Op, next: Option<Op>)
    ensures After(r, Effective(op, next)) == After(r, op) && (Legal(r, op) ==> Legal(r, Effective(op, next)))
  {}

  lemma {:induction false} RestStep(head: seq<T.Tck>, s: T.State, r: Rest, ops: seq<Op>, tail: Encoded)
    requires ops != [] && RestsAt(tail.at, T.Walk(T.Walk(s, head), tail.wire), AfterAll(After(r, ops[0]), ops[1..]))
    ensures RestsAt(tail.at, T.Walk(s, head + tail.wire), AfterAll(r, ops))
  {
    T.WalkConcat(s, head, tail.wire);
  }

  lemma {:induction false} PositionsStep(head: seq<T.Tck>, slots: seq<Slot>, s: T.State, ops: seq<Op>, base: nat, tail: Encoded)
    requires ops != []
    requires Effective(ops[0], Lookahead(ops, 0)) == ops[0] ==> T.ShiftPositions(s, head, base) == SlotPositions(slots)
    requires NoStray(ops[1..]) ==> T.ShiftPositions(T.Walk(s, head), tail.wire, base + |head|) == SlotPositions(tail.slots)
    ensures NoStray(ops) ==> T.ShiftPositions(s, head + tail.wire, base) == SlotPositions(slots + tail.slots)
  {
    EffectiveCons(ops);
    if NoStray(ops) {
      PositionsCons(s, head, slots, tail.wire, tail.slots, base);
    }
  }

  lemma {:induction false} TraceCons(s: T.State, head: seq<T.Tck>, tail: seq<T.Tck>, r: Rest, ops: seq<Op>)
    requires ops != [] && Legal(r, ops[0]) && T.Trace(s, head) == Events(r, ops[0])
    requires AllLegal(After(r, ops[0]), ops[1..])
    requires T.Trace(T.Walk(s, head), tail) == AllEvents(After(r, ops[0]), ops[1..])
    ensures AllLegal(r, ops) && T.Trace(s, head + tail) == AllEvents(r, ops)
  {
    T.WalkConcat(s, head, tail);
  }

  lemma {:induction false} PositionsCons(s: T.State, head: seq<T.Tck>, a: seq<Slot>, tail: seq<T.Tck>, b: seq<Slot>, base: nat)
    requires T.ShiftPositions(s, head, base) == SlotPositions(a)
    requires T.ShiftPositions(T.Walk(s, head), tail, base + |head|) == SlotPositions(b)
    ensures T.ShiftPositions(s, head + tail, base) == SlotPositions(a + b)
  {
    T.ShiftPositionsConcat(s, head, tail, base);
    SlotPositionsConcat(a, b);
  }

  lemma {:induction false} EffectiveCons(ops: seq<Op>)
    requires ops != []
    ensures EffectiveOps(ops)[0] == Effective(ops[0], Lookahead(ops, 0))
    ensures EffectiveOps(ops)[1..] == EffectiveOps(ops[1..])
    ensures NoStray(ops) ==> Effective(ops[0], Lookahead(ops, 0)) == ops[0] && NoStray(ops[1..])
  {}

  /** Raised exactly on the runs that are not legal, and realises all others. */
  ghost predicate Refined(s: T.State, r: Rest, ops: seq<Op>, base: nat, enc: Option<Encoded>) {
    && (enc.Some? <==> AllLegal(r, ops))
    && (enc.Some? ==> Realises(s, r, ops, base, enc.value))
  }

  /** The encoder refines the TAP controller, batch by batch. */
  lemma {:induction false} EncodeRefines(l: Label, s: T.State, r: Rest, ops: seq<Op>, base: nat)
    requires Matches(l, s, r, First(ops))
    ensures Refined(s, r, ops, base, Encode(l, ops, base))
    decreases |ops|
  {
    if ops == [] {
      RefinedNothing(l, s, r, base);
    } else {
      var next := Lookahead(ops, 0);
      if Accepts(l, ops[0], next) {
        var head, slots := EmitOp(l, ops[0], next), OpSlot(l, ops[0], base);
        OpLowers(l, s, r, ops[0], next, base);
        EncodeCons(l, ops, base, head, slots);
        assert next == First(ops[1..]);
        EncodeRefines(head.at, T.Walk(s, head.wire), After(r, ops[0]), ops[1..], base + |head.wire|);
        EncodeStep(head, slots, Encode(head.at, ops[1..], base + |head.wire|), s, r, ops, base);
      } else {
        RejectedIsIllegal(l, s, r, ops);
      }
    }
  }

  lemma {:induction false} EncodeCons(l: Label, ops: seq<Op>, base: nat, head: Emitted, slots: seq<Slot>)
    requires ops != [] && Accepts(l, ops[0], Lookahead(ops, 0))
    requires head == EmitOp(l, ops[0], Lookahead(ops, 0)) && slots == OpSlot(l, ops[0], base)
    ensures Encode(l, ops, base) == Prepend(head.wire, slots, Encode(head.at, ops[1..], base + |head.wire|))
  {}

  lemma {:induction false} RefinedNothing(l: Label, s: T.State, r: Rest, base: nat)
    requires Matches(l, s, r, None)
    ensures Refined(s, r, [], base, Some(Encoded([], [], l)))
  {}

  /** The induction step, for whatever was emitted for the first op. */
  lemma {:induction false} EncodeStep(head: Emitted, slots: seq<Slot>, tail: Option<Encoded>,
                                      s: T.State, r: Rest, ops: seq<Op>, base: nat)
    requires ops != [] && Legal(r, ops[0]) && Lowers(head, slots, s, r, ops[0], Lookahead(ops, 0), base)
    requires Refined(T.Walk(s, head.wire), After(r, ops[0]), ops[1..], base + |head.wire|, tail)
    ensures Refined(s, r, ops, base, Prepend(head.wire, slots, tail))
  {
    if tail.Some? {
      RealisesCons(head, slots, s, r, ops, base, tail.value);
    }
  }

  lemma {:induction false} RejectedIsIllegal(l: Label, s: T.State, r: Rest, ops: seq<Op>)
    requires ops != [] && Matches(l, s, r, First(ops)) && !Accepts(l, ops[0], Lookahead(ops, 0))
    ensures !AllLegal(r, ops)
  {
    if Legal(r, ops[0]) {
      assert After(r, ops[0]).AtIdle?;
      assert !Legal(AtIdle, ops[1..][0]);
    }
  }

  // ----- Any number of batches --------------------------------------------

  function Flatten(batches: seq<seq<Op>>): seq<Op> {
    if batches == [] then [] else batches[0] + Flatten(batches[1..])
  }

  /** The stream of a whole run: its events, its final rest, its payload TCKs. */
  ghost predicate RealisesRun(s: T.State, r: Rest, ops: seq<Op>, base: nat, e: Encoded) {
    && AllLegal(r, ops)
    && T.Trace(s, e.wire) == AllEvents(r, ops)
    && RestsAt(e.at, T.Walk(s, e.wire), AfterAll(r, ops))
    && T.ShiftPositions(s, e.wire, base) == SlotPositions(e.slots)
  }

  ghost predicate RefinedRun(s: T.State, r: Rest, ops: seq<Op>, base: nat, enc: Option<Encoded>) {
    && (enc.Some? <==> AllLegal(r, ops))
    && (enc.Some? ==> RealisesRun(s, r, ops, base, enc.value))
  }

  /** However a run of ops is cut into batches, the TAP goes through the
      events of the run: batch boundaries leave no trace. */
  lemma {:induction false} BatchesRefine(l: Label, s: T.State, r: Rest, batches: seq<seq<Op>>, base: nat)
    requires RestsAt(l, s, r) && forall b :: b in batches ==> NoStray(b)
    ensures RefinedRun(s, r, Flatten(batches), base, EncodeAll(l, batches, base))
    decreases |batches|
  {
    if batches == [] {
      RealisesNothing(l, s, r, base);
    } else {
      var head := Encode(l, batches[0], base);
      EncodeRefines(l, s, r, batches[0], base);
      var tail := None;
      if head.Some? {
        tail := EncodeAll(head.value.at, batches[1..], base + |head.value.wire|);
        BatchesRefine(head.value.at, T.Walk(s, head.value.wire), AfterAll(r, batches[0]), batches[1..], base + |head.value.wire|);
      }
      EncodeAllCons(l, batches, base, head, tail);
      BatchesStep(head, tail, EncodeAll(l, batches, base), s, r, batches[0], Flatten(batches[1..]), base);
    }
  }

  /** One batch more. */
  lemma {:induction false} EncodeAllCons(l: Label, batches: seq<seq<Op>>, base: nat, head: Option<Encoded>, tail: Option<Encoded>)
    requires batches != [] && head == Encode(l, batches[0], base)
    requires head.Some? ==> tail == EncodeAll(head.value.at, batches[1..], base + |head.value.wire|)
    ensures EncodeAll(l, batches, base) == if head.None? then None else Prepend(head.value.wire, head.value.slots, tail)
  {}

  lemma {:induction false} BatchesStep(head: Option<Encoded>, tail: Option<Encoded>, enc: Option<Encoded>,
                                       s: T.State, r: Rest, ops: seq<Op>, rest: seq<Op>, base: nat)
    requires NoStray(ops) && Refined(s, r, ops, base, head)
    requires head.Some? ==> RefinedRun(T.Walk(s, head.value.wire), AfterAll(r, ops), rest, base + |head.value.wire|, tail)
    requires enc == if head.None? then None else Prepend(head.value.wire, head.value.slots, tail)
    ensures RefinedRun(s, r, ops + rest, base, enc)
  {
    AllConcat(r, ops, rest);
    if enc.Some? {
      RealisesJoin(s, r, ops, rest, base, head.value, tail.value);
    }
  }

  lemma {:induction false} RealisesNothing(l: Label, s: T.State, r: Rest, base: nat)
    requires RestsAt(l, s, r)
    ensures RealisesRun(s, r, [], base, Encoded([], [], l))
  {}

  lemma {:induction false} RealisesJoin(s: T.State, r: Rest, ops: seq<Op>, rest: seq<Op>, base: nat, h: Encoded, t: Encoded)
    requires NoStray(ops) && Realises(s, r, ops, base, h)
    requires RealisesRun(T.Walk(s, h.wire), AfterAll(r, ops), rest, base + |h.wire|, t)
    ensures RealisesRun(s, r, ops + rest, base, Encoded(h.wire + t.wire, h.slots + t.slots, t.at))
  {
    AllConcat(r, ops, rest);
    T.WalkConcat(s, h.wire, t.wire);
    PositionsCons(s, h.wire, h.slots, t.wire, t.slots, base);
  }

  // ----- Empty Shifts ------------------------------------------------------

  /** Number of empty Shifts that are not followed by a Shift in their batch. */
  function Strays(ops: seq<Op>): nat {
    if ops == [] then 0
    else (if ops[0].Shift? && ops[0].tdi == [] && !IsShift(Lookahead(ops, 0)) then 1 else 0) + Strays(ops[1..])
  }

  lemma {:induction false} StrayLength(r: Rest, ops: seq<Op>)
    requires AllLegal(r, ops)
    ensures AllLegal(r, EffectiveOps(ops))
    ensures |AllEvents(r, EffectiveOps(ops))| == |AllEvents(r, ops)| + Strays(ops)
    ensures NoStray(ops) <==> Strays(ops) == 0
    decreases |ops|
  {
    if ops != [] {
      StrayLength(After(r, ops[0]), ops[1..]);
      StrayFirst(r, ops, EffectiveOps(ops), EffectiveOps(ops[1..]));
    }
  }

  lemma {:induction false} StrayFirst(r: Rest, ops: seq<Op>, all: seq<Op>, rest: seq<Op>)
    requires ops != [] && AllLegal(r, ops) && all == EffectiveOps(ops) && rest == EffectiveOps(ops[1..])
    requires AllLegal(After(r, ops[0]), rest)
    requires |AllEvents(After(r, ops[0]), rest)| == |AllEvents(After(r, ops[0]), ops[1..])| + Strays(ops[1..])
    requires NoStray(ops[1..]) <==> Strays(ops[1..]) == 0
    ensures AllLegal(r, all) && |AllEvents(r, all)| == |AllEvents(r, ops)| + Strays(ops)
    ensures NoStray(ops) <==> Strays(ops) == 0
  {
    var e := Effective(ops[0], Lookahead(ops, 0));
    EffectiveCons(ops);
    EffectiveAfter(r, ops[0], Lookahead(ops, 0));
    assert ops == [ops[0]] + ops[1..] && all == [e] + rest;
    StrayEvents(r, ops[0], Lookahead(ops, 0));
  }

  /** The zero a stray empty Shift clocks is one event more. */
  lemma {:induction false} StrayEvents(r: Rest, op: Op, next: Option<Op>)
    requires Legal(r, op)
    ensures var stray := op.Shift? && op.tdi == [] && !IsShift(next);
            && |Events(r, Effective(op, next))| == |Events(r, op)| + (if stray then 1 else 0)
            && (Effective(op, next) == op <==> !stray)
  {}

  /** The stream means what the batch means if and only if every empty Shift
      in it is followed by another Shift. */
  lemma {:induction false} MeaningKeptIffNoStray(l: Label, s: T.State, r: Rest, ops: seq<Op>)
    requires RestsAt(l, s, r) && AllLegal(r, ops)
    ensures Encode(l, ops, 0).Some?
    ensures T.Trace(s, Encode(l, ops, 0).value.wire) == AllEvents(r, ops) <==> Strays(ops) == 0
  {
    EncodeRefines(l, s, r, ops, 0);
    StrayLength(r, ops);
  }

  /** CaptureDr followed by an empty Shift clocks a zero into the register. */
  lemma {:induction false} EmptyShiftClocksAZero()
    ensures var ops := [CaptureDr, Shift([], 0)];
            && AllLegal(AtIdle, ops)
            && Encode(RTI, ops, 0).Some?
            && T.Trace(T.RunTestIdle, Encode(RTI, ops, 0).value.wire)
               == AllEvents(AtIdle, ops) + [T.Shifted(false, false)]
  {
    var ops := [CaptureDr, Shift([], 0)];
    assert ops[1..] == [Shift([], 0)] && ops[1..][1..] == [];
    EncodeRefines(RTI, T.RunTestIdle, AtIdle, ops, 0);
    assert EffectiveOps(ops) == [CaptureDr, Shift([false], 0)] by {
      EffectiveCons(ops);
      EffectiveCons(ops[1..]);
    }
    ZeroIsOneMore(ops, EffectiveOps(ops));
  }

  lemma {:induction false} ZeroIsOneMore(ops: seq<Op>, more: seq<Op>)
    requires ops == [CaptureDr, Shift([], 0)] && more == [CaptureDr, Shift([false], 0)]
    ensures AllEvents(AtIdle, more) == AllEvents(AtIdle, ops) + [T.Shifted(false, false)]
  {
    AllConcat(AtIdle, [CaptureDr], [Shift([false], 0)]);
    AllConcat(AtIdle, [CaptureDr], [Shift([], 0)]);
    assert ops == [CaptureDr] + [Shift([], 0)] && more == [CaptureDr] + [Shift([false], 0)];
    assert Shifts(false, [false]) == [T.Shifted(false, false)];
  }

  // ----- Slots --------------------------------------------------------------

  function TdiOf(w: seq<T.Tck>): (r: seq<bool>)
    ensures |r| == |w|
  {
    seq(|w|, i requires 0 <= i < |w| => w[i].tdi)
  }

  /** A slot points at its op's payload in the TDI stream. */
  ghost predicate Carries(wire: seq<T.Tck>, base: nat, slot: Slot) {
    && slot.op.Shift? && base <= slot.offset && slot.offset - base + |slot.op.tdi| <= |wire|
    && TdiOf(wire)[slot.offset - base..][..|slot.op.tdi|] == slot.op.tdi
  }

  /** The non-empty Shifts of a batch, in order. */
  function Payloads(ops: seq<Op>): seq<Op> {
    if ops == [] then []
    else (if ops[0].Shift? && ops[0].tdi != [] then [ops[0]] else []) + Payloads(ops[1..])
  }

  function SlotOps(slots: seq<Slot>): (r: seq<Op>)
    ensures |r| == |slots|
  {
    seq(|slots|, i requires 0 <= i < |slots| => slots[i].op)
  }

  lemma {:induction false} CarriesInContext(before: seq<T.Tck>, w: seq<T.Tck>, after: seq<T.Tck>, base: nat, slot: Slot)
    requires Carries(w, base + |before|, slot)
    ensures Carries(before + w + after, base, slot)
  {
    var whole := before + w + after;
    var from, n, k := slot.offset - base, |slot.op.tdi|, slot.offset - base - |before|;
    forall i | 0 <= i < n ensures TdiOf(whole)[from..][..n][i] == TdiOf(w)[k..][..n][i] {
      assert whole[from + i] == (before + w)[from + i] == w[k + i];
      assert TdiOf(whole)[from..][..n][i] == TdiOf(whole)[from + i] && TdiOf(w)[k..][..n][i] == TdiOf(w)[k + i];
    }
    assert TdiOf(whole)[from..][..n] == TdiOf(w)[k..][..n];
  }

  function ShiftTail(op: Op, next: Option<Op>): seq<T.Tck>
    requires op.Shift?
  {
    (if IsShift(next) then [] else Pattern([false]))
    + if op.postRun == 0 then [] else EmitRun(ShiftBody(op.tdi, next).at, op.postRun).wire
  }

  lemma {:induction false} ShiftShape(l: Label, op: Op, next: Option<Op>)
    requires op.Shift? && op.tdi != []
    ensures EmitShift(l, op, next).wire == ShiftEntry(l) + Payload(op.tdi, !IsShift(next)) + ShiftTail(op, next)
  {}

  lemma {:induction false} PayloadCarries(entry: seq<T.Tck>, op: Op, leave: bool, tail: seq<T.Tck>, base: nat)
    requires op.Shift?
    ensures Carries(entry + Payload(op.tdi, leave) + tail, base, Slot(op, base + |entry|))
  {
    var bits := Payload(op.tdi, leave);
    assert TdiOf(bits)[0..][..|op.tdi|] == op.tdi;
    CarriesInContext(entry, bits, tail, base, Slot(op, base + |entry|));
  }

  lemma {:induction false} OpSlotCarries(l: Label, op: Op, next: Option<Op>, base: nat)
    requires op.Shift? && op.tdi != []
    ensures Carries(EmitShift(l, op, next).wire, base, OpSlot(l, op, base)[0])
  {
    ShiftShape(l, op, next);
    PayloadCarries(ShiftEntry(l), op, !IsShift(next), ShiftTail(op, next), base);
  }

  /** There is one slot per non-empty Shift, in batch order, and each points
      at its payload. */
  lemma {:induction false} SlotsCarryPayloads(l: Label, ops: seq<Op>, base: nat)
    requires Encode(l, ops, base).Some?
    ensures var e := Encode(l, ops, base).value;
            && SlotOps(e.slots) == Payloads(ops)
            && forall i :: 0 <= i < |e.slots| ==> Carries(e.wire, base, e.slots[i])
    decreases |ops|
  {
    if ops != [] {
      var next := Lookahead(ops, 0);
      var head, slots := EmitOp(l, ops[0], next), OpSlot(l, ops[0], base);
      EncodeCons(l, ops, base, head, slots);
      FirstSlotCarries(l, ops[0], next, base, head.wire, slots);
      FirstSlotStep(head, slots, Encode(l, ops, base), ops, base);
    }
  }

  lemma {:induction false} FirstSlotCarries(l: Label, op: Op, next: Option<Op>, base: nat, wire: seq<T.Tck>, slots: seq<Slot>)
    requires wire == EmitOp(l, op, next).wire && slots == OpSlot(l, op, base)
    ensures SlotOps(slots) == if op.Shift? && op.tdi != [] then [op] else []
    ensures forall i :: 0 <= i < |slots| ==> Carries(wire, base, slots[i])
  {
    if op.Shift? && op.tdi != [] {
      OpSlotCarries(l, op, next, base);
    }
  }

  lemma {:induction false} FirstSlotStep(head: Emitted, slots: seq<Slot>, enc: Option<Encoded>, ops: seq<Op>, base: nat)
    requires ops != [] && enc.Some?
    requires SlotOps(slots) == if ops[0].Shift? && ops[0].tdi != [] then [ops[0]] else []
    requires forall i :: 0 <= i < |slots| ==> Carries(head.wire, base, slots[i])
    requires enc == Prepend(head.wire, slots, Encode(head.at, ops[1..], base + |head.wire|))
    ensures SlotOps(enc.value.slots) == Payloads(ops)
    ensures forall i :: 0 <= i < |enc.value.slots| ==> Carries(enc.value.wire, base, enc.value.slots[i])
    decreases |ops|, 0
  {
    SlotsCarryPayloads(head.at, ops[1..], base + |head.wire|);
    SlotsStep(head.wire, slots, Encode(head.at, ops[1..], base + |head.wire|).value, base);
  }

  lemma {:induction false} SlotsStep(head: seq<T.Tck>, slots: seq<Slot>, tail: Encoded, base: nat)
    requires forall i :: 0 <= i < |slots| ==> Carries(head, base, slots[i])
    requires forall i :: 0 <= i < |tail.slots| ==> Carries(tail.wire, base + |head|, tail.slots[i])
    ensures var all := slots + tail.slots;
            && SlotOps(all) == SlotOps(slots) + SlotOps(tail.slots)
            && forall i :: 0 <= i < |all| ==> Carries(head + tail.wire, base, all[i])
  {
    var all := slots + tail.slots;
    forall i | 0 <= i < |all|
      ensures Carries(head + tail.wire, base, all[i])
    {
      if i < |slots| {
        CarriesInContext([], head, tail.wire, base, all[i]);
        assert [] + head + tail.wire == head + tail.wire;
      } else {
        CarriesInContext(head, tail.wire, [], base, all[i]);
        assert head + tail.wire + [] == head + tail.wire;
      }
    }
  }

  lemma {:induction false} PayloadsConcat(a: seq<Op>, b: seq<Op>)
    ensures Payloads(a + b) == Payloads(a) + Payloads(b)
  {
    if a == [] {
      assert a + b == b;
    } else {
      assert (a + b)[1..] == a[1..] + b;
      PayloadsConcat(a[1..], b);
    }
  }

  /** The same over any number of batches. */
  lemma {:induction false} BatchSlotsCarryPayloads(l: Label, batches: seq<seq<Op>>, base: nat)
    requires EncodeAll(l, batches, base).Some?
    ensures var e := EncodeAll(l, batches, base).value;
            && SlotOps(e.slots) == Payloads(Flatten(batches))
            && forall i :: 0 <= i < |e.slots| ==> Carries(e.wire, base, e.slots[i])
    decreases |batches|
  {
    if batches != [] {
      var head := Encode(l, batches[0], base).value;
      var tail := EncodeAll(head.at, batches[1..], base + |head.wire|);
      EncodeAllCons(l, batches, base, Some(head), tail);
      SlotsCarryPayloads(l, batches[0], base);
      BatchSlotsCarryPayloads(head.at, batches[1..], base + |head.wire|);
      PayloadsConcat(batches[0], Flatten(batches[1..]));
      SlotsStep(head.wire, head.slots, tail.value, base);
    }
  }
}
