/** The chain hardware as the TAP controllers see it, event by event: the ops a
    chain posts do on the wire what they do as ops. */
module ChainWire {
  import opened BitSequences
  import opened Wrappers
  import opened ScanChain
  import opened ChainGeometry
  import opened ChainWiring
  import T = TapController
  import J = JtagOps
  import E = JtagOpEncoder
  import F = EncoderRefinement
  import C = ChainCompiler

  // ----- Events on the hardware ------------------------------------------------------------

  /** One event: idle cycles tick, Capture loads the scan register, a Shift TCK
      moves it by one bit, Update commits it. The chain posts no reset. */
  function OnEvent<S>(b: C.Behaviour<S>, h: C.Hw<S>, e: T.Event): C.Hw<S> {
    match e
    case Reset => h
    case Idle => h.(taps := C.Idled(b, h.taps, 1))
    case Captured(ir) => h.(reg := if ir then C.InIr(C.Statuses(b, h.taps)) else C.InDr(C.Drs(b, h.taps)))
    case Shifted(_, tdi) => if h.reg.Closed? then h else h.(reg := h.reg.(bits := ShiftIn(h.reg.bits, [tdi])))
    case Updated(_) => C.Commit(b, h)
  }

  function Follow<S>(b: C.Behaviour<S>, h: C.Hw<S>, ev: seq<T.Event>): C.Hw<S>
    decreases |ev|
  {
    if ev == [] then h else Follow(b, OnEvent(b, h, ev[0]), ev[1..])
  }

  /** The bit that leaves through TDO on a Shift TCK. */
  function Out<S>(h: C.Hw<S>, e: T.Event): Bits {
    if e.Shifted? && !h.reg.Closed? then ShiftOut(h.reg.bits, [e.tdi]) else []
  }

  function TdoOf<S>(b: C.Behaviour<S>, h: C.Hw<S>, ev: seq<T.Event>): Bits
    decreases |ev|
  {
    if ev == [] then [] else Out(h, ev[0]) + TdoOf(b, OnEvent(b, h, ev[0]), ev[1..])
  }

  lemma {:induction false} FollowConcat<S>(b: C.Behaviour<S>, h: C.Hw<S>, p: seq<T.Event>, q: seq<T.Event>)
    ensures Follow(b, h, p + q) == Follow(b, Follow(b, h, p), q)
    ensures TdoOf(b, h, p + q) == TdoOf(b, h, p) + TdoOf(b, Follow(b, h, p), q)
    decreases |p|
  {
    if p == [] {
      assert p + q == q;
    } else {
      assert (p + q)[0] == p[0] && (p + q)[1..] == p[1..] + q;
      FollowConcat(b, OnEvent(b, h, p[0]), p[1..], q);
    }
  }

  lemma {:induction false} FollowOne<S>(b: C.Behaviour<S>, h: C.Hw<S>, e: T.Event)
    ensures Follow(b, h, [e]) == OnEvent(b, h, e) && TdoOf(b, h, [e]) == Out(h, e)
  {
    assert [e][1..] == [];
  }

  /** Idle cycles add up. */
  ghost predicate Ticks<S(!new)>(b: C.Behaviour<S>) {
    forall s: S, ir: Bits, n: nat {:trigger b.idle(b.idle(s, ir, 1), ir, n)} ::
      n > 0 ==> b.idle(s, ir, n + 1) == b.idle(b.idle(s, ir, 1), ir, n)
  }

  lemma {:induction false} IdledOnce<S(!new)>(b: C.Behaviour<S>, taps: seq<C.TapHw<S>>, n: nat)
    requires Ticks(b)
    ensures C.Idled(b, C.Idled(b, taps, 1), n) == C.Idled(b, taps, n + 1)
  {
    if n > 0 {
      var once := C.Idled(b, taps, 1);
      forall i | 0 <= i < |taps| ensures C.Idled(b, once, n)[i] == C.Idled(b, taps, n + 1)[i] {
        assert once[i] == taps[i].(state := b.idle(taps[i].state, taps[i].ir, 1));
        assert b.idle(b.idle(taps[i].state, taps[i].ir, 1), taps[i].ir, n) == b.idle(taps[i].state, taps[i].ir, n + 1);
      }
    }
  }

  lemma {:induction false} FollowIdles<S(!new)>(b: C.Behaviour<S>, h: C.Hw<S>, n: nat)
    requires Ticks(b)
    ensures Follow(b, h, T.Idles(n)) == h.(taps := C.Idled(b, h.taps, n)) && TdoOf(b, h, T.Idles(n)) == []
    decreases n
  {
    if n > 0 {
      assert T.Idles(n)[1..] == T.Idles(n - 1);
      FollowIdles(b, OnEvent(b, h, T.Idle), n - 1);
      IdledOnce(b, h.taps, n - 1);
    }
  }

  lemma {:induction false} ShiftTwice(reg: Bits, d: bool, rest: Bits)
    ensures ShiftIn(ShiftIn(reg, [d]), rest) == ShiftIn(reg, [d] + rest)
    ensures ShiftOut(reg, [d]) + ShiftOut(ShiftIn(reg, [d]), rest) == ShiftOut(reg, [d] + rest)
  {
    var all := reg + ([d] + rest);
    assert reg + [d] + rest == all;
    assert ShiftIn(reg, [d]) + rest == all[1..];
    assert ShiftOut(reg, [d]) == all[..1];
  }

  lemma {:induction false} FollowShifts<S>(b: C.Behaviour<S>, h: C.Hw<S>, ir: bool, tdi: Bits)
    requires !h.reg.Closed?
    ensures Follow(b, h, J.Shifts(ir, tdi)) == h.(reg := h.reg.(bits := ShiftIn(h.reg.bits, tdi)))
    ensures TdoOf(b, h, J.Shifts(ir, tdi)) == ShiftOut(h.reg.bits, tdi)
    decreases |tdi|
  {
    if tdi == [] {
      assert ShiftIn(h.reg.bits, []) == h.reg.bits && ShiftOut(h.reg.bits, []) == [];
    } else {
      assert J.Shifts(ir, tdi)[1..] == J.Shifts(ir, tdi[1..]);
      assert [tdi[0]] + tdi[1..] == tdi;
      FollowShifts(b, OnEvent(b, h, T.Shifted(ir, tdi[0])), ir, tdi[1..]);
      ShiftTwice(h.reg.bits, tdi[0], tdi[1..]);
    }
  }

  // ----- Ops ------------------------------------------------------------------------------------

  /** Where the scan register says the TAPs are. */
  function RestOf<S>(h: C.Hw<S>): J.Rest {
    match h.reg case Closed => J.AtIdle case InIr(_) => J.Open(true) case InDr(_) => J.Open(false)
  }

  predicate Resetting(op: J.Op) { op.Reset? || op.SwdToJtag? }

  /** The TDO of a Shift, nothing for other ops. */
  function OpTdo<S>(b: C.Behaviour<S>, x: C.Shown<S>, op: J.Op): Bits {
    if op.Shift? then C.ExecOne(b, x, op).tdo else []
  }

  lemma {:induction false} FollowLeave<S>(b: C.Behaviour<S>, h: C.Hw<S>)
    ensures Follow(b, h, J.Leave(RestOf(h))) == C.Commit(b, h) && TdoOf(b, h, J.Leave(RestOf(h))) == []
  {
    if !h.reg.Closed? {
      FollowOne(b, h, T.Updated(RestOf(h).ir));
    }
  }

  lemma {:induction false} FollowRun<S(!new)>(b: C.Behaviour<S>, h: C.Hw<S>, n: nat)
    requires Ticks(b)
    ensures Follow(b, h, J.Leave(RestOf(h)) + T.Idles(n)) == C.RunHw(b, h, n)
    ensures TdoOf(b, h, J.Leave(RestOf(h)) + T.Idles(n)) == []
  {
    FollowLeave(b, h);
    FollowConcat(b, h, J.Leave(RestOf(h)), T.Idles(n));
    FollowIdles(b, C.Commit(b, h), n);
  }

  lemma {:induction false} FollowCapture<S>(b: C.Behaviour<S>, h: C.Hw<S>, ir: bool)
    ensures var ev := J.Leave(RestOf(h)) + [T.Captured(ir)];
            Follow(b, h, ev) == OnEvent(b, C.Commit(b, h), T.Captured(ir)) && TdoOf(b, h, ev) == []
  {
    FollowLeave(b, h);
    FollowConcat(b, h, J.Leave(RestOf(h)), [T.Captured(ir)]);
    FollowOne(b, C.Commit(b, h), T.Captured(ir));
  }

  lemma {:induction false} FollowShift<S(!new)>(b: C.Behaviour<S>, x: C.Shown<S>, op: J.Op)
    requires Ticks(b) && op.Shift? && !x.hw.reg.Closed?
    ensures var r := RestOf(x.hw);
            Follow(b, x.hw, J.Events(r, op)) == C.ExecOne(b, x, op).hw
            && TdoOf(b, x.hw, J.Events(r, op)) == C.ExecOne(b, x, op).tdo
  {
    var r := RestOf(x.hw);
    var shifts := J.Shifts(r.ir, op.tdi);
    var h := x.hw.(reg := x.hw.reg.(bits := ShiftIn(x.hw.reg.bits, op.tdi)));
    FollowShifts(b, x.hw, r.ir, op.tdi);
    if op.postRun == 0 {
      assert J.Events(r, op) == shifts;
    } else {
      FollowRun(b, h, op.postRun);
      assert J.Events(r, op) == shifts + (J.Leave(r) + T.Idles(op.postRun));
      FollowConcat(b, x.hw, shifts, J.Leave(r) + T.Idles(op.postRun));
    }
  }

  /** One op of the chain, seen as events. */
  lemma {:induction false} OpFollows<S(!new)>(b: C.Behaviour<S>, x: C.Shown<S>, op: J.Op)
    requires Ticks(b) && !Resetting(op) && J.Legal(RestOf(x.hw), op)
    ensures Follow(b, x.hw, J.Events(RestOf(x.hw), op)) == C.ExecOne(b, x, op).hw
    ensures TdoOf(b, x.hw, J.Events(RestOf(x.hw), op)) == OpTdo(b, x, op)
    ensures RestOf(C.ExecOne(b, x, op).hw) == J.After(RestOf(x.hw), op)
  {
    match op
    case Run(n) => FollowRun(b, x.hw, n);
    case CaptureDr => FollowCapture(b, x.hw, false); assert J.Leave(RestOf(x.hw)) + [] == J.Leave(RestOf(x.hw));
    case CaptureIr => FollowCapture(b, x.hw, true); assert J.Leave(RestOf(x.hw)) + [] == J.Leave(RestOf(x.hw));
    case Shift(_, _) => FollowShift(b, x, op);
  }

  /** The TDO of all Shifts of a run, end to end. */
  function ShiftTdos<S>(b: C.Behaviour<S>, x: C.Shown<S>, ops: seq<J.Op>): Bits
    decreases |ops|
  {
    if ops == [] then [] else OpTdo(b, x, ops[0]) + ShiftTdos(b, C.ExecOne(b, x, ops[0]), ops[1..])
  }

  predicate ChainOnly(ops: seq<J.Op>) { forall i :: 0 <= i < |ops| ==> !Resetting(ops[i]) }

  /** Running ops on the chain is following their events. */
  lemma {:induction false} ExecFollows<S(!new)>(b: C.Behaviour<S>, x: C.Shown<S>, ops: seq<J.Op>)
    requires Ticks(b) && ChainOnly(ops) && J.AllLegal(RestOf(x.hw), ops)
    ensures Follow(b, x.hw, J.AllEvents(RestOf(x.hw), ops)) == C.Exec(b, x, ops).hw
    ensures TdoOf(b, x.hw, J.AllEvents(RestOf(x.hw), ops)) == ShiftTdos(b, x, ops)
    ensures RestOf(C.Exec(b, x, ops).hw) == J.AfterAll(RestOf(x.hw), ops)
    decreases |ops|
  {
    if ops != [] {
      var y := C.ExecOne(b, x, ops[0]);
      OpFollows(b, x, ops[0]);
      ExecFollows(b, y, ops[1..]);
      FollowConcat(b, x.hw, J.Events(RestOf(x.hw), ops[0]), J.AllEvents(RestOf(y.hw), ops[1..]));
    }
  }

  // ----- The wire -----------------------------------------------------------------------------------

  predicate NoEmptyShift(ops: seq<J.Op>) { forall i :: 0 <= i < |ops| ==> ops[i].Shift? ==> ops[i].tdi != [] }

  lemma {:induction false} FullShiftsAreNoStrays(ops: seq<J.Op>)
    requires NoEmptyShift(ops)
    ensures F.NoStray(ops)
    decreases |ops|
  {
    if ops != [] {
      FullShiftsAreNoStrays(ops[1..]);
      assert ops == [ops[0]] + ops[1..];
    }
  }

  /** Lowered by the encoder and clocked out, ops do on the chain what they do
      as ops, and every Shift TCK drives the bit its Shift reads. */
  lemma {:induction false} WireExecutes<S(!new)>(b: C.Behaviour<S>, x: C.Shown<S>, l: E.Label, s: T.State, ops: seq<J.Op>)
    requires Ticks(b) && ChainOnly(ops) && NoEmptyShift(ops) && F.RestsAt(l, s, RestOf(x.hw))
    requires J.AllLegal(RestOf(x.hw), ops)
    ensures E.Encode(l, ops, 0).Some?
    ensures var wire := E.Encode(l, ops, 0).value.wire;
            && Follow(b, x.hw, T.Trace(s, wire)) == C.Exec(b, x, ops).hw
            && TdoOf(b, x.hw, T.Trace(s, wire)) == ShiftTdos(b, x, ops)
            && F.RestsAt(E.Encode(l, ops, 0).value.at, T.Walk(s, wire), RestOf(C.Exec(b, x, ops).hw))
  {
    F.EncodeRefines(l, s, RestOf(x.hw), ops, 0);
    FullShiftsAreNoStrays(ops);
    ExecFollows(b, x, ops);
  }

  // ----- A batch on the wire ----------------------------------------------------------------------------

  /** Ops a chain may be asked to post between two resets: legal from any rest
      but reset, and without empty Shifts. */
  ghost predicate Sendable(ops: seq<J.Op>) {
    ChainOnly(ops) && NoEmptyShift(ops) && forall r: J.Rest :: !r.AtReset? ==> J.AllLegal(r, ops) && !J.AfterAll(r, ops).AtReset?
  }

  lemma {:induction false} SendableConcat(a: seq<J.Op>, b: seq<J.Op>)
    requires Sendable(a) && Sendable(b)
    ensures Sendable(a + b)
  {
    forall r: J.Rest | !r.AtReset? ensures J.AllLegal(r, a + b) && !J.AfterAll(r, a + b).AtReset? {
      J.AllConcat(r, a, b);
    }
  }

  lemma {:induction false} ScanSendable(capture: J.Op, tdi: Bits, n: nat)
    requires J.IsCapture(capture) && tdi != []
    ensures Sendable([capture, J.Shift(tdi, n)])
  {
    var ops := [capture, J.Shift(tdi, n)];
    var rest := ops[1..];
    assert rest == [J.Shift(tdi, n)] && rest[1..] == [];
    forall r: J.Rest | !r.AtReset? ensures J.AllLegal(r, ops) && !J.AfterAll(r, ops).AtReset? {
      var m := J.After(r, capture);
      assert m.Open? && J.Legal(m, rest[0]);
      assert J.AllLegal(J.After(m, rest[0]), rest[1..]) && J.AfterAll(J.After(m, rest[0]), rest[1..]) == J.After(m, rest[0]);
      assert J.AllLegal(m, rest) && J.AfterAll(m, rest) == J.After(m, rest[0]);
    }
  }

  lemma {:induction false} RunsSendable(n: nat)
    ensures Sendable(C.Runs(n)) && Sendable([J.Run(n)])
  {
    assert [J.Run(n)][1..] == [];
  }

  /** No empty instruction and no empty payload. */
  predicate Full(op: C.TapOp) {
    op.TapShift? ==> (op.ir.Some? ==> op.ir.value != []) && (op.tdi.Some? ==> op.tdi.value != [])
  }

  lemma {:induction false} CompiledSendable(g: C.Geometry, currentIr: Option<Bits>, op: C.TapOp)
    requires Full(op) && g.irlen > 0
    ensures Sendable(C.Compile(g, currentIr, op).ops)
  {
    match op
    case TapIrStatus => ScanSendable(J.CaptureIr, C.PadWith(Ones, g.irPre, Ones(g.irlen), g.irPost), 0);
    case TapRun(n) => RunsSendable(n);
    case TapShift(ir, tdi, _, preRun, postRun) =>
      var scan := ir.Some? && ir != currentIr;
      var irOps := if scan then C.IrScan(g, ir.value) else [];
      var drOps := if tdi.Some? then C.DrScan(g, tdi.value, postRun) else C.Runs(postRun);
      if scan { ScanSendable(J.CaptureIr, C.PadWith(Ones, g.irPre, ir.value, g.irPost), 0); }
      if tdi.Some? { ScanSendable(J.CaptureDr, C.PadWith(Zeros, g.drPre, tdi.value, g.drPost), postRun); }
      RunsSendable(preRun);
      RunsSendable(postRun);
      SendableConcat(irOps, C.Runs(preRun));
      SendableConcat(irOps + C.Runs(preRun), drOps);
  }

  lemma {:induction false} FlushSendable(cs: Contexts, batch: seq<Posted>)
    requires Measured(cs) && (forall t :: t in cs ==> t.irlen > 0) && forall i :: 0 <= i < |batch| ==> Full(batch[i].op)
    ensures Sendable(FlushAll(cs, batch).posted)
    decreases |batch|
  {
    if batch != [] {
      var t := batch[0].tap;
      var first := FlushOne(cs, t, batch[0].op);
      if t in cs && cs[t].enabled {
        CompiledSendable(GeometryOf(t, cs[t]), cs[t].currentIr, batch[0].op);
      }
      FlushSendable(first.contexts, batch[1..]);
      SendableConcat(first.posted, FlushAll(first.contexts, batch[1..]).posted);
    }
  }
}
