/** Compilation of per-TAP ops into whole-chain scans, and the chain hardware
    they run on. */
module ChainCompiler {
  import opened BitSequences
  import opened Wrappers
  import opened ScanChain
  import J = JtagOps

  // ----- Ops and their compilation ------------------------------------------------

  /** Ops on one TAP. Instructions are given at the TAP's own IR length. */
  datatype TapOp =
    | TapShift(ir: Option<Bits>, tdi: Option<Bits>, readTdo: bool, preRun: nat, postRun: nat)
    | TapRun(cycles: nat)
    | TapIrStatus

  /** Padding of one TAP in the chain. */
  datatype Geometry = Geometry(irPre: nat, irPost: nat, drPre: nat, drPost: nat, irlen: nat)

  /** How the op's future is resolved: with None, or with part of the TDO of
      the last Shift posted for it. */
  datatype Reading = Nothing | Slice(offset: nat, length: nat)

  datatype Compiled = Compiled(ops: seq<J.Op>, loads: Option<Bits>, reading: Reading)

  /** `__pad_with`: the common single-TAP case returns the data unchanged. */
  function PadWith(pad: nat -> Bits, pre: nat, data: Bits, post: nat): Bits {
    if pre > 0 && post > 0 then pad(pre) + data + pad(post)
    else if pre > 0 then pad(pre) + data
    else if post > 0 then data + pad(post)
    else data
  }

  function IrScan(g: Geometry, v: Bits): seq<J.Op> {
    [J.CaptureIr, J.Shift(PadWith(Ones, g.irPre, v, g.irPost), 0)]
  }

  function Runs(n: nat): seq<J.Op> { if n > 0 then [J.Run(n)] else [] }

  function DrScan(g: Geometry, d: Bits, postRun: nat): seq<J.Op> {
    [J.CaptureDr, J.Shift(PadWith(Zeros, g.drPre, d, g.drPost), postRun)]
  }

  /** One TapOp: `loads` is the instruction shifted into the target, if any;
      the IR scan is elided when the cache says the target already holds it. */
  function Compile(g: Geometry, currentIr: Option<Bits>, op: TapOp): Compiled {
    match op
    case TapIrStatus =>
      Compiled(IrScan(g, Ones(g.irlen)), Some(Ones(g.irlen)), Slice(g.irPre, g.irlen))
    case TapRun(n) =>
      Compiled([J.Run(n)], None, Nothing)
    case TapShift(ir, tdi, readTdo, preRun, postRun) =>
      var scan := ir.Some? && ir != currentIr;
      var irOps := if scan then IrScan(g, ir.value) else [];
      var drOps := if tdi.Some? then DrScan(g, tdi.value, postRun) else Runs(postRun);
      Compiled(irOps + Runs(preRun) + drOps,
               if scan then ir else None,
               if tdi.Some? && readTdo then Slice(g.drPre, |tdi.value|) else Nothing)
  }

  // ----- Hardware -------------------------------------------------------------------

  /** Behaviour behind the TAPs: the DR captured under an instruction, what
      updating it does, the status captured into the IR, and the effect of
      idle cycles. One table serves all TAPs, since a state can carry the
      identity of its TAP. */
  datatype Behaviour<!S> = Behaviour(capture: (S, Bits) -> Bits, update: (S, Bits, Bits) -> S,
                                     status: (S, nat) -> Bits, idle: (S, Bits, nat) -> S)

  datatype TapHw<S> = TapHw(ir: Bits, state: S)

  /** The register the chain is scanning, if any, nearest to TDO first. */
  datatype Register = Closed | InIr(bits: Bits) | InDr(bits: Bits)

  datatype Hw<S> = Hw(taps: seq<TapHw<S>>, reg: Register)

  /** All-ones selects BYPASS: one bit, captured low, updating nothing. The
      status captured into an IR fills it. */
  ghost predicate Lawful<S(!new)>(b: Behaviour<S>) {
    && (forall s: S, n: nat :: b.capture(s, Ones(n)) == [false])
    && (forall s: S, n: nat, x: Bits :: b.update(s, Ones(n), x) == s)
    && (forall s: S, n: nat :: |b.status(s, n)| == n)
  }

  function DrOf<S>(b: Behaviour<S>, t: TapHw<S>): Bits { b.capture(t.state, t.ir) }

  function IrBits<S>(taps: seq<TapHw<S>>): nat {
    if taps == [] then 0 else |taps[0].ir| + IrBits(taps[1..])
  }

  function Statuses<S>(b: Behaviour<S>, taps: seq<TapHw<S>>): Bits {
    if taps == [] then [] else b.status(taps[0].state, |taps[0].ir|) + Statuses(b, taps[1..])
  }

  function Drs<S>(b: Behaviour<S>, taps: seq<TapHw<S>>): Bits {
    if taps == [] then [] else DrOf(b, taps[0]) + Drs(b, taps[1..])
  }

  /** Update-IR: every TAP takes its stretch of the register. */
  function LoadIrs<S>(taps: seq<TapHw<S>>, bits: Bits): (r: seq<TapHw<S>>)
    ensures |r| == |taps|
  {
    if taps == [] then []
    else if |bits| < |taps[0].ir| then taps
    else [taps[0].(ir := bits[..|taps[0].ir|])] + LoadIrs(taps[1..], bits[|taps[0].ir|..])
  }

  function LoadDrs<S>(b: Behaviour<S>, taps: seq<TapHw<S>>, bits: Bits): (r: seq<TapHw<S>>)
    ensures |r| == |taps|
  {
    if taps == [] then []
    else
      var n := |DrOf(b, taps[0])|;
      if |bits| < n then taps
      else [taps[0].(state := b.update(taps[0].state, taps[0].ir, bits[..n]))] + LoadDrs(b, taps[1..], bits[n..])
  }

  /** Leaving the scan column. */
  function Commit<S>(b: Behaviour<S>, h: Hw<S>): Hw<S> {
    match h.reg
    case Closed => h
    case InIr(bits) => Hw(LoadIrs(h.taps, bits), Closed)
    case InDr(bits) => Hw(LoadDrs(b, h.taps, bits), Closed)
  }

  function Idled<S>(b: Behaviour<S>, taps: seq<TapHw<S>>, n: nat): (r: seq<TapHw<S>>)
    ensures |r| == |taps|
  {
    if n == 0 then taps
    else seq(|taps|, i requires 0 <= i < |taps| => taps[i].(state := b.idle(taps[i].state, taps[i].ir, n)))
  }

  function RunHw<S>(b: Behaviour<S>, h: Hw<S>, n: nat): Hw<S> {
    Hw(Idled(b, Commit(b, h).taps, n), Closed)
  }

  datatype Shown<S> = Shown(hw: Hw<S>, tdo: Bits)

  /** One bit-level op on the chain, with the TDO of the last Shift so far. */
  function ExecOne<S>(b: Behaviour<S>, x: Shown<S>, op: J.Op): Shown<S> {
    match op
    case CaptureIr =>
      var c := Commit(b, x.hw);
      x.(hw := Hw(c.taps, InIr(Statuses(b, c.taps))))
    case CaptureDr =>
      var c := Commit(b, x.hw);
      x.(hw := Hw(c.taps, InDr(Drs(b, c.taps))))
    case Run(n) => x.(hw := RunHw(b, x.hw, n))
    case Shift(tdi, n) =>
      if x.hw.reg.Closed? then x
      else
        var bits := x.hw.reg.bits;
        var h := x.hw.(reg := x.hw.reg.(bits := ShiftIn(bits, tdi)));
        Shown(if n == 0 then h else RunHw(b, h, n), ShiftOut(bits, tdi))
    case _ => x
  }

  function Exec<S>(b: Behaviour<S>, x: Shown<S>, ops: seq<J.Op>): Shown<S>
    decreases |ops|
  {
    if ops == [] then x else Exec(b, ExecOne(b, x, ops[0]), ops[1..])
  }

  lemma {:induction false} ExecConcat<S>(b: Behaviour<S>, x: Shown<S>, p: seq<J.Op>, q: seq<J.Op>)
    ensures Exec(b, x, p + q) == Exec(b, Exec(b, x, p), q)
    decreases |p|
  {
    if p == [] {
      assert p + q == q;
    } else {
      assert (p + q)[0] == p[0] && (p + q)[1..] == p[1..] + q;
      ExecConcat(b, ExecOne(b, x, p[0]), p[1..], q);
    }
  }
}
