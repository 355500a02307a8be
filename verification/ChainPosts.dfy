/** The bits a chain posts for an op, one by one. */
module ChainPosts {
  import opened BitSequences
  import opened Wrappers
  import opened ChainCompiler
  import J = JtagOps

  /** A register scan: `own` from bit `pre` on and `fill` around it. */
  predicate Fills(tdi: Bits, pre: nat, own: Bits, post: nat, fill: bool) {
    && |tdi| == pre + |own| + post
    && (forall i :: 0 <= i < |own| ==> tdi[pre + i] == own[i])
    && (forall i :: 0 <= i < |tdi| ==> i < pre || pre + |own| <= i ==> tdi[i] == fill)
  }

  lemma {:induction false} PadFills(pad: nat -> Bits, fill: bool, pre: nat, own: Bits, post: nat)
    requires forall n :: |pad(n)| == n && forall i :: 0 <= i < n ==> pad(n)[i] == fill
    ensures Fills(PadWith(pad, pre, own, post), pre, own, post, fill)
  {}

  /** An instruction scan: BYPASS everywhere else. */
  predicate PostsIr(ops: seq<J.Op>, g: Geometry, ir: Bits) {
    |ops| == 2 && ops[0] == J.CaptureIr && ops[1].Shift? && Fills(ops[1].tdi, g.irPre, ir, g.irPost, true) && ops[1].postRun == 0
  }

  /** A data scan: zeros through the other TAPs. */
  predicate PostsDr(ops: seq<J.Op>, g: Geometry, dr: Bits, postRun: nat) {
    |ops| == 2 && ops[0] == J.CaptureDr && ops[1].Shift? && Fills(ops[1].tdi, g.drPre, dr, g.drPost, false)
    && ops[1].postRun == postRun
  }

  predicate PostsRun(ops: seq<J.Op>, cycles: nat) {
    if cycles == 0 then ops == [] else ops == [J.Run(cycles)]
  }

  /** A Shift posts its instruction when it names one that is not cached, then its
      idle cycles, then its data, or the later idle cycles alone. */
  lemma {:induction false} ShiftPosts(g: Geometry, cached: Option<Bits>, op: TapOp) returns (a: nat, b: nat)
    requires op.TapShift?
    ensures var ops := Compile(g, cached, op).ops;
            && a <= b <= |ops|
            && (if op.ir.Some? && op.ir != cached then PostsIr(ops[..a], g, op.ir.value) else a == 0)
            && PostsRun(ops[a..b], op.preRun)
            && (if op.tdi.Some? then PostsDr(ops[b..], g, op.tdi.value, op.postRun) else PostsRun(ops[b..], op.postRun))
  {
    var scan := op.ir.Some? && op.ir != cached;
    var irOps := if scan then IrScan(g, op.ir.value) else [];
    var drOps := if op.tdi.Some? then DrScan(g, op.tdi.value, op.postRun) else Runs(op.postRun);
    var ops := Compile(g, cached, op).ops;
    a, b := |irOps|, |irOps| + |Runs(op.preRun)|;
    assert ops == irOps + Runs(op.preRun) + drOps;
    assert ops[..a] == irOps && ops[a..b] == Runs(op.preRun) && ops[b..] == drOps;
    if scan { IrPosts(g, op.ir.value); }
    if op.tdi.Some? { DrPosts(g, op.tdi.value, op.postRun); }
  }

  lemma {:induction false} IrPosts(g: Geometry, v: Bits)
    ensures PostsIr(IrScan(g, v), g, v)
  {
    PadFills(Ones, true, g.irPre, v, g.irPost);
  }

  lemma {:induction false} DrPosts(g: Geometry, d: Bits, postRun: nat)
    ensures PostsDr(DrScan(g, d, postRun), g, d, postRun)
  {
    PadFills(Zeros, false, g.drPre, d, g.drPost);
  }

  /** Reading the status loads BYPASS and reads the TAP's own place; a Run is one. */
  lemma {:induction false} OthersPost(g: Geometry, cached: Option<Bits>, op: TapOp)
    requires !op.TapShift?
    ensures op.TapRun? ==> Compile(g, cached, op) == Compiled([J.Run(op.cycles)], None, Nothing)
    ensures op.TapIrStatus? ==> var c := Compile(g, cached, op);
            PostsIr(c.ops, g, Ones(g.irlen)) && c.loads == Some(Ones(g.irlen)) && c.reading == Slice(g.irPre, g.irlen)
  {
    IrPosts(g, Ones(g.irlen));
  }
}
