/** Chain compilation preserves meaning: a run of any TapOps through the compiled
    whole-chain scans, with IR scans elided by the cache, does to every TAP what
    the ops mean one after the other. */
module ChainRefinement {
  import opened BitSequences
  import opened Wrappers
  import opened ScanChain
  import opened ChainCompiler
  import J = JtagOps

  type Cache = seq<Option<Bits>>

  // ----- One TAP at a time: the reference -------------------------------------------

  function Bypassed<S>(t: TapHw<S>): TapHw<S> { t.(ir := Ones(|t.ir|)) }

  /** TAP `k` holds `v`, all others BYPASS. */
  function Select<S>(taps: seq<TapHw<S>>, k: nat, v: Bits): (r: seq<TapHw<S>>)
    ensures |r| == |taps|
  {
    seq(|taps|, i requires 0 <= i < |taps| => if i == k then taps[i].(ir := v) else Bypassed(taps[i]))
  }

  function BypassAll<S>(taps: seq<TapHw<S>>): (r: seq<TapHw<S>>)
    ensures |r| == |taps|
  {
    seq(|taps|, i requires 0 <= i < |taps| => Bypassed(taps[i]))
  }

  /** The TAPs a TapShift finds for its DR scan: its instruction selected on TAP
      `k`, or everything as it is without one. A BYPASS scan is taken for done
      when it is cached. */
  function Selected<S>(taps: seq<TapHw<S>>, cache: Cache, k: nat, ir: Option<Bits>): (r: seq<TapHw<S>>)
    requires k < |taps| == |cache|
    ensures |r| == |taps|
  {
    if ir.None? || (ir.value == Ones(|taps[k].ir|) && ir == cache[k]) then taps else Select(taps, k, ir.value)
  }

  datatype Effect<S> = Effect(taps: seq<TapHw<S>>, reading: Option<Bits>)

  /** A DR scan of `d`, of any length, for TAP `k`. With the others in BYPASS it
      is a scan of TAP `k` alone, behind one zero for each of the others;
      otherwise it moves the registers of the whole chain. */
  function Scanned<S>(b: Behaviour<S>, taps: seq<TapHw<S>>, k: nat, d: Bits): (r: Effect<S>)
    requires k < |taps|
    ensures |r.taps| == |taps|
  {
    if Alone(taps, k) then
      var dr, tdi := DrOf(b, taps[k]), Zeros(|taps| - 1) + d;
      Effect(taps[k := taps[k].(state := b.update(taps[k].state, taps[k].ir, ShiftIn(dr, tdi)))],
             Some(ShiftOut(dr, tdi)[..|d|]))
    else
      var drs, tdi := Drs(b, taps), Padded(|taps|, k, d);
      Effect(LoadDrs(b, taps, ShiftIn(drs, tdi)), Some(ShiftOut(drs, tdi)[k..][..|d|]))
  }

  /** A payload with a zero for every other TAP of a chain of `n`. */
  function Padded(n: nat, k: nat, d: Bits): (r: Bits)
    requires k < n
    ensures |r| == n - 1 + |d|
  {
    Zeros(k) + d + Zeros(n - 1 - k)
  }

  /** What a TapOp on TAP `k` means. */
  function Meaning<S>(b: Behaviour<S>, taps: seq<TapHw<S>>, cache: Cache, k: nat, op: TapOp): (r: Effect<S>)
    requires k < |taps| == |cache|
    ensures |r.taps| == |taps|
  {
    match op
    case TapIrStatus => Effect(BypassAll(taps), Some(b.status(taps[k].state, |taps[k].ir|)))
    case TapRun(n) => Effect(Idled(b, taps, n), None)
    case TapShift(ir, tdi, readTdo, preRun, postRun) =>
      var ready := Idled(b, Selected(taps, cache, k, ir), preRun);
      if tdi.None? then Effect(Idled(b, ready, postRun), None)
      else
        var done := Scanned(b, ready, k, tdi.value);
        Effect(Idled(b, done.taps, postRun), if readTdo then done.reading else None)
  }

  /** An instruction, if there is one, is as long as the register it goes to. */
  predicate Sized<S>(taps: seq<TapHw<S>>, k: nat, op: TapOp)
    requires k < |taps|
  {
    op.TapShift? && op.ir.Some? ==> |op.ir.value| == |taps[k].ir|
  }

  // ----- Whole-chain scans ------------------------------------------------------------

  function Geo<S>(taps: seq<TapHw<S>>, k: nat): Geometry
    requires k < |taps|
  {
    Geometry(IrBits(taps[..k]), IrBits(taps[k + 1..]), k, |taps| - 1 - k, |taps[k].ir|)
  }

  lemma {:induction false} PadIsConcat(pad: nat -> Bits, pre: nat, data: Bits, post: nat)
    requires pad(0) == []
    ensures PadWith(pad, pre, data, post) == pad(pre) + data + pad(post)
  {}

  lemma {:induction false} LoadOnes<S>(taps: seq<TapHw<S>>)
    ensures LoadIrs(taps, Ones(IrBits(taps))) == BypassAll(taps)
    decreases |taps|
  {
    if taps != [] {
      var n := |taps[0].ir|;
      var ones := Ones(IrBits(taps));
      assert ones[..n] == Ones(n) && ones[n..] == Ones(IrBits(taps[1..]));
      LoadOnes(taps[1..]);
      assert BypassAll(taps) == [Bypassed(taps[0])] + BypassAll(taps[1..]);
    }
  }

  /** The padded IR scan loads `v` into the target and BYPASS elsewhere. */
  lemma {:induction false} LoadPadded<S>(taps: seq<TapHw<S>>, k: nat, v: Bits)
    requires k < |taps| && |v| == |taps[k].ir|
    ensures LoadIrs(taps, Ones(IrBits(taps[..k])) + v + Ones(IrBits(taps[k + 1..]))) == Select(taps, k, v)
    ensures IrBits(taps[..k]) + |v| + IrBits(taps[k + 1..]) == IrBits(taps)
    decreases |taps|
  {
    var n, rest := |taps[0].ir|, taps[1..];
    var bits := Ones(IrBits(taps[..k])) + v + Ones(IrBits(taps[k + 1..]));
    if k == 0 {
      assert taps[..0] == [];
      assert bits[..n] == v && bits[n..] == Ones(IrBits(rest));
      LoadOnes(rest);
      assert Select(taps, 0, v) == [taps[0].(ir := v)] + BypassAll(rest);
    } else {
      assert taps[..k][1..] == rest[..k - 1] && taps[k + 1..] == rest[k..];
      assert bits[..n] == Ones(n);
      assert bits[n..] == Ones(IrBits(rest[..k - 1])) + v + Ones(IrBits(rest[k..]));
      LoadPadded(rest, k - 1, v);
      assert Select(taps, k, v) == [Bypassed(taps[0])] + Select(rest, k - 1, v);
    }
  }

  lemma {:induction false} StatusAt<S(!new)>(b: Behaviour<S>, taps: seq<TapHw<S>>, k: nat)
    requires Lawful(b) && k < |taps|
    ensures |Statuses(b, taps)| == IrBits(taps)
    ensures IrBits(taps[..k]) + |taps[k].ir| <= |Statuses(b, taps)|
    ensures Statuses(b, taps)[IrBits(taps[..k])..][..|taps[k].ir|] == b.status(taps[k].state, |taps[k].ir|)
    decreases |taps|
  {
    StatusLength(b, taps);
    var n, rest := |taps[0].ir|, taps[1..];
    if k == 0 {
      assert taps[..0] == [];
    } else {
      assert taps[..k][1..] == rest[..k - 1];
      StatusAt(b, rest, k - 1);
      var all, tail := Statuses(b, taps), Statuses(b, rest);
      assert all[n..] == tail;
      assert all[n + IrBits(rest[..k - 1])..] == tail[IrBits(rest[..k - 1])..];
    }
  }

  lemma {:induction false} StatusLength<S(!new)>(b: Behaviour<S>, taps: seq<TapHw<S>>)
    requires Lawful(b)
    ensures |Statuses(b, taps)| == IrBits(taps)
    decreases |taps|
  {
    if taps != [] {
      StatusLength(b, taps[1..]);
    }
  }

  /** All TAPs but `k` are in BYPASS. */
  predicate Alone<S>(taps: seq<TapHw<S>>, k: nat) {
    forall i :: 0 <= i < |taps| && i != k ==> taps[i].ir == Ones(|taps[i].ir|)
  }

  predicate Quiet<S>(taps: seq<TapHw<S>>) {
    forall i :: 0 <= i < |taps| ==> taps[i].ir == Ones(|taps[i].ir|)
  }

  lemma {:induction false} QuietDrs<S(!new)>(b: Behaviour<S>, taps: seq<TapHw<S>>)
    requires Lawful(b) && Quiet(taps)
    ensures Drs(b, taps) == Zeros(|taps|)
    decreases |taps|
  {
    if taps != [] {
      assert taps[0].ir == Ones(|taps[0].ir|);
      QuietDrs(b, taps[1..]);
      assert [false] + Zeros(|taps| - 1) == Zeros(|taps|);
    }
  }

  lemma {:induction false} QuietLoaded<S(!new)>(b: Behaviour<S>, taps: seq<TapHw<S>>, bits: Bits)
    requires Lawful(b) && Quiet(taps) && |bits| == |taps|
    ensures LoadDrs(b, taps, bits) == taps
    decreases |taps|
  {
    if taps != [] {
      assert taps[0].ir == Ones(|taps[0].ir|);
      QuietLoaded(b, taps[1..], bits[1..]);
      assert taps == [taps[0]] + taps[1..];
    }
  }

  lemma {:induction false} AloneTail<S>(taps: seq<TapHw<S>>, k: nat)
    requires k < |taps| && Alone(taps, k)
    ensures k == 0 ==> Quiet(taps[1..])
    ensures k > 0 ==> Alone(taps[1..], k - 1) && taps[1..][k - 1] == taps[k] && taps[0].ir == Ones(|taps[0].ir|)
  {
    var rest := taps[1..];
    forall i | 0 <= i < |rest| && i != k - 1
      ensures rest[i].ir == Ones(|rest[i].ir|)
    {
      assert rest[i] == taps[i + 1];
    }
  }

  /** With the others in BYPASS the chain DR is the target's, with one zero
      per other TAP around it. */
  lemma {:induction false} AloneCaptured<S(!new)>(b: Behaviour<S>, taps: seq<TapHw<S>>, k: nat)
    requires Lawful(b) && k < |taps| && Alone(taps, k)
    ensures Drs(b, taps) == Zeros(k) + DrOf(b, taps[k]) + Zeros(|taps| - 1 - k)
    decreases |taps|
  {
    AloneTail(taps, k);
    var rest := taps[1..];
    if k == 0 {
      QuietDrs(b, rest);
      assert Zeros(0) + DrOf(b, taps[0]) == DrOf(b, taps[0]);
    } else {
      AloneCaptured(b, rest, k - 1);
      assert [false] + Zeros(k - 1) == Zeros(k);
    }
  }

  /** Whatever the others are loaded with, only the target is updated. */
  lemma {:induction false} AloneLoaded<S(!new)>(b: Behaviour<S>, taps: seq<TapHw<S>>, k: nat, before: Bits, own: Bits, behind: Bits)
    requires Lawful(b) && k < |taps| && Alone(taps, k) && |own| == |DrOf(b, taps[k])|
    requires |before| == k && |behind| == |taps| - 1 - k
    ensures LoadDrs(b, taps, before + own + behind)
         == taps[k := taps[k].(state := b.update(taps[k].state, taps[k].ir, own))]
    decreases |taps|
  {
    AloneTail(taps, k);
    var rest, bits := taps[1..], before + own + behind;
    if k == 0 {
      QuietLoaded(b, rest, behind);
      LoadCons(b, taps, bits, own, behind);
    } else {
      AloneLoaded(b, rest, k - 1, before[1..], own, behind);
      LoadCons(b, taps, bits, before[..1], before[1..] + own + behind);
      assert taps[0] == taps[0].(state := b.update(taps[0].state, taps[0].ir, before[..1]));
    }
  }

  lemma {:induction false} LoadCons<S>(b: Behaviour<S>, taps: seq<TapHw<S>>, bits: Bits, head: Bits, tail: Bits)
    requires taps != [] && bits == head + tail && |head| == |DrOf(b, taps[0])|
    ensures LoadDrs(b, taps, bits) ==
            [taps[0].(state := b.update(taps[0].state, taps[0].ir, head))] + LoadDrs(b, taps[1..], tail)
  {
    assert bits[..|head|] == head && bits[|head|..] == tail;
  }

  /** A register between BYPASS bits, shifted by a padded payload, is shifted by
      the zeros of all the others and then the payload. */
  lemma {:induction false} PaddedShift(dr: Bits, k: nat, m: nat, d: Bits)
    ensures var reg, tdi := Zeros(k) + dr + Zeros(m), Zeros(k) + d + Zeros(m);
            && ShiftIn(reg, tdi)[k..][..|dr|] == ShiftIn(dr, Zeros(k + m) + d)
            && ShiftOut(reg, tdi)[k..][..|d|] == ShiftOut(dr, Zeros(k + m) + d)[..|d|]
  {
    var reg, tdi := Zeros(k) + dr + Zeros(m), Zeros(k) + d + Zeros(m);
    var all, own := reg + tdi, dr + (Zeros(k + m) + d);
    forall i | 0 <= i < |own| ensures all[k + i] == own[i] {}
    assert ShiftIn(reg, tdi)[k..][..|dr|] == all[k..][|tdi|..][..|dr|];
    assert all[k..][..|own|] == own;
  }

  /** The scan of a whole chain for a TAP that is alone. */
  lemma {:induction false} AloneScanned<S(!new)>(b: Behaviour<S>, taps: seq<TapHw<S>>, k: nat, d: Bits)
    requires Lawful(b) && k < |taps| && Alone(taps, k)
    ensures var drs, tdi := Drs(b, taps), Padded(|taps|, k, d);
            && LoadDrs(b, taps, ShiftIn(drs, tdi)) == Scanned(b, taps, k, d).taps
            && Some(ShiftOut(drs, tdi)[k..][..|d|]) == Scanned(b, taps, k, d).reading
  {
    var m, dr := |taps| - 1 - k, DrOf(b, taps[k]);
    AloneCaptured(b, taps, k);
    PaddedShift(dr, k, m, d);
    LoadsOwn(b, taps, k, ShiftIn(Drs(b, taps), Padded(|taps|, k, d)), ShiftIn(dr, Zeros(k + m) + d));
  }

  lemma {:induction false} LoadsOwn<S(!new)>(b: Behaviour<S>, taps: seq<TapHw<S>>, k: nat, all: Bits, own: Bits)
    requires Lawful(b) && k < |taps| && Alone(taps, k) && |own| == |DrOf(b, taps[k])|
    requires |all| == |taps| - 1 + |own| && all[k..][..|own|] == own
    ensures LoadDrs(b, taps, all) == taps[k := taps[k].(state := b.update(taps[k].state, taps[k].ir, own))]
  {
    AloneLoaded(b, taps, k, all[..k], own, all[k..][|own|..]);
    assert all[..k] + own + all[k..][|own|..] == all;
  }

  // ----- One op ------------------------------------------------------------------------

  lemma {:induction false} FullShift(reg: Bits, tdi: Bits)
    requires |reg| == |tdi|
    ensures ShiftOut(reg, tdi) == reg && ShiftIn(reg, tdi) == tdi
  {}

  lemma {:induction false} ExecTwo<S>(b: Behaviour<S>, x: Shown<S>, p: J.Op, q: J.Op)
    ensures Exec(b, x, [p, q]) == ExecOne(b, ExecOne(b, x, p), q)
  {
    ExecConcat(b, x, [p], [q]);
    assert [p] + [q] == [p, q] && [p][1..] == [] && [q][1..] == [];
  }

  /** After an IR scan the target holds `v`, all others BYPASS, and TDO showed
      the captured status of the chain. */
  lemma {:induction false} IrScanDoes<S(!new)>(b: Behaviour<S>, x: Shown<S>, taps: seq<TapHw<S>>, k: nat, v: Bits)
    requires Lawful(b) && taps == Commit(b, x.hw).taps && k < |taps| && |v| == |taps[k].ir|
    ensures var y := Exec(b, x, IrScan(Geo(taps, k), v));
            Commit(b, y.hw).taps == Select(taps, k, v) && y.tdo == Statuses(b, taps)
  {
    var g := Geo(taps, k);
    var tdi := PadWith(Ones, g.irPre, v, g.irPost);
    PadIsConcat(Ones, g.irPre, v, g.irPost);
    LoadPadded(taps, k, v);
    StatusLength(b, taps);
    FullShift(Statuses(b, taps), tdi);
    ExecTwo(b, x, J.CaptureIr, J.Shift(tdi, 0));
  }

  lemma {:induction false} DrScanDoes<S(!new)>(b: Behaviour<S>, x: Shown<S>, taps: seq<TapHw<S>>, k: nat, d: Bits, post: nat)
    requires Lawful(b) && taps == Commit(b, x.hw).taps && k < |taps|
    ensures var y, done := Exec(b, x, DrScan(Geo(taps, k), d, post)), Scanned(b, taps, k, d);
            Commit(b, y.hw).taps == Idled(b, done.taps, post) && Read(y.tdo, Slice(k, |d|)) == done.reading
  {
    var g := Geo(taps, k);
    PadIsConcat(Zeros, g.drPre, d, g.drPost);
    if Alone(taps, k) {
      AloneScanned(b, taps, k, d);
    }
    ExecTwo(b, x, J.CaptureDr, J.Shift(Padded(|taps|, k, d), post));
  }

  lemma {:induction false} RunsDoes<S>(b: Behaviour<S>, x: Shown<S>, n: nat)
    ensures Commit(b, Exec(b, x, Runs(n)).hw).taps == Idled(b, Commit(b, x.hw).taps, n)
  {
    if n > 0 {
      assert [J.Run(n)][1..] == [];
    }
  }

  lemma {:induction false} IdleKeepsIr<S>(b: Behaviour<S>, taps: seq<TapHw<S>>, k: nat, n: nat)
    requires k < |taps|
    ensures Idled(b, taps, n)[k].ir == taps[k].ir
    ensures Alone(taps, k) <==> Alone(Idled(b, taps, n), k)
    ensures Geo(Idled(b, taps, n), k) == Geo(taps, k)
  {
    SameIrs(Idled(b, taps, n), taps, k);
  }

  lemma {:induction false} SameIrs<S>(a: seq<TapHw<S>>, c: seq<TapHw<S>>, k: nat)
    requires k < |a| == |c| && forall i :: 0 <= i < |a| ==> |a[i].ir| == |c[i].ir|
    ensures Geo(a, k) == Geo(c, k)
  {
    SameBits(a[..k], c[..k]);
    SameBits(a[k + 1..], c[k + 1..]);
  }

  lemma {:induction false} SameBits<S>(a: seq<TapHw<S>>, c: seq<TapHw<S>>)
    requires |a| == |c| && forall i :: 0 <= i < |a| ==> |a[i].ir| == |c[i].ir|
    ensures IrBits(a) == IrBits(c)
    decreases |a|
  {
    if a != [] {
      SameBits(a[1..], c[1..]);
    }
  }

  // ----- The IR cache --------------------------------------------------------------------

  /** The cache tells the truth, and a cached instruction other than BYPASS
      means that all other TAPs are in BYPASS. */
  ghost predicate Truthful<S>(taps: seq<TapHw<S>>, cache: Cache) {
    && |cache| == |taps|
    && (forall i :: 0 <= i < |taps| && cache[i].Some? ==> cache[i].value == taps[i].ir)
    && (forall i :: 0 <= i < |taps| && cache[i].Some? && taps[i].ir != Ones(|taps[i].ir|) ==> Alone(taps, i))
  }

  /** `__invalidate_ir_cache_for_shift` */
  function Loaded<S>(taps: seq<TapHw<S>>, cache: Cache, k: nat, loads: Option<Bits>): Cache {
    if loads.None? then cache
    else seq(|taps|, i requires 0 <= i < |taps| => if i == k then loads else Some(Ones(|taps[i].ir|)))
  }

  lemma {:induction false} SelectTruthful<S>(taps: seq<TapHw<S>>, cache: Cache, k: nat, v: Bits)
    requires k < |taps| && |v| == |taps[k].ir|
    ensures Truthful(Select(taps, k, v), Loaded(taps, cache, k, Some(v)))
    ensures Alone(Select(taps, k, v), k)
  {}

  predicate SameInstructions<S>(a: seq<TapHw<S>>, c: seq<TapHw<S>>) {
    |a| == |c| && forall i :: 0 <= i < |a| ==> a[i].ir == c[i].ir
  }

  /** A cache is about instructions only. */
  lemma {:induction false} SameTruth<S>(a: seq<TapHw<S>>, c: seq<TapHw<S>>, cache: Cache)
    requires Truthful(a, cache) && SameInstructions(a, c)
    ensures Truthful(c, cache)
  {
    forall i | 0 <= i < |c| && cache[i].Some? && c[i].ir != Ones(|c[i].ir|) ensures Alone(c, i) { assert Alone(a, i); }
  }

  lemma {:induction false} DrsKeepInstructions<S>(b: Behaviour<S>, taps: seq<TapHw<S>>, bits: Bits)
    ensures SameInstructions(taps, LoadDrs(b, taps, bits))
    decreases |taps|
  {
    if taps != [] && |bits| >= |DrOf(b, taps[0])| {
      DrsKeepInstructions(b, taps[1..], bits[|DrOf(b, taps[0])|..]);
    }
  }

  /** A DR scan and idle cycles leave the instructions alone. */
  lemma {:induction false} ScanKeepsInstructions<S>(b: Behaviour<S>, taps: seq<TapHw<S>>, k: nat, d: Bits)
    requires k < |taps|
    ensures SameInstructions(taps, Scanned(b, taps, k, d).taps)
  {
    if !Alone(taps, k) {
      DrsKeepInstructions(b, taps, ShiftIn(Drs(b, taps), Padded(|taps|, k, d)));
    }
  }

  lemma {:induction false} IdleTruthful<S>(b: Behaviour<S>, taps: seq<TapHw<S>>, cache: Cache, n: nat)
    requires Truthful(taps, cache)
    ensures Truthful(Idled(b, taps, n), cache)
  {
    SameTruth(taps, Idled(b, taps, n), cache);
  }

  function Read(tdo: Bits, r: Reading): Option<Bits> {
    if r.Nothing? then None
    else if r.offset + r.length <= |tdo| then Some(tdo[r.offset..][..r.length]) else None
  }

  /** The IR scan, emitted or elided, for any instruction: what a TapShift finds,
      and a truthful cache. */
  lemma {:induction false} IrStage<S(!new)>(b: Behaviour<S>, x: Shown<S>, taps: seq<TapHw<S>>, cache: Cache,
                                           k: nat, ir: Option<Bits>)
    requires Lawful(b) && taps == Commit(b, x.hw).taps && Truthful(taps, cache) && k < |taps|
    requires ir.Some? ==> |ir.value| == |taps[k].ir|
    ensures var scan := ir.Some? && ir != cache[k];
            var y := Exec(b, x, if scan then IrScan(Geo(taps, k), ir.value) else []);
            && Commit(b, y.hw).taps == Selected(taps, cache, k, ir)
            && Truthful(Selected(taps, cache, k, ir), Loaded(taps, cache, k, if scan then ir else None))
  {
    if ir.Some? {
      IrStageNamed(b, x, taps, cache, k, ir.value);
    }
  }

  lemma {:induction false} IrStageNamed<S(!new)>(b: Behaviour<S>, x: Shown<S>, taps: seq<TapHw<S>>, cache: Cache, k: nat, v: Bits)
    requires Lawful(b) && taps == Commit(b, x.hw).taps && Truthful(taps, cache) && k < |taps| && |v| == |taps[k].ir|
    ensures var scan := Some(v) != cache[k];
            var y := Exec(b, x, if scan then IrScan(Geo(taps, k), v) else []);
            && Commit(b, y.hw).taps == Selected(taps, cache, k, Some(v))
            && Truthful(Selected(taps, cache, k, Some(v)), Loaded(taps, cache, k, if scan then Some(v) else None))
  {
    SelectTruthful(taps, cache, k, v);
    if Some(v) != cache[k] {
      IrScanDoes(b, x, taps, k, v);
    } else if v != Ones(|v|) {
      assert Alone(taps, k);
      assert Select(taps, k, v) == taps;
    }
  }

  /** The target's IR and the others' BYPASS are in place before every DR scan
      under an instruction, whether the IR scan was emitted or elided. */
  lemma {:induction false} IrInPlace<S(!new)>(b: Behaviour<S>, x: Shown<S>, taps: seq<TapHw<S>>, cache: Cache,
                                             k: nat, v: Bits)
    requires Lawful(b) && taps == Commit(b, x.hw).taps && Truthful(taps, cache) && k < |taps|
    requires |v| == |taps[k].ir| && v != Ones(|taps[k].ir|)
    ensures var y := Exec(b, x, if Some(v) != cache[k] then IrScan(Geo(taps, k), v) else []);
            Commit(b, y.hw).taps == Select(taps, k, v) && Alone(Select(taps, k, v), k)
  {
    IrStageNamed(b, x, taps, cache, k, v);
  }

  /** What a TapOp leaves: the effect it means on every TAP, a truthful cache,
      and the right bits in its future. */
  ghost predicate Achieves<S>(b: Behaviour<S>, taps: seq<TapHw<S>>, cache: Cache, k: nat,
                              y: Shown<S>, c: Compiled, m: Effect<S>)
  {
    && Commit(b, y.hw).taps == m.taps
    && Truthful(m.taps, Loaded(taps, cache, k, c.loads))
    && Read(y.tdo, c.reading) == m.reading
  }

  lemma {:induction false} ShiftRefines<S(!new)>(b: Behaviour<S>, x: Shown<S>, taps: seq<TapHw<S>>, cache: Cache,
                                                k: nat, op: TapOp)
    requires Lawful(b) && taps == Commit(b, x.hw).taps && Truthful(taps, cache) && k < |taps|
    requires op.TapShift? && Sized(taps, k, op)
    ensures var c := Compile(Geo(taps, k), cache[k], op);
            Achieves(b, taps, cache, k, Exec(b, x, c.ops), c, Meaning(b, taps, cache, k, op))
  {
    var g := Geo(taps, k);
    var scan := op.ir.Some? && op.ir != cache[k];
    var irOps := if scan then IrScan(g, op.ir.value) else [];
    var drOps := if op.tdi.Some? then DrScan(g, op.tdi.value, op.postRun) else Runs(op.postRun);
    var picked := Selected(taps, cache, k, op.ir);
    var ready := Idled(b, picked, op.preRun);
    var cache' := Loaded(taps, cache, k, if scan then op.ir else None);
    IrStage(b, x, taps, cache, k, op.ir);
    var x1 := Exec(b, x, irOps);
    RunsDoes(b, x1, op.preRun);
    var x2 := Exec(b, x1, Runs(op.preRun));
    IdleTruthful(b, picked, cache', op.preRun);
    SameIrs(picked, taps, k);
    IdleKeepsIr(b, picked, k, op.preRun);
    ExecConcat(b, x, irOps + Runs(op.preRun), drOps);
    ExecConcat(b, x, irOps, Runs(op.preRun));
    TailRefines(b, x2, ready, cache', k, g, op);
  }

  /** The DR scan, or the trailing idle cycles, from whatever the IRs are. */
  lemma {:induction false} TailRefines<S(!new)>(b: Behaviour<S>, x: Shown<S>, ready: seq<TapHw<S>>, cache: Cache,
                                               k: nat, g: Geometry, op: TapOp)
    requires Lawful(b) && ready == Commit(b, x.hw).taps && Truthful(ready, cache) && k < |ready|
    requires g == Geo(ready, k) && op.TapShift?
    ensures var y := Exec(b, x, if op.tdi.Some? then DrScan(g, op.tdi.value, op.postRun) else Runs(op.postRun));
            var done := if op.tdi.Some? then Scanned(b, ready, k, op.tdi.value) else Effect(ready, None);
            && Commit(b, y.hw).taps == Idled(b, done.taps, op.postRun)
            && Truthful(Idled(b, done.taps, op.postRun), cache)
            && (op.tdi.Some? ==> Read(y.tdo, Slice(g.drPre, |op.tdi.value|)) == done.reading)
  {
    if op.tdi.Some? {
      var done := Scanned(b, ready, k, op.tdi.value).taps;
      DrScanDoes(b, x, ready, k, op.tdi.value, op.postRun);
      ScanKeepsInstructions(b, ready, k, op.tdi.value);
      SameTruth(ready, done, cache);
      IdleTruthful(b, done, cache, op.postRun);
    } else {
      RunsDoes(b, x, op.postRun);
      IdleTruthful(b, ready, cache, op.postRun);
    }
  }

  lemma {:induction false} StatusRefines<S(!new)>(b: Behaviour<S>, x: Shown<S>, taps: seq<TapHw<S>>, cache: Cache, k: nat)
    requires Lawful(b) && taps == Commit(b, x.hw).taps && k < |taps| == |cache|
    ensures var c := Compile(Geo(taps, k), cache[k], TapIrStatus);
            Achieves(b, taps, cache, k, Exec(b, x, c.ops), c, Meaning(b, taps, cache, k, TapIrStatus))
  {
    var v := Ones(|taps[k].ir|);
    IrScanDoes(b, x, taps, k, v);
    StatusAt(b, taps, k);
    SelectTruthful(taps, cache, k, v);
    assert Select(taps, k, v) == BypassAll(taps);
  }

  /** Any op, compiled with whatever the cache allows to elide. */
  lemma {:induction false} OpRefines<S(!new)>(b: Behaviour<S>, x: Shown<S>, taps: seq<TapHw<S>>, cache: Cache,
                                             k: nat, op: TapOp)
    requires Lawful(b) && taps == Commit(b, x.hw).taps && Truthful(taps, cache) && k < |taps|
    requires Sized(taps, k, op)
    ensures var c := Compile(Geo(taps, k), cache[k], op);
            Achieves(b, taps, cache, k, Exec(b, x, c.ops), c, Meaning(b, taps, cache, k, op))
  {
    match op
    case TapShift(_, _, _, _, _) => ShiftRefines(b, x, taps, cache, k, op);
    case TapIrStatus => StatusRefines(b, x, taps, cache, k);
    case TapRun(n) =>
      assert [J.Run(n)][1..] == [];
      IdleTruthful(b, taps, cache, n);
  }

  // ----- Whole runs -----------------------------------------------------------------------

  /** An op and the position of its TAP in the chain. */
  datatype Request = Request(k: nat, op: TapOp)

  datatype Outcome<S> = Outcome(shown: Shown<S>, cache: Cache, readings: seq<Option<Bits>>)

  /** The chain at work: geometry fixed, cache carried from op to op. */
  function RunChain<S>(b: Behaviour<S>, geos: seq<Geometry>, irlens: seq<TapHw<S>>, x: Shown<S>, cache: Cache,
                       reqs: seq<Request>): Outcome<S>
    requires |geos| == |irlens| == |cache| && Targets(reqs, |geos|)
    decreases |reqs|
  {
    if reqs == [] then Outcome(x, cache, [])
    else
      var k := reqs[0].k;
      var c := Compile(geos[k], cache[k], reqs[0].op);
      var y := Exec(b, x, c.ops);
      var rest := RunChain(b, geos, irlens, y, Loaded(irlens, cache, k, c.loads), reqs[1..]);
      rest.(readings := [Read(y.tdo, c.reading)] + rest.readings)
  }

  /** The instructions of requests are as long as the IR they go to. */
  predicate SizedRun<S>(taps: seq<TapHw<S>>, reqs: seq<Request>) {
    forall i :: 0 <= i < |reqs| && reqs[i].k < |taps| ==> Sized(taps, reqs[i].k, reqs[i].op)
  }

  /** Every request is for one of `n` TAPs. */
  predicate Targets(reqs: seq<Request>, n: nat) { forall i :: 0 <= i < |reqs| ==> reqs[i].k < n }

  datatype Meant<S> = Meant(taps: seq<TapHw<S>>, cache: Cache, readings: seq<Option<Bits>>)

  /** What is cached after an op. */
  function CacheAfter<S>(taps: seq<TapHw<S>>, cache: Cache, k: nat, op: TapOp): (r: Cache)
    requires k < |taps| == |cache|
    ensures |r| == |taps|
  {
    Loaded(taps, cache, k, Compile(Geo(taps, k), cache[k], op).loads)
  }

  /** The run on the TAPs, op by op. A position past the chain is that of no TAP,
      and nothing is done for it. */
  function MeaningRun<S>(b: Behaviour<S>, taps: seq<TapHw<S>>, cache: Cache, reqs: seq<Request>): (r: Meant<S>)
    requires |taps| == |cache|
    ensures |r.taps| == |r.cache| == |taps| && |r.readings| == |reqs|
    decreases |reqs|
  {
    if reqs == [] then Meant(taps, cache, [])
    else if reqs[0].k >= |taps| then
      var rest := MeaningRun(b, taps, cache, reqs[1..]);
      rest.(readings := [None] + rest.readings)
    else
      var k, op := reqs[0].k, reqs[0].op;
      var m := Meaning(b, taps, cache, k, op);
      var rest := MeaningRun(b, m.taps, CacheAfter(taps, cache, k, op), reqs[1..]);
      rest.(readings := [m.reading] + rest.readings)
  }

  ghost predicate SameLengths<S>(a: seq<TapHw<S>>, c: seq<TapHw<S>>) {
    |a| == |c| && forall i :: 0 <= i < |a| ==> |a[i].ir| == |c[i].ir|
  }

  lemma {:induction false} MeaningKeepsLengths<S>(b: Behaviour<S>, taps: seq<TapHw<S>>, cache: Cache, k: nat, op: TapOp)
    requires k < |taps| == |cache| && Sized(taps, k, op)
    ensures SameLengths(Meaning(b, taps, cache, k, op).taps, taps)
  {
    if op.TapShift? && op.tdi.Some? {
      ScanKeepsInstructions(b, Idled(b, Selected(taps, cache, k, op.ir), op.preRun), k, op.tdi.value);
    }
  }

  lemma {:induction false} SizedTail<S>(a: seq<TapHw<S>>, c: seq<TapHw<S>>, reqs: seq<Request>)
    requires reqs != [] && SizedRun(a, reqs) && SameLengths(c, a)
    ensures SizedRun(c, reqs[1..])
  {
    assert forall i :: 0 <= i < |reqs| - 1 ==> reqs[1..][i] == reqs[i + 1];
  }

  /** Compilation preserves meaning over every run on a fixed chain, whatever its
      ops: same final IR and state on every TAP, same bits read, however many IR
      scans the cache elided; and the cache stays truthful. */
  lemma {:induction false} RunRefines<S(!new)>(b: Behaviour<S>, geos: seq<Geometry>, irlens: seq<TapHw<S>>,
                                              x: Shown<S>, cache: Cache, reqs: seq<Request>)
    requires Lawful(b) && |geos| == |irlens| == |cache|
    requires Truthful(Commit(b, x.hw).taps, cache) && SameLengths(Commit(b, x.hw).taps, irlens)
    requires forall k :: 0 <= k < |geos| ==> geos[k] == Geo(irlens, k)
    requires SizedRun(irlens, reqs) && Targets(reqs, |geos|)
    ensures var o, m := RunChain(b, geos, irlens, x, cache, reqs), MeaningRun(b, Commit(b, x.hw).taps, cache, reqs);
            && Meant(Commit(b, o.shown.hw).taps, o.cache, o.readings) == m
            && Truthful(m.taps, m.cache) && SameLengths(m.taps, irlens)
    decreases |reqs|
  {
    if reqs != [] {
      var taps, k, op := Commit(b, x.hw).taps, reqs[0].k, reqs[0].op;
      SameIrs(taps, irlens, k);
      OpRefines(b, x, taps, cache, k, op);
      MeaningKeepsLengths(b, taps, cache, k, op);
      SizedTail(irlens, irlens, reqs);
      var c := Compile(geos[k], cache[k], op);
      assert Loaded(irlens, cache, k, c.loads) == Loaded(taps, cache, k, c.loads) == CacheAfter(taps, cache, k, op);
      RunRefines(b, geos, irlens, Exec(b, x, c.ops), Loaded(irlens, cache, k, c.loads), reqs[1..]);
    }
  }

  /** An empty cache is truthful about any hardware. */
  lemma {:induction false} EmptyCacheTruthful<S>(taps: seq<TapHw<S>>)
    ensures Truthful(taps, seq(|taps|, _ => None)) && Uniform(seq(|taps|, _ => None))
  {}

  // ----- When the IRs are in place -----------------------------------------------------------

  /** Nothing is cached, or something for every TAP: from an empty cache on, a
      fixed chain knows no other caches. */
  predicate Uniform(cache: Cache) {
    || (forall i :: 0 <= i < |cache| ==> cache[i].None?)
    || (forall i :: 0 <= i < |cache| ==> cache[i].Some?)
  }

  /** Every other TAP is cached as being in BYPASS. */
  predicate OthersCachedBypass<S>(taps: seq<TapHw<S>>, cache: Cache, k: nat)
    requires |cache| == |taps|
  {
    forall i :: 0 <= i < |taps| && i != k ==> cache[i] == Some(Ones(|taps[i].ir|))
  }

  /** For any instruction, BYPASS included: the IRs are in place for the DR
      scan if and only if the instruction is not BYPASS, or is not the one
      cached, or all other cached instructions are BYPASS. */
  lemma {:induction false} InPlaceIff<S(!new)>(b: Behaviour<S>, x: Shown<S>, taps: seq<TapHw<S>>, cache: Cache,
                                              k: nat, v: Bits)
    requires Lawful(b) && taps == Commit(b, x.hw).taps && Truthful(taps, cache) && Uniform(cache) && k < |taps|
    requires |v| == |taps[k].ir|
    ensures var y := Exec(b, x, if Some(v) != cache[k] then IrScan(Geo(taps, k), v) else []);
            Commit(b, y.hw).taps == Select(taps, k, v)
            <==> v != Ones(|v|) || Some(v) != cache[k] || OthersCachedBypass(taps, cache, k)
  {
    if Some(v) != cache[k] {
      IrScanDoes(b, x, taps, k, v);
    } else {
      CachedAlone(taps, cache, k);
      SelectedIff(taps, k);
    }
  }

  /** What is cached tells whether a TAP is alone. */
  lemma {:induction false} CachedAlone<S>(taps: seq<TapHw<S>>, cache: Cache, k: nat)
    requires Truthful(taps, cache) && Uniform(cache) && k < |taps| && cache[k].Some?
    ensures Alone(taps, k) <==> OthersCachedBypass(taps, cache, k)
  {}

  lemma {:induction false} SelectedIff<S>(taps: seq<TapHw<S>>, k: nat)
    requires k < |taps|
    ensures taps == Select(taps, k, taps[k].ir) <==> Alone(taps, k)
  {
    var picked := Select(taps, k, taps[k].ir);
    if taps == picked {
      forall i | 0 <= i < |taps| && i != k ensures taps[i].ir == Ones(|taps[i].ir|) { assert taps[i] == picked[i]; }
    }
  }

  /** Why BYPASS is excluded: with another TAP holding an instruction, the
      cache lets a scan of BYPASS through without clearing that TAP. */
  lemma {:induction false} BypassScanIsElided<S>(taps: seq<TapHw<S>>, v: Bits)
    requires |taps| == 2 && |v| == |taps[0].ir| && v != Ones(|v|)
    ensures var picked := Select(taps, 0, v);
            var cache := Loaded(taps, [None, None], 0, Some(v));
            var bypass := Ones(|taps[1].ir|);
            && Truthful(picked, cache)
            && Compile(Geo(picked, 1), cache[1], TapShift(Some(bypass), Some([false]), true, 0, 0)).loads == None
            && !Alone(picked, 1)
  {
    SelectTruthful(taps, [None, None], 0, v);
    var picked := Select(taps, 0, v);
    assert picked[0].ir == v;
  }

  // ----- A TAP joins the chain ------------------------------------------------------------------

  function Inserted<X>(s: seq<X>, k: nat, x: X): seq<X>
    requires k <= |s|
  {
    s[..k] + [x] + s[k..]
  }

  predicate InBypass<S>(t: TapHw<S>) { t.ir == Ones(|t.ir|) }

  /** A TAP `h`, cached as nothing or as BYPASS, joins before the k-th: the cache
      stays truthful if and only if a cached BYPASS is what `h` holds, and `h`
      is in BYPASS or nothing but BYPASS is cached for the others. */
  lemma {:induction false} JoinTruthfulIff<S>(taps: seq<TapHw<S>>, cache: Cache, k: nat, h: TapHw<S>, c: Option<Bits>)
    requires Truthful(taps, cache) && k <= |taps| && (c.None? || c == Some(Ones(|h.ir|)))
    ensures Truthful(Inserted(taps, k, h), Inserted(cache, k, c)) <==>
      && (c.Some? ==> InBypass(h))
      && (InBypass(h) || forall i :: 0 <= i < |taps| && cache[i].Some? ==> cache[i] == Some(Ones(|taps[i].ir|)))
  {
    var ts, cs := Inserted(taps, k, h), Inserted(cache, k, c);
    forall i | 0 <= i < |taps|
      ensures TruthfulAt(ts, cs, Shifted(i, k)) <==> (cache[i].Some? ==> InBypass(h) || cache[i] == Some(Ones(|taps[i].ir|)))
    {
      AloneAfterJoin(taps, k, h, i);
    }
    assert ts[k] == h && cs[k] == c;
    assert TruthfulAt(ts, cs, k) <==> (c.Some? ==> InBypass(h));
    EachTruthful(ts, cs);
    if Truthful(ts, cs) {
      assert forall i :: 0 <= i < |taps| ==> TruthfulAt(ts, cs, Shifted(i, k));
    } else {
      var j :| 0 <= j < |ts| && !TruthfulAt(ts, cs, j);
      assert j == k || j == Shifted(if j < k then j else j - 1, k);
    }
  }

  predicate TruthfulAt<S>(taps: seq<TapHw<S>>, cache: Cache, i: nat)
    requires i < |taps| == |cache|
  {
    cache[i].Some? ==> cache[i].value == taps[i].ir && (InBypass(taps[i]) || Alone(taps, i))
  }

  lemma {:induction false} EachTruthful<S>(taps: seq<TapHw<S>>, cache: Cache)
    requires |taps| == |cache|
    ensures Truthful(taps, cache) <==> forall i :: 0 <= i < |taps| ==> TruthfulAt(taps, cache, i)
  {
    if forall i :: 0 <= i < |taps| ==> TruthfulAt(taps, cache, i) {
      forall i | 0 <= i < |taps| && cache[i].Some?
        ensures cache[i].value == taps[i].ir && (taps[i].ir == Ones(|taps[i].ir|) || Alone(taps, i))
      {
        assert TruthfulAt(taps, cache, i);
      }
    }
  }

  /** Where the i-th TAP is once another has joined before the k-th. */
  function Shifted(i: nat, k: nat): nat { if i < k then i else i + 1 }

  lemma {:induction false} AloneAfterJoin<S>(taps: seq<TapHw<S>>, k: nat, h: TapHw<S>, i: nat)
    requires k <= |taps| && i < |taps|
    ensures Alone(Inserted(taps, k, h), Shifted(i, k)) <==> Alone(taps, i) && InBypass(h)
  {
    var ts := Inserted(taps, k, h);
    assert ts[k] == h && forall j :: 0 <= j < |taps| ==> ts[Shifted(j, k)] == taps[j];
    if Alone(ts, Shifted(i, k)) {
      forall j | 0 <= j < |taps| && j != i ensures taps[j].ir == Ones(|taps[j].ir|) { assert ts[Shifted(j, k)] == taps[j]; }
    }
  }

  /** A TAP that holds an instruction of its own joins a chain that caches one. */
  lemma {:induction false} NewcomerSpoilsCache<S>(t: TapHw<S>, h: TapHw<S>)
    requires !InBypass(t) && !InBypass(h)
    ensures Truthful([t], [Some(t.ir)]) && !Truthful([t, h], [Some(t.ir), None])
  {
    assert !Alone([t, h], 0) by { assert [t, h][1] == h; }
    assert [t, h][0] == t && [Some(t.ir), None][0] == Some(t.ir);
  }
}
