/** When a TapOp does through the chain what it does on its TAP alone: by what
    the IRs hold, and by the length of its payload; for every op of every run. */
module ChainAlone {
  import opened BitSequences
  import opened Wrappers
  import opened ScanChain
  import opened ChainCompiler
  import opened ChainRefinement

  // ----- A TAP on its own -------------------------------------------------------------------

  /** The instruction selected, or everything as it is without one. */
  function Asked<S>(taps: seq<TapHw<S>>, k: nat, ir: Option<Bits>): (r: seq<TapHw<S>>)
    requires k < |taps|
    ensures |r| == |taps|
  {
    if ir.None? then taps else Select(taps, k, ir.value)
  }

  /** A DR scan with TAP `k` wired alone. */
  function OwnScan<S>(b: Behaviour<S>, taps: seq<TapHw<S>>, k: nat, d: Bits): (r: Effect<S>)
    requires k < |taps|
    ensures |r.taps| == |taps|
  {
    var dr := DrOf(b, taps[k]);
    Effect(taps[k := taps[k].(state := b.update(taps[k].state, taps[k].ir, ShiftIn(dr, d)))], Some(ShiftOut(dr, d)))
  }

  /** What an op is for: its instruction is selected, and its scan is one of TAP
      `k` alone. */
  function OwnMeaning<S>(b: Behaviour<S>, taps: seq<TapHw<S>>, k: nat, op: TapOp): (r: Effect<S>)
    requires k < |taps|
    ensures |r.taps| == |taps|
  {
    match op
    case TapIrStatus => Effect(BypassAll(taps), Some(b.status(taps[k].state, |taps[k].ir|)))
    case TapRun(n) => Effect(Idled(b, taps, n), None)
    case TapShift(ir, tdi, readTdo, preRun, postRun) =>
      var ready := Idled(b, Asked(taps, k, ir), preRun);
      if tdi.None? then Effect(Idled(b, ready, postRun), None)
      else
        var done := OwnScan(b, ready, k, tdi.value);
        Effect(Idled(b, done.taps, postRun), if readTdo then done.reading else None)
  }

  // ----- Lengths ------------------------------------------------------------------------------

  /** Behind `p` zeros a payload leaves in every register of `n` bits what it leaves
      without them, if and only if it is at least as long. */
  lemma {:induction false} ShiftInIff(n: nat, p: nat, d: Bits)
    requires p > 0
    ensures (forall reg: Bits :: |reg| == n ==> ShiftIn(reg, Zeros(p) + d) == ShiftIn(reg, d)) <==> |d| >= n
  {
    if |d| >= n {
      forall reg: Bits | |reg| == n ensures ShiftIn(reg, Zeros(p) + d) == ShiftIn(reg, d) { LongIn(reg, p, d); }
    } else {
      var reg, j := Ones(n), n - |d| - 1;
      assert ShiftIn(reg, d)[j] == reg[j + |d|];
      assert ShiftIn(reg, Zeros(p) + d)[j] == (reg + (Zeros(p) + d))[n + (p - 1)];
    }
  }

  lemma {:induction false} LongIn(reg: Bits, p: nat, d: Bits)
    requires |d| >= |reg|
    ensures ShiftIn(reg, Zeros(p) + d) == ShiftIn(reg, d)
  {
    assert reg + (Zeros(p) + d) == reg + Zeros(p) + d;
  }

  /** And it pushes the same bits out of every such register, if and only if it is
      at most as long, or what comes back of it is zeros. */
  lemma {:induction false} ShiftOutIff(n: nat, p: nat, d: Bits)
    requires p > 0
    ensures (forall reg: Bits :: |reg| == n ==> ShiftOut(reg, Zeros(p) + d)[..|d|] == ShiftOut(reg, d))
            <==> ComesBackZero(n, d)
  {
    if ComesBackZero(n, d) {
      forall reg: Bits | |reg| == n ensures ShiftOut(reg, Zeros(p) + d)[..|d|] == ShiftOut(reg, d) { ShortOut(reg, p, d); }
    }
    if forall reg: Bits :: |reg| == n ==> ShiftOut(reg, Zeros(p) + d)[..|d|] == ShiftOut(reg, d) {
      var reg := Zeros(n);
      assert ShiftOut(reg, Zeros(p) + d)[..|d|] == ShiftOut(reg, d);
      ZeroPrefix(n, p, d, |d| - n);
    }
  }

  /** No bit of the payload comes out again but zeros. */
  predicate ComesBackZero(n: nat, d: Bits) { forall i :: 0 <= i < |d| - n ==> !d[i] }

  lemma {:induction false} ShortOut(reg: Bits, p: nat, d: Bits)
    requires ComesBackZero(|reg|, d)
    ensures ShiftOut(reg, Zeros(p) + d)[..|d|] == ShiftOut(reg, d)
  {
    var own, padded := reg + d, reg + (Zeros(p) + d);
    forall i | 0 <= i < |d| ensures padded[i] == own[i] {
      if i >= |reg| + p {
        assert padded[i] == d[i - |reg| - p] && own[i] == d[i - |reg|];
      }
    }
  }

  lemma {:induction false} ZeroPrefix(n: nat, p: nat, d: Bits, m: int)
    requires p > 0 && m <= |d| - n && ShiftOut(Zeros(n), Zeros(p) + d)[..|d|] == ShiftOut(Zeros(n), d)
    ensures forall i :: 0 <= i < m ==> !d[i]
    decreases m
  {
    if m > 0 {
      ZeroPrefix(n, p, d, m - 1);
      var j := n + (m - 1);
      assert ShiftOut(Zeros(n), d)[j] == d[m - 1];
      assert ShiftOut(Zeros(n), Zeros(p) + d)[..|d|][j] == (Zeros(n) + (Zeros(p) + d))[j];
      assert m - 1 >= p ==> (Zeros(n) + (Zeros(p) + d))[j] == d[m - 1 - p];
    }
  }

  // ----- One op ---------------------------------------------------------------------------------

  /** The instruction asked for is, or will be, in place; without one the target is
      alone already when something is scanned. */
  predicate Clear<S>(taps: seq<TapHw<S>>, cache: Cache, k: nat, op: TapOp)
    requires k < |taps| == |cache|
  {
    op.TapShift? ==>
      if op.ir.Some? then op.ir.value != Ones(|taps[k].ir|) || op.ir != cache[k] || Alone(taps, k)
      else op.tdi.Some? ==> Alone(taps, k)
  }

  /** The register a TapShift scans. */
  function Target<S>(b: Behaviour<S>, taps: seq<TapHw<S>>, k: nat, op: TapOp): Bits
    requires k < |taps| && op.TapShift?
  {
    DrOf(b, Idled(b, Asked(taps, k, op.ir), op.preRun)[k])
  }

  /** The payload fills the register, or there is no other TAP. */
  predicate Fills<S>(b: Behaviour<S>, taps: seq<TapHw<S>>, k: nat, op: TapOp)
    requires k < |taps|
  {
    op.TapShift? && op.tdi.Some? && |taps| > 1 ==> |op.tdi.value| >= |Target(b, taps, k, op)|
  }

  /** The payload, but for zeros, does not come out again, or there is no other TAP. */
  predicate Stays<S>(b: Behaviour<S>, taps: seq<TapHw<S>>, k: nat, op: TapOp)
    requires k < |taps|
  {
    op.TapShift? && op.tdi.Some? && |taps| > 1 ==> ComesBackZero(|Target(b, taps, k, op)|, op.tdi.value)
  }

  /** With the IRs in place an op does to every TAP what it is for when its payload
      fills the register, and reads what it is for when the payload stays; both
      hold for payloads as long as the register. */
  lemma {:induction false} MeansOwn<S>(b: Behaviour<S>, taps: seq<TapHw<S>>, cache: Cache, k: nat, op: TapOp)
    requires k < |taps| && Truthful(taps, cache) && Sized(taps, k, op) && Clear(taps, cache, k, op)
    ensures Fills(b, taps, k, op) ==> Meaning(b, taps, cache, k, op).taps == OwnMeaning(b, taps, k, op).taps
    ensures Stays(b, taps, k, op) ==> Meaning(b, taps, cache, k, op).reading == OwnMeaning(b, taps, k, op).reading
  {
    if op.TapShift? {
      SelectedIsAsked(taps, cache, k, op);
      if op.tdi.Some? {
        var ready := Idled(b, Asked(taps, k, op.ir), op.preRun);
        AskedAlone(taps, k, op);
        IdleKeepsIr(b, Asked(taps, k, op.ir), k, op.preRun);
        ScannedIsOwn(b, ready, k, op.tdi.value);
      }
    }
  }

  lemma {:induction false} SelectedIsAsked<S>(taps: seq<TapHw<S>>, cache: Cache, k: nat, op: TapOp)
    requires k < |taps| && Truthful(taps, cache) && Sized(taps, k, op) && op.TapShift? && Clear(taps, cache, k, op)
    ensures Selected(taps, cache, k, op.ir) == Asked(taps, k, op.ir)
  {
    if op.ir.Some? && op.ir.value == Ones(|taps[k].ir|) && op.ir == cache[k] {
      SelectedIff(taps, k);
    }
  }

  lemma {:induction false} AskedAlone<S>(taps: seq<TapHw<S>>, k: nat, op: TapOp)
    requires k < |taps| && op.TapShift? && (op.ir.None? ==> Alone(taps, k))
    ensures Alone(Asked(taps, k, op.ir), k)
  {}

  lemma {:induction false} ScannedIsOwn<S>(b: Behaviour<S>, taps: seq<TapHw<S>>, k: nat, d: Bits)
    requires k < |taps| && Alone(taps, k)
    ensures |taps| == 1 || |d| >= |DrOf(b, taps[k])| ==> Scanned(b, taps, k, d).taps == OwnScan(b, taps, k, d).taps
    ensures |taps| == 1 || ComesBackZero(|DrOf(b, taps[k])|, d) ==> Scanned(b, taps, k, d).reading == OwnScan(b, taps, k, d).reading
  {
    var dr, p := DrOf(b, taps[k]), |taps| - 1;
    if p == 0 {
      assert Zeros(0) + d == d && ShiftOut(dr, d)[..|d|] == ShiftOut(dr, d);
    } else {
      if |d| >= |dr| { LongIn(dr, p, d); }
      if ComesBackZero(|dr|, d) { ShortOut(dr, p, d); }
    }
  }

  /** What a caller can see of it in a uniform cache. */
  lemma {:induction false} ClearIffCached<S>(taps: seq<TapHw<S>>, cache: Cache, k: nat, op: TapOp)
    requires k < |taps| && Truthful(taps, cache) && Uniform(cache) && op.TapShift? && (op.ir.None? ==> cache[k].Some?)
    ensures Clear(taps, cache, k, op) <==>
      if op.ir.Some? then op.ir.value != Ones(|taps[k].ir|) || op.ir != cache[k] || OthersCachedBypass(taps, cache, k)
      else op.tdi.Some? ==> OthersCachedBypass(taps, cache, k)
  {
    if cache[k].Some? {
      CachedAlone(taps, cache, k);
    }
  }

  // ----- Every op of every run ----------------------------------------------------------------

  /** What holds when an op has its turn: the cache tells the truth, an instruction
      asked for is in place for the DR scan unless it is BYPASS, cached already,
      with another TAP not in BYPASS; and if it is clear to, the op does what it
      is for. */
  ghost predicate Served<S>(b: Behaviour<S>, x: Shown<S>, cache: Cache, r: Request, reading: Option<Bits>) {
    var taps := Commit(b, x.hw).taps;
    && r.k < |taps| && Truthful(taps, cache) && Sized(taps, r.k, r.op)
    && (r.op.TapShift? && r.op.ir.Some? ==> InPlace(b, x, cache, r.k, r.op.ir.value))
    && var y := Exec(b, x, Compile(Geo(taps, r.k), cache[r.k], r.op).ops);
       var m, own := Meaning(b, taps, cache, r.k, r.op), OwnMeaning(b, taps, r.k, r.op);
       && Commit(b, y.hw).taps == m.taps && reading == m.reading
       && (Clear(taps, cache, r.k, r.op) && Fills(b, taps, r.k, r.op) ==> Commit(b, y.hw).taps == own.taps)
       && (Clear(taps, cache, r.k, r.op) && Stays(b, taps, r.k, r.op) ==> reading == own.reading)
  }

  /** The state the DR scan starts from is the one asked for, exactly when. */
  ghost predicate InPlace<S>(b: Behaviour<S>, x: Shown<S>, cache: Cache, k: nat, v: Bits)
    requires k < |Commit(b, x.hw).taps| == |cache|
  {
    var taps := Commit(b, x.hw).taps;
    var y := Exec(b, x, if Some(v) != cache[k] then IrScan(Geo(taps, k), v) else []);
    && (Commit(b, y.hw).taps == Select(taps, k, v) <==> v != Ones(|v|) || Some(v) != cache[k] || Alone(taps, k))
    && (Uniform(cache) ==>
        (Commit(b, y.hw).taps == Select(taps, k, v) <==> v != Ones(|v|) || Some(v) != cache[k] || OthersCachedBypass(taps, cache, k)))
  }

  lemma {:induction false} OpServed<S(!new)>(b: Behaviour<S>, x: Shown<S>, taps: seq<TapHw<S>>, cache: Cache, r: Request,
                                             reading: Option<Bits>)
    requires Lawful(b) && taps == Commit(b, x.hw).taps && Truthful(taps, cache) && r.k < |taps| && Sized(taps, r.k, r.op)
    requires var c := Compile(Geo(taps, r.k), cache[r.k], r.op); reading == Read(Exec(b, x, c.ops).tdo, c.reading)
    ensures Served(b, x, cache, r, reading)
  {
    OpRefines(b, x, taps, cache, r.k, r.op);
    if Clear(taps, cache, r.k, r.op) {
      MeansOwn(b, taps, cache, r.k, r.op);
    }
    if r.op.TapShift? && r.op.ir.Some? {
      InPlaceExactly(b, x, taps, cache, r.k, r.op.ir.value);
    }
  }

  lemma {:induction false} InPlaceExactly<S(!new)>(b: Behaviour<S>, x: Shown<S>, taps: seq<TapHw<S>>, cache: Cache, k: nat, v: Bits)
    requires Lawful(b) && taps == Commit(b, x.hw).taps && Truthful(taps, cache) && k < |taps| && |v| == |taps[k].ir|
    ensures InPlace(b, x, cache, k, v)
  {
    IrStageNamed(b, x, taps, cache, k, v);
    if Some(v) == cache[k] {
      SelectedIff(taps, k);
    }
    if Uniform(cache) {
      InPlaceIff(b, x, taps, cache, k, v);
    }
  }

  /** The i-th op of a run is served, with the reading of the whole run, from where the
      ops before it leave the chain. */
  ghost predicate ServedAt<S>(b: Behaviour<S>, geos: seq<Geometry>, irlens: seq<TapHw<S>>, x: Shown<S>, cache: Cache,
                              reqs: seq<Request>, i: nat)
    requires |geos| == |irlens| == |cache| && Targets(reqs, |geos|) && i < |reqs|
  {
    var o, all := RunChain(b, geos, irlens, x, cache, reqs[..i]), RunChain(b, geos, irlens, x, cache, reqs);
    && (Uniform(cache) ==> Uniform(o.cache))
    && |all.readings| == |reqs| && Served(b, o.shown, o.cache, reqs[i], all.readings[i])
  }

  /** Every op of every run, whatever the ops before it were. */
  lemma {:induction false} EveryOpServed<S(!new)>(b: Behaviour<S>, geos: seq<Geometry>, irlens: seq<TapHw<S>>,
                                                  x: Shown<S>, cache: Cache, reqs: seq<Request>, i: nat)
    requires Lawful(b) && |geos| == |irlens| == |cache|
    requires Truthful(Commit(b, x.hw).taps, cache) && SameLengths(Commit(b, x.hw).taps, irlens)
    requires forall k :: 0 <= k < |geos| ==> geos[k] == Geo(irlens, k)
    requires SizedRun(irlens, reqs) && Targets(reqs, |geos|) && i < |reqs|
    ensures ServedAt(b, geos, irlens, x, cache, reqs, i)
    decreases i
  {
    var r := reqs[0];
    SameIrs(Commit(b, x.hw).taps, irlens, r.k);
    if i == 0 {
      FirstOpServed(b, geos, irlens, x, Commit(b, x.hw).taps, cache, reqs);
    } else {
      var c := Compile(geos[r.k], cache[r.k], r.op);
      var y, cache' := Exec(b, x, c.ops), Loaded(irlens, cache, r.k, c.loads);
      StepKeeps(b, x, Commit(b, x.hw).taps, irlens, cache, r, c, y, cache');
      SizedTail(irlens, irlens, reqs);
      EveryOpServed(b, geos, irlens, y, cache', reqs[1..], i - 1);
      LaterOpServed(b, geos, irlens, x, cache, reqs, i, y, cache');
    }
  }

  lemma {:induction false} FirstOpServed<S(!new)>(b: Behaviour<S>, geos: seq<Geometry>, irlens: seq<TapHw<S>>,
                                                  x: Shown<S>, taps: seq<TapHw<S>>, cache: Cache, reqs: seq<Request>)
    requires Lawful(b) && |geos| == |irlens| == |cache| && taps == Commit(b, x.hw).taps
    requires Truthful(taps, cache) && SameLengths(taps, irlens) && reqs != [] && Targets(reqs, |geos|)
    requires geos[reqs[0].k] == Geo(taps, reqs[0].k) && Sized(taps, reqs[0].k, reqs[0].op)
    ensures ServedAt(b, geos, irlens, x, cache, reqs, 0)
  {
    var c := Compile(geos[reqs[0].k], cache[reqs[0].k], reqs[0].op);
    assert reqs[..0] == [];
    ReadingCount(b, geos, irlens, x, cache, reqs);
    OpServed(b, x, taps, cache, reqs[0], Read(Exec(b, x, c.ops).tdo, c.reading));
  }

  lemma {:induction false} LaterOpServed<S>(b: Behaviour<S>, geos: seq<Geometry>, irlens: seq<TapHw<S>>, x: Shown<S>, cache: Cache,
                                            reqs: seq<Request>, i: nat, y: Shown<S>, cache': Cache)
    requires |geos| == |irlens| == |cache| == |cache'| && 0 < i < |reqs| && Targets(reqs, |geos|) && Targets(reqs[1..], |geos|)
    requires var c := Compile(geos[reqs[0].k], cache[reqs[0].k], reqs[0].op);
             y == Exec(b, x, c.ops) && cache' == Loaded(irlens, cache, reqs[0].k, c.loads)
    requires (Uniform(cache) ==> Uniform(cache')) && ServedAt(b, geos, irlens, y, cache', reqs[1..], i - 1)
    ensures ServedAt(b, geos, irlens, x, cache, reqs, i)
  {
    RunFirst(b, geos, irlens, x, cache, reqs, i, y, cache');
    ReadingCount(b, geos, irlens, x, cache, reqs);
    var all := RunChain(b, geos, irlens, x, cache, reqs).readings;
    assert all[i] == all[1..][i - 1];
  }

  /** One op leaves a truthful cache, uniform if it was. */
  lemma {:induction false} StepKeeps<S(!new)>(b: Behaviour<S>, x: Shown<S>, taps: seq<TapHw<S>>, irlens: seq<TapHw<S>>,
                                              cache: Cache, r: Request, c: Compiled, y: Shown<S>, cache': Cache)
    requires Lawful(b) && taps == Commit(b, x.hw).taps && Truthful(taps, cache) && SameLengths(taps, irlens)
    requires r.k < |taps| && Sized(taps, r.k, r.op) && c == Compile(Geo(taps, r.k), cache[r.k], r.op)
    requires y == Exec(b, x, c.ops) && cache' == Loaded(irlens, cache, r.k, c.loads)
    ensures Truthful(Commit(b, y.hw).taps, cache') && SameLengths(Commit(b, y.hw).taps, irlens)
    ensures Uniform(cache) ==> Uniform(cache')
  {
    OpRefines(b, x, taps, cache, r.k, r.op);
    MeaningKeepsLengths(b, taps, cache, r.k, r.op);
    assert Loaded(irlens, cache, r.k, c.loads) == Loaded(taps, cache, r.k, c.loads);
  }

  lemma {:induction false} RunFirst<S>(b: Behaviour<S>, geos: seq<Geometry>, irlens: seq<TapHw<S>>, x: Shown<S>, cache: Cache,
                                       reqs: seq<Request>, i: nat, y: Shown<S>, cache': Cache)
    requires |geos| == |irlens| == |cache| == |cache'| && Targets(reqs, |geos|) && 0 < i < |reqs|
    requires var c := Compile(geos[reqs[0].k], cache[reqs[0].k], reqs[0].op);
             y == Exec(b, x, c.ops) && cache' == Loaded(irlens, cache, reqs[0].k, c.loads)
    ensures var o, o' := RunChain(b, geos, irlens, x, cache, reqs[..i]), RunChain(b, geos, irlens, y, cache', reqs[1..][..i - 1]);
            o.shown == o'.shown && o.cache == o'.cache
    ensures RunChain(b, geos, irlens, x, cache, reqs).readings[1..] == RunChain(b, geos, irlens, y, cache', reqs[1..]).readings
  {
    assert reqs[..i][1..] == reqs[1..][..i - 1];
  }

  lemma {:induction false} ReadingCount<S>(b: Behaviour<S>, geos: seq<Geometry>, irlens: seq<TapHw<S>>, x: Shown<S>, cache: Cache,
                                           reqs: seq<Request>)
    requires |geos| == |irlens| == |cache| && Targets(reqs, |geos|)
    ensures |RunChain(b, geos, irlens, x, cache, reqs).readings| == |reqs|
    decreases |reqs|
  {
    if reqs != [] {
      var k := reqs[0].k;
      var c := Compile(geos[k], cache[k], reqs[0].op);
      ReadingCount(b, geos, irlens, Exec(b, x, c.ops), Loaded(irlens, cache, k, c.loads), reqs[1..]);
    }
  }
}
