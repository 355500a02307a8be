/** Blind discovery of a chain in its reset state: IDCODEs from the data
    registers, the TAP count from BYPASS, instruction register lengths from
    the captured IR pattern. */
module ChainDiscovery {
  import opened BitSequences
  import opened Wrappers
  import opened ScanChain
  import opened IrMerge

  datatype Result<+X> = Ok(value: X) | Err(reason: string)

  /** A TAP as the wire shows it, nearest to TDO first in a chain: its 32-bit
      code if reset selects IDCODE, the bits it captures into its IR, and the
      data register it captures under an instruction. */
  datatype Device = Device(idcode: Option<Bits>, irCapture: Bits, dr: Bits -> Bits)

  /** Clause 7.1 of IEEE Std 1149.1 (IR captures ...01), the IDCODE format
      (least significant bit one) and BYPASS under the all-ones instruction. */
  ghost predicate Compliant(d: Device) {
    && |d.irCapture| >= 2 && d.irCapture[0] && !d.irCapture[1]
    && (d.idcode.Some? ==> |d.idcode.value| == 32 && d.idcode.value[0])
    && d.dr(Ones(|d.irCapture|)) == [false]
  }

  // ----- What the hardware shows ----------------------------------------------

  function ResetDr(d: Device): Bits { if d.idcode.Some? then d.idcode.value else [false] }

  function ResetDrs(devs: seq<Device>): Bits {
    if devs == [] then [] else ResetDr(devs[0]) + ResetDrs(devs[1..])
  }

  function CapturedIrs(devs: seq<Device>): Bits {
    if devs == [] then [] else devs[0].irCapture + CapturedIrs(devs[1..])
  }

  /** DR captured when the IR chain holds `ir`. */
  function CapturedDrs(devs: seq<Device>, ir: Bits): Bits
    requires |ir| == |CapturedIrs(devs)|
    decreases |devs|
  {
    if devs == [] then []
    else
      var n := |devs[0].irCapture|;
      devs[0].dr(ir[..n]) + CapturedDrs(devs[1..], ir[n..])
  }

  // ----- Measuring a register ----------------------------------------------------

  /** 0xc05a5a03, least significant bit first. */
  const MARKER: Bits :=
    [true, true, false, false, false, false, false, false,
     false, true, false, true, true, false, true, false,
     false, true, false, true, true, false, true, false,
     false, false, false, false, false, false, true, true]

  /** Number of bits up to the highest one set. */
  function BitLength(bits: Bits): (n: nat)
    ensures n <= |bits|
  {
    if bits == [] then 0
    else if bits[|bits| - 1] then |bits|
    else BitLength(bits[..|bits| - 1])
  }

  function ProbeTdi(maxLength: nat): Bits { MARKER + Zeros(maxLength + 4) }

  /** `shift_discover` on a register holding `reg`. */
  function Discover(reg: Bits, maxLength: nat): Result<Bits> {
    Found(ShiftOut(reg, ProbeTdi(maxLength))[..maxLength + 32])
  }

  /** The register in front of the marker. */
  function Found(tdo: Bits): Result<Bits> {
    var n := BitLength(tdo);
    if n == 0 then Err("TDO stuck low")
    else if tdo == Ones(|tdo|) then Err("TDO stuck high")
    else if n < 32 || tdo[n - 32..n] != MARKER then Err("marker not received back")
    else Ok(tdo[..n - 32])
  }

  lemma {:induction false} BitLengthPadded(bits: Bits, n: nat)
    requires bits != [] && bits[|bits| - 1]
    ensures BitLength(bits + Zeros(n)) == |bits|
    decreases n
  {
    if n == 0 {
      assert bits + Zeros(0) == bits;
    } else {
      assert (bits + Zeros(n))[..|bits| + n - 1] == bits + Zeros(n - 1);
      BitLengthPadded(bits, n - 1);
    }
  }

  lemma {:induction false} ProbeReturns(reg: Bits, maxLength: nat, pad: nat)
    requires |reg| + pad == maxLength
    ensures ShiftOut(reg, ProbeTdi(maxLength))[..maxLength + 32] == (reg + MARKER) + Zeros(pad)
  {
    assert |MARKER| == 32;
  }

  /** Any register no longer than asked for is read back exactly. */
  lemma {:induction false} DiscoverExact(reg: Bits, maxLength: nat)
    requires |reg| <= maxLength
    ensures Discover(reg, maxLength) == Ok(reg)
  {
    ProbeReturns(reg, maxLength, maxLength - |reg|);
    FoundExact(ShiftOut(reg, ProbeTdi(maxLength))[..maxLength + 32], reg, maxLength - |reg|);
  }

  lemma {:induction false} FoundExact(tdo: Bits, reg: Bits, pad: nat)
    requires tdo == reg + MARKER + Zeros(pad)
    ensures Found(tdo) == Ok(reg)
  {
    assert |MARKER| == 32 && MARKER[31] && !MARKER[2];
    BitLengthPadded(reg + MARKER, pad);
    assert tdo[|reg| + 2] == MARKER[2] != Ones(|tdo|)[|reg| + 2];
    assert tdo[|reg|..|reg| + 32] == MARKER && tdo[..|reg|] == reg;
  }

  // ----- IDCODEs -----------------------------------------------------------------

  /** Codes of the next `n` TAPs, reading from the front of `dr`. */
  function Idcodes(dr: Bits, n: nat): (r: seq<Option<Bits>>)
    ensures |r| == n
    decreases n
  {
    if n == 0 then []
    else if dr == [] then [None] + Idcodes(dr, n - 1)
    else if dr[0] then
      var w := if |dr| < 32 then |dr| else 32;
      [Some(dr[..w])] + Idcodes(dr[w..], n - 1)
    else [None] + Idcodes(dr[1..], n - 1)
  }

  /** What is left of `dr` from `pos` on; nothing beyond its end. */
  function From(dr: Bits, pos: nat): Bits { if pos < |dr| then dr[pos..] else [] }

  function CodeAt(dr: Bits, pos: nat): Option<Bits> {
    if pos >= |dr| || !dr[pos] then None else Some(dr[pos..if pos + 32 < |dr| then pos + 32 else |dr|])
  }

  function PosAfter(dr: Bits, pos: nat): nat {
    if pos >= |dr| then pos else if dr[pos] then pos + 32 else pos + 1
  }

  lemma {:induction false} FromSlices(dr: Bits, pos: nat, w: nat)
    requires pos < |dr| && w == if pos + 32 < |dr| then 32 else |dr| - pos
    ensures From(dr, pos)[..w] == dr[pos..pos + w] && From(dr, pos)[w..] == From(dr, pos + 32)
    ensures From(dr, pos)[1..] == From(dr, pos + 1)
  {}

  lemma {:induction false} IdcodesFirst(dr: Bits, pos: nat, n: nat)
    requires n > 0
    ensures Idcodes(From(dr, pos), n) == [CodeAt(dr, pos)] + Idcodes(From(dr, PosAfter(dr, pos)), n - 1)
  {
    if pos < |dr| {
      FromSlices(dr, pos, if pos + 32 < |dr| then 32 else |dr| - pos);
    }
  }

  /** The first `i` codes are in `r`, and the next one starts at `pos`. */
  predicate ReadSoFar(dr: Bits, n: nat, r: seq<Option<Bits>>, pos: nat, i: nat) {
    i <= n && Idcodes(dr, n) == r + Idcodes(From(dr, pos), n - i)
  }

  lemma {:induction false} IdcodesStart(dr: Bits, n: nat)
    ensures ReadSoFar(dr, n, [], 0, 0)
  {
    assert From(dr, 0) == dr;
  }

  lemma {:induction false} IdcodesStep(dr: Bits, n: nat, r: seq<Option<Bits>>, pos: nat, i: nat)
    requires i < n && ReadSoFar(dr, n, r, pos, i)
    ensures ReadSoFar(dr, n, r + [CodeAt(dr, pos)], PosAfter(dr, pos), i + 1)
  {
    IdcodesFirst(dr, pos, n - i);
    Assoc(r, [CodeAt(dr, pos)], Idcodes(From(dr, PosAfter(dr, pos)), n - i - 1));
  }

  lemma {:induction false} IdcodesEnd(dr: Bits, n: nat, r: seq<Option<Bits>>, pos: nat)
    requires ReadSoFar(dr, n, r, pos, n)
    ensures r == Idcodes(dr, n)
  {}

  method ReadIdcodes(dr: Bits, n: nat) returns (r: seq<Option<Bits>>)
    ensures r == Idcodes(dr, n)
  {
    r := [];
    var pos: nat, i: nat := 0, 0;
    IdcodesStart(dr, n);
    while i < n
      invariant 0 <= i <= n && ReadSoFar(dr, n, r, pos, i)
    {
      IdcodesStep(dr, n, r, pos, i);
      var code;
      code, pos := ReadIdcode(dr, pos);
      r, i := r + [code], i + 1;
    }
    IdcodesEnd(dr, n, r, pos);
  }

  /** The code of the TAP whose DR starts at `pos`, and where the next one starts. */
  method ReadIdcode(dr: Bits, pos: nat) returns (code: Option<Bits>, next: nat)
    ensures code == CodeAt(dr, pos) && next == PosAfter(dr, pos)
  {
    if pos >= |dr| {
      code, next := None, pos;
    } else if dr[pos] {
      code, next := Some(dr[pos..if pos + 32 < |dr| then pos + 32 else |dr|]), pos + 32;
    } else {
      code, next := None, pos + 1;
    }
  }

  function TrueIdcodes(devs: seq<Device>): (r: seq<Option<Bits>>)
    ensures |r| == |devs|
  {
    seq(|devs|, i requires 0 <= i < |devs| => devs[i].idcode)
  }

  lemma {:induction false} IdcodesExact(devs: seq<Device>)
    requires forall i :: 0 <= i < |devs| ==> Compliant(devs[i])
    ensures Idcodes(ResetDrs(devs), |devs|) == TrueIdcodes(devs)
    decreases |devs|
  {
    if devs != [] {
      IdcodesExact(devs[1..]);
      var dr, rest := ResetDr(devs[0]), ResetDrs(devs[1..]);
      assert Compliant(devs[0]);
      assert (dr + rest)[..|dr|] == dr && (dr + rest)[|dr|..] == rest;
      assert TrueIdcodes(devs) == [devs[0].idcode] + TrueIdcodes(devs[1..]);
    }
  }

  // ----- IR lengths -----------------------------------------------------------------

  /** A position where a TAP's IR may start: a one followed by a zero or by the end. */
  predicate IsCut(ir: Bits, i: nat) {
    i < |ir| && ir[i] && (i + 1 == |ir| || !ir[i + 1])
  }

  predicate Increasing(r: seq<nat>) { forall k, m :: 0 <= k < m < |r| ==> r[k] < r[m] }

  function CutsFrom(ir: Bits, i: nat): (r: seq<nat>)
    requires i <= |ir|
    ensures forall k :: 0 <= k < |r| ==> i <= r[k] && IsCut(ir, r[k])
    ensures Increasing(r)
    ensures forall p :: i <= p && IsCut(ir, p) ==> p in r
    decreases |ir| - i
  {
    if i == |ir| then [] else (if IsCut(ir, i) then [i] else []) + CutsFrom(ir, i + 1)
  }

  /** Cut positions and the end. */
  function Cuts(ir: Bits): (r: seq<nat>)
    ensures r != [] && r[|r| - 1] == |ir| && Increasing(r)
  {
    CutsFrom(ir, 0) + [|ir|]
  }

  function Segments(cuts: seq<nat>): (r: seq<nat>)
    requires cuts != [] && Increasing(cuts)
    ensures |r| == |cuts| - 1 && Positive(r)
  {
    seq(|cuts| - 1, k requires 0 <= k < |cuts| - 1 => cuts[k + 1] - cuts[k])
  }

  /** Lengths `p` placed from `pos` on: every register starts at a cut and
      the last one ends with the captured IR. */
  predicate Places(p: seq<nat>, ir: Bits, pos: nat)
    decreases |p|
  {
    if p == [] then pos == |ir|
    else IsCut(ir, pos) && p[0] > 0 && Places(p[1..], ir, pos + p[0])
  }

  lemma {:induction false} SegmentSum(cuts: seq<nat>, k: nat, i: nat)
    requires cuts != [] && Increasing(cuts) && k + i < |cuts|
    ensures Sum(Segments(cuts)[k..][..i]) == cuts[k + i] - cuts[k]
    decreases i
  {
    var parts := Segments(cuts)[k..];
    if i == 0 {
      assert parts[..0] == [];
    } else {
      SegmentSum(cuts, k, i - 1);
      SumSnoc(parts, i - 1);
    }
  }

  /** Groupings of the segments are the placements at the cuts. */
  lemma {:induction false} GroupingIsPlacement(ir: Bits, k: nat, p: seq<nat>)
    requires k < |Cuts(ir)|
    ensures Grouping(p, Segments(Cuts(ir))[k..]) <==> Places(p, ir, Cuts(ir)[k])
  {
    CutsAreCuts(ir);
    PlacementAt(ir, Cuts(ir), k, p);
  }

  /** The places where registers may start, and the end. */
  ghost predicate AreCuts(ir: Bits, cuts: seq<nat>) {
    && cuts != [] && Increasing(cuts)
    && (forall k :: 0 <= k < |cuts| - 1 ==> IsCut(ir, cuts[k]))
    && (forall next :: IsCut(ir, next) ==> next in cuts)
    && cuts[|cuts| - 1] == |ir|
  }

  lemma {:induction false} CutsAreCuts(ir: Bits)
    ensures AreCuts(ir, Cuts(ir))
  {
    var cuts := Cuts(ir);
    forall k | 0 <= k < |cuts| - 1 ensures IsCut(ir, cuts[k]) { assert cuts[k] == CutsFrom(ir, 0)[k]; }
    forall next | IsCut(ir, next) ensures next in cuts { assert next in CutsFrom(ir, 0); }
  }

  lemma {:induction false} PlacementAt(ir: Bits, cuts: seq<nat>, k: nat, p: seq<nat>)
    requires AreCuts(ir, cuts) && k < |cuts|
    ensures Grouping(p, Segments(cuts)[k..]) <==> Places(p, ir, cuts[k])
    decreases |p|
  {
    var parts := Segments(cuts)[k..];
    if p != [] {
      GroupingTakes(p, parts);
      if Grouping(p, parts) {
        var j :| 1 <= j <= |parts| && Takes(p, parts, j);
        StepPlacement(ir, cuts, k, j, p);
      }
      if Places(p, ir, cuts[k]) {
        var j := CutAfter(ir, cuts, k, p);
        StepPlacement(ir, cuts, k, j, p);
        assert Takes(p, parts, j);
      }
    }
  }

  /** Taking j segments is moving to the j-th next cut. */
  lemma {:induction false} StepPlacement(ir: Bits, cuts: seq<nat>, k: nat, j: nat, p: seq<nat>)
    requires AreCuts(ir, cuts) && p != [] && 1 <= j && k + j < |cuts|
    ensures Takes(p, Segments(cuts)[k..], j) <==> cuts[k] + p[0] == cuts[k + j] && Places(p, ir, cuts[k])
    decreases |p|, 0
  {
    PlacementAt(ir, cuts, k + j, p[1..]);
    MoveSegments(ir, cuts, k, j, p);
  }

  lemma {:induction false} MoveSegments(ir: Bits, cuts: seq<nat>, k: nat, j: nat, p: seq<nat>)
    requires p != [] && 1 <= j && k + j < |cuts| && Increasing(cuts) && IsCut(ir, cuts[k])
    requires Grouping(p[1..], Segments(cuts)[k + j..]) <==> Places(p[1..], ir, cuts[k + j])
    ensures Takes(p, Segments(cuts)[k..], j) <==> cuts[k] + p[0] == cuts[k + j] && Places(p, ir, cuts[k])
  {
    SegmentSum(cuts, k, j);
    assert Segments(cuts)[k..][j..] == Segments(cuts)[k + j..];
    assert cuts[k] < cuts[k + j];
  }

  /** A placement that starts at a cut moves on to a cut or to the end. */
  lemma {:induction false} CutAfter(ir: Bits, cuts: seq<nat>, k: nat, p: seq<nat>) returns (j: nat)
    requires AreCuts(ir, cuts) && p != [] && k < |cuts| && Places(p, ir, cuts[k])
    ensures 1 <= j && k + j < |cuts| && cuts[k] + p[0] == cuts[k + j]
  {
    var next := cuts[k] + p[0];
    assert next == |ir| || IsCut(ir, next);
    assert next in cuts by { assert cuts[|cuts| - 1] == |ir|; }
    j := IndexAfter(cuts, k, next);
  }

  lemma {:induction false} IndexAfter(cuts: seq<nat>, k: nat, next: nat) returns (j: nat)
    requires Increasing(cuts) && k < |cuts| && cuts[k] < next && next in cuts
    ensures 1 <= j && k + j < |cuts| && next == cuts[k + j]
  {
    var m :| 0 <= m < |cuts| && cuts[m] == next;
    IncreasingIndex(cuts, k, m);
    j := m - k;
  }

  lemma {:induction false} IncreasingIndex(cuts: seq<nat>, k: nat, m: nat)
    requires Increasing(cuts) && k < |cuts| && m < |cuts| && cuts[k] < cuts[m]
    ensures k < m
  {}

  // ----- The probe -----------------------------------------------------------------

  /** Looks up the registered IR length of an IDCODE. */
  type Registry = Option<Bits> -> Option<nat>

  predicate Agrees(known: Registry, codes: seq<Option<Bits>>, p: seq<nat>)
    requires |codes| == |p|
  {
    forall i :: 0 <= i < |p| ==> known(codes[i]).Some? ==> known(codes[i]).value == p[i]
  }

  function Filter(known: Registry, codes: seq<Option<Bits>>, ps: seq<seq<nat>>): seq<seq<nat>> {
    if ps == [] then []
    else (if |ps[0]| == |codes| && Agrees(known, codes, ps[0]) then [ps[0]] else []) + Filter(known, codes, ps[1..])
  }

  function Zip(codes: seq<Option<Bits>>, p: seq<nat>): (r: seq<Slot>)
    requires |codes| == |p|
    ensures |r| == |p|
  {
    seq(|p|, i requires 0 <= i < |p| => Slot(codes[i], p[i]))
  }

  /** Inference from the three registers read back. */
  function Infer(known: Registry, resetDr: Bits, ir: Bits, count: nat): Result<seq<Slot>> {
    var codes := Idcodes(resetDr, count);
    var cuts := Cuts(ir);
    if |cuts| == 1 || cuts[0] != 0 then Err("captured IR does not start with 01")
    else
      var ps := Filter(known, codes, Merge([], Segments(cuts), count));
      if |ps| != 1 || |ps[0]| != count then Err("ambiguous IR lengths")
      else Ok(Zip(codes, ps[0]))
  }

  /** What the IRs hold once they were measured: the marker, then ones for every
      bit read back. */
  function LeftInIrs(irs: Bits, read: Bits): (r: Bits)
    ensures |r| == |irs|
  {
    ShiftIn(ShiftIn(irs, ProbeTdi(512)), Ones(|read|))
  }

  /** `__probe_chain_in_reset_state`: DR after reset, IR capture with BYPASS
      shifted back in, then DR again, with no more than two IR bits a TAP. */
  function Probe(devs: seq<Device>, known: Registry): Result<seq<Slot>> {
    var dr := Discover(ResetDrs(devs), 512);
    var irs := CapturedIrs(devs);
    var ir := Discover(irs, 512);
    if dr.Err? then Err(dr.reason)
    else if ir.Err? then Err(ir.reason)
    else
      var bypass := Discover(CapturedDrs(devs, LeftInIrs(irs, ir.value)), |ir.value| / 2);
      if bypass.Err? then Err(bypass.reason)
      else Infer(known, dr.value, ir.value, |bypass.value|)
  }

  function TrueLengths(devs: seq<Device>): (r: seq<nat>)
    ensures |r| == |devs|
  {
    seq(|devs|, i requires 0 <= i < |devs| => |devs[i].irCapture|)
  }

  function TrueSlots(devs: seq<Device>): seq<Slot> { Zip(TrueIdcodes(devs), TrueLengths(devs)) }

  // ----- Soundness --------------------------------------------------------------------

  lemma {:induction false} TruthPlaces(before: Bits, devs: seq<Device>)
    requires forall i :: 0 <= i < |devs| ==> Compliant(devs[i])
    ensures Places(TrueLengths(devs), before + CapturedIrs(devs), |before|)
    decreases |devs|
  {
    if devs != [] {
      var d := devs[0].irCapture;
      assert Compliant(devs[0]);
      TruthPlaces(before + d, devs[1..]);
      assert before + d + CapturedIrs(devs[1..]) == before + CapturedIrs(devs);
      assert TrueLengths(devs)[1..] == TrueLengths(devs[1..]);
      var ir := before + CapturedIrs(devs);
      assert ir[|before|] == d[0] && ir[|before| + 1] == d[1];
    }
  }

  /** Once every IR holds ones, each TAP puts one BYPASS bit in the chain. */
  lemma {:induction false} BypassDrs(devs: seq<Device>)
    requires forall i :: 0 <= i < |devs| ==> Compliant(devs[i])
    ensures CapturedDrs(devs, Ones(|CapturedIrs(devs)|)) == Zeros(|devs|)
    ensures 2 * |devs| <= |CapturedIrs(devs)|
    decreases |devs|
  {
    if devs != [] {
      BypassDrs(devs[1..]);
      assert Compliant(devs[0]);
      var n := |devs[0].irCapture|;
      var ones := Ones(|CapturedIrs(devs)|);
      assert ones[..n] == Ones(n) && ones[n..] == Ones(|CapturedIrs(devs[1..])|);
      assert [false] + Zeros(|devs| - 1) == Zeros(|devs|);
    }
  }

  lemma {:induction false} FilterKeeps(known: Registry, codes: seq<Option<Bits>>, ps: seq<seq<nat>>, p: seq<nat>)
    ensures p in Filter(known, codes, ps) <==> p in ps && |p| == |codes| && Agrees(known, codes, p)
    decreases |ps|
  {
    if ps != [] {
      FilterKeeps(known, codes, ps[1..], p);
    }
  }

  lemma {:induction false} FilterDistinct(known: Registry, codes: seq<Option<Bits>>, ps: seq<seq<nat>>)
    requires Distinct(ps)
    ensures Distinct(Filter(known, codes, ps))
    decreases |ps|
  {
    if ps != [] {
      FilterDistinct(known, codes, ps[1..]);
      var rest := Filter(known, codes, ps[1..]);
      forall x, y | x in [ps[0]] && y in rest
        ensures x != y
      {
        FilterKeeps(known, codes, ps[1..], y);
        var k :| 0 <= k < |ps[1..]| && ps[1..][k] == y;
        assert ps[0] != ps[k + 1];
      }
      DistinctConcat([ps[0]], rest);
      DistinctConcat([], rest);
    }
  }

  /** Lengths that the captured IR and the registry both allow. */
  predicate Compatible(known: Registry, codes: seq<Option<Bits>>, ir: Bits, p: seq<nat>) {
    |p| == |codes| && Places(p, ir, 0) && Agrees(known, codes, p)
  }

  /** The filtered enumeration lists the compatible lengths, each once. */
  lemma {:induction false} InferEnumerates(known: Registry, codes: seq<Option<Bits>>, ir: Bits)
    requires Cuts(ir)[0] == 0
    ensures var ps := Filter(known, codes, Merge([], Segments(Cuts(ir)), |codes|));
            Distinct(ps) && forall p :: p in ps <==> Compatible(known, codes, ir, p)
  {
    var all := Segments(Cuts(ir));
    var ps := Filter(known, codes, Merge([], all, |codes|));
    MergeDistinct([], all, |codes|);
    FilterDistinct(known, codes, Merge([], all, |codes|));
    forall p
      ensures p in ps <==> Compatible(known, codes, ir, p)
    {
      FilterKeeps(known, codes, Merge([], all, |codes|), p);
      MergeEnumerates([], all, |codes|, p);
      GroupingIsPlacement(ir, 0, p);
      assert all[0..] == all && p[0..] == p && p[..0] == [];
    }
  }

  lemma {:induction false} OnlyOne(ps: seq<seq<nat>>, truth: seq<nat>)
    requires Distinct(ps) && truth in ps
    ensures |ps| == 1 <==> forall p :: p in ps ==> p == truth
  {
    assert |ps| > 1 ==> ps[0] in ps && ps[1] in ps && ps[0] != ps[1];
  }

  /** No lengths other than the true ones are compatible with what was read. */
  ghost predicate Determined(devs: seq<Device>, known: Registry) {
    forall p :: Compatible(known, TrueIdcodes(devs), CapturedIrs(devs), p) ==> p == TrueLengths(devs)
  }

  ghost predicate Registered(devs: seq<Device>, known: Registry) {
    Agrees(known, TrueIdcodes(devs), TrueLengths(devs))
  }

  /** Compliant TAPs, registers no longer than the marker probes ask for, and
      true lengths in the registry. */
  ghost predicate InReach(devs: seq<Device>, known: Registry) {
    && (forall i :: 0 <= i < |devs| ==> Compliant(devs[i]))
    && |ResetDrs(devs)| <= 512 && |CapturedIrs(devs)| <= 512
    && Registered(devs, known)
  }

  lemma {:induction false} LeavesOnes(irs: Bits)
    ensures LeftInIrs(irs, irs) == Ones(|irs|)
  {}

  /** The instruction each TAP holds when the IR chain holds `ir`. */
  function HeldIrs(devs: seq<Device>, ir: Bits): (r: seq<Bits>)
    requires |ir| == |CapturedIrs(devs)|
    ensures |r| == |devs|
    decreases |devs|
  {
    if devs == [] then []
    else
      var n := |devs[0].irCapture|;
      [ir[..n]] + HeldIrs(devs[1..], ir[n..])
  }

  lemma {:induction false} HeldOnes(devs: seq<Device>, ir: Bits)
    requires ir == Ones(|CapturedIrs(devs)|)
    ensures forall i :: 0 <= i < |devs| ==> HeldIrs(devs, ir)[i] == Ones(|devs[i].irCapture|)
    decreases |devs|
  {
    if devs != [] {
      var n := |devs[0].irCapture|;
      assert ir[..n] == Ones(n) && ir[n..] == Ones(|CapturedIrs(devs[1..])|);
      HeldOnes(devs[1..], ir[n..]);
    }
  }

  /** A chain that was probed is left with every TAP in BYPASS. */
  lemma {:induction false} ProbeLeavesBypass(devs: seq<Device>)
    requires |CapturedIrs(devs)| <= 512
    ensures var read := Discover(CapturedIrs(devs), 512);
            && read.Ok?
            && var held := HeldIrs(devs, LeftInIrs(CapturedIrs(devs), read.value));
               forall i :: 0 <= i < |devs| ==> held[i] == Ones(|devs[i].irCapture|)
  {
    DiscoverExact(CapturedIrs(devs), 512);
    LeavesOnes(CapturedIrs(devs));
    HeldOnes(devs, Ones(|CapturedIrs(devs)|));
  }

  predicate RealSlots(slots: seq<Slot>) { forall i :: 0 <= i < |slots| ==> slots[i].irlen > 0 }

  /** Whatever the hardware, the slots found have instruction registers. */
  lemma {:induction false} ProbeFindsReal(devs: seq<Device>, known: Registry)
    ensures Probe(devs, known).Ok? ==> RealSlots(Probe(devs, known).value)
  {
    if Probe(devs, known).Ok? {
      var irs := CapturedIrs(devs);
      var ir := Discover(irs, 512).value;
      var n := |Discover(CapturedDrs(devs, LeftInIrs(irs, ir)), |ir| / 2).value|;
      InferFindsReal(known, Discover(ResetDrs(devs), 512).value, ir, n);
    }
  }

  lemma {:induction false} InferFindsReal(known: Registry, resetDr: Bits, ir: Bits, count: nat)
    requires Infer(known, resetDr, ir, count).Ok?
    ensures RealSlots(Infer(known, resetDr, ir, count).value)
  {
    var codes := Idcodes(resetDr, count);
    InferEnumerates(known, codes, ir);
    var ps := Filter(known, codes, Merge([], Segments(Cuts(ir)), count));
    assert ps[0] in ps;
    PlacesPositive(ps[0], ir, 0);
  }

  lemma {:induction false} PlacesPositive(p: seq<nat>, ir: Bits, pos: nat)
    requires Places(p, ir, pos)
    ensures forall i :: 0 <= i < |p| ==> p[i] > 0
    decreases |p|
  {
    if p != [] {
      PlacesPositive(p[1..], ir, pos + p[0]);
    }
  }

  /** Blind discovery is sound and as complete as the wire allows: on every
      compliant chain within reach, with truthful registered lengths, it
      returns exactly the true list of codes and lengths, in chain order,
      when no other lengths fit what was read, and raises otherwise. */
  lemma {:induction false} ProbeSound(devs: seq<Device>, known: Registry)
    requires InReach(devs, known)
    ensures Probe(devs, known).Ok? ==> Probe(devs, known).value == TrueSlots(devs)
    ensures Probe(devs, known).Ok? <==> devs != [] && Determined(devs, known)
  {
    var irs := CapturedIrs(devs);
    DiscoverExact(ResetDrs(devs), 512);
    DiscoverExact(irs, 512);
    LeavesOnes(irs);
    BypassDrs(devs);
    DiscoverExact(Zeros(|devs|), |irs| / 2);
    IdcodesExact(devs);
    InferSound(devs, known, TrueIdcodes(devs), irs);
  }

  lemma {:induction false} InferSound(devs: seq<Device>, known: Registry, codes: seq<Option<Bits>>, ir: Bits)
    requires forall i :: 0 <= i < |devs| ==> Compliant(devs[i])
    requires Registered(devs, known)
    requires codes == TrueIdcodes(devs) == Idcodes(ResetDrs(devs), |devs|) && ir == CapturedIrs(devs)
    ensures var r := Infer(known, ResetDrs(devs), ir, |devs|);
            && (r.Ok? ==> r.value == TrueSlots(devs))
            && (r.Ok? <==> devs != [] && Determined(devs, known))
  {
    var truth, cuts := TrueLengths(devs), Cuts(ir);
    if devs == [] {
      assert CutsFrom(ir, 0) == [];
    } else {
      TruthCompatible(devs, known, codes, ir);
      InferEnumerates(known, codes, ir);
      Decided(devs, known, Filter(known, codes, Merge([], Segments(cuts), |codes|)), truth);
    }
  }

  lemma {:induction false} TruthCompatible(devs: seq<Device>, known: Registry, codes: seq<Option<Bits>>, ir: Bits)
    requires devs != [] && (forall i :: 0 <= i < |devs| ==> Compliant(devs[i])) && Registered(devs, known)
    requires codes == TrueIdcodes(devs) && ir == CapturedIrs(devs)
    ensures Compatible(known, codes, ir, TrueLengths(devs)) && |Cuts(ir)| > 1 && Cuts(ir)[0] == 0
  {
    TruthPlaces([], devs);
    assert [] + ir == ir;
    assert IsCut(ir, 0) && 0 in CutsFrom(ir, 0);
    FirstCut(ir);
  }

  lemma {:induction false} Decided(devs: seq<Device>, known: Registry, ps: seq<seq<nat>>, truth: seq<nat>)
    requires truth == TrueLengths(devs) && Distinct(ps)
    requires forall p :: p in ps <==> Compatible(known, TrueIdcodes(devs), CapturedIrs(devs), p)
    requires Compatible(known, TrueIdcodes(devs), CapturedIrs(devs), truth)
    ensures |ps| == 1 <==> Determined(devs, known)
    ensures |ps| == 1 ==> ps[0] == truth
  {
    OnlyOne(ps, truth);
    assert Determined(devs, known) <==> forall p :: p in ps ==> p == truth;
    assert |ps| == 1 ==> ps[0] in ps;
  }

  lemma {:induction false} FirstCut(ir: Bits)
    requires IsCut(ir, 0)
    ensures |Cuts(ir)| > 1 && Cuts(ir)[0] == 0
  {}
}
