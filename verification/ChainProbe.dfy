/** What the blind probe makes of any chain, within its reach or not. */
module ChainProbe {
  import opened BitSequences
  import opened Wrappers
  import opened ScanChain
  import opened IrMerge
  import opened ChainDiscovery
  import N = BitStrings

  // ----- One register ---------------------------------------------------------------------

  /** The first `m + 32` bits out of a register while the marker and zeros go in. */
  function Seen(reg: Bits, m: nat): (r: Bits)
    ensures |r| == m + 32
  {
    (reg + N.LowBits(0xc05a5a03, 32) + Zeros(m))[..m + 32]
  }

  /** They are `r`, the marker, and zeros only. */
  predicate Shows(reg: Bits, m: nat, r: Bits) {
    |r| <= m && Seen(reg, m) == r + N.LowBits(0xc05a5a03, 32) + Zeros(m - |r|)
  }

  /** A register of any length is answered with `r` if and only if `r`, the marker and
      zeros came out. */
  lemma {:induction false} DiscoverIff(reg: Bits, m: nat, r: Bits)
    ensures Discover(reg, m) == Ok(r) <==> Shows(reg, m, r)
  {
    var tdo := SeenByDiscover(reg, m);
    MarkerWord();
    FoundIff(tdo, m, r);
  }

  lemma {:induction false} FoundIff(tdo: Bits, m: nat, r: Bits)
    requires |tdo| == m + 32
    ensures Found(tdo) == Ok(r) <==> |r| <= m && tdo == r + MARKER + Zeros(m - |r|)
  {
    if |r| <= m && tdo == r + MARKER + Zeros(m - |r|) {
      FoundExact(tdo, r, m - |r|);
    }
    if Found(tdo) == Ok(r) {
      FoundIsShown(tdo, m, r);
    }
  }

  /** Otherwise by what came out: zeros only, ones only, or neither. */
  lemma {:induction false} DiscoverFails(reg: Bits, m: nat)
    requires forall r :: !Shows(reg, m, r)
    ensures Discover(reg, m) == Err(
      if Seen(reg, m) == Zeros(m + 32) then "TDO stuck low"
      else if Seen(reg, m) == Ones(m + 32) then "TDO stuck high"
      else "marker not received back")
  {
    var tdo := SeenByDiscover(reg, m);
    NoBitLength(tdo);
    if Discover(reg, m).Ok? {
      DiscoverIff(reg, m, Discover(reg, m).value);
    }
  }

  lemma {:induction false} SeenByDiscover(reg: Bits, m: nat) returns (tdo: Bits)
    ensures tdo == Seen(reg, m) == ShiftOut(reg, ProbeTdi(m))[..m + 32]
  {
    MarkerWord();
    tdo := Seen(reg, m);
    SamePrefix(reg, MARKER, m, tdo);
  }

  lemma {:induction false} SamePrefix(reg: Bits, marker: Bits, m: nat, tdo: Bits)
    requires |marker| == 32 && tdo == (reg + marker + Zeros(m))[..m + 32]
    ensures (reg + (marker + Zeros(m + 4)))[..m + 32] == tdo
  {
    var a, b := reg + (marker + Zeros(m + 4)), reg + marker + Zeros(m);
    forall i | 0 <= i < m + 32 ensures a[i] == b[i] {
      if i >= |reg| + 32 {
        assert !a[i] && !b[i];
      }
    }
  }

  lemma {:induction false} NoBitLength(bits: Bits)
    ensures BitLength(bits) == 0 <==> bits == Zeros(|bits|)
    decreases |bits|
  {
    if bits != [] {
      var n := |bits| - 1;
      NoBitLength(bits[..n]);
      assert bits == bits[..n] + [bits[n]];
      assert Zeros(n + 1) == Zeros(n) + [false];
      assert bits == Zeros(n + 1) ==> bits[n] == Zeros(n + 1)[n] && bits[..n] == Zeros(n + 1)[..n] == Zeros(n);
    }
  }

  lemma {:induction false} FoundIsShown(tdo: Bits, m: nat, r: Bits)
    requires |tdo| == m + 32
    requires var n := BitLength(tdo); n >= 32 && tdo[n - 32..n] == MARKER && r == tdo[..n - 32]
    ensures |r| <= m && tdo == r + MARKER + Zeros(m - |r|)
  {
    var n := BitLength(tdo);
    ZerosAbove(tdo);
    assert tdo == tdo[..n - 32] + tdo[n - 32..n] + tdo[n..];
  }

  lemma {:induction false} ZerosAbove(bits: Bits)
    ensures bits[BitLength(bits)..] == Zeros(|bits| - BitLength(bits))
    decreases |bits|
  {
    if bits != [] && !bits[|bits| - 1] {
      var n := |bits| - 1;
      ZerosAbove(bits[..n]);
      assert bits[BitLength(bits)..] == bits[..n][BitLength(bits)..] + [bits[n]];
    }
  }

  /** What is shifted in: the marker, and four zeros more than are looked at. */
  lemma {:induction false} ProbeShifts(m: nat)
    ensures ProbeTdi(m) == N.LowBits(0xc05a5a03, 32) + Zeros(m + 4)
  {
    MarkerWord();
  }

  // ----- The marker -------------------------------------------------------------------------

  predicate LowBytes(bits: Bits)
    requires |bits| == 32
  {
    && bits[0] && bits[1] && !bits[2] && !bits[3] && !bits[4] && !bits[5] && !bits[6] && !bits[7]
    && !bits[8] && bits[9] && !bits[10] && bits[11] && bits[12] && !bits[13] && bits[14] && !bits[15]
  }

  predicate HighBytes(bits: Bits)
    requires |bits| == 32
  {
    && !bits[16] && bits[17] && !bits[18] && bits[19] && bits[20] && !bits[21] && bits[22] && !bits[23]
    && !bits[24] && !bits[25] && !bits[26] && !bits[27] && !bits[28] && !bits[29] && bits[30] && bits[31]
  }

  /** The marker is 0xc05a5a03 from its lowest bit on. */
  lemma {:induction false} MarkerWord()
    ensures MARKER == N.LowBits(0xc05a5a03, 32)
  {
    MarkerBytes();
    WordBits(MARKER, 0xc05a5a03);
  }

  lemma {:induction false} MarkerBytes()
    ensures |MARKER| == 32 && LowBytes(MARKER) && HighBytes(MARKER)
  {
    MarkerLow();
    MarkerHigh();
  }

  lemma {:induction false} MarkerLow()
    ensures |MARKER| == 32 && LowBytes(MARKER)
  {}

  lemma {:induction false} MarkerHigh()
    ensures |MARKER| == 32 && HighBytes(MARKER)
  {}

  lemma {:induction false} WordBits(bits: Bits, word: nat)
    requires |bits| == 32 && LowBytes(bits) && HighBytes(bits) && word == 0xc05a5a03
    ensures bits == N.LowBits(word, 32)
  {
    MarkerValue(bits);
    N.ValueRoundTrip(bits);
  }

  lemma {:induction false} MarkerValue(bits: Bits)
    requires |bits| == 32 && LowBytes(bits) && HighBytes(bits)
    ensures N.Value(bits) == 0xc05a5a03
  {
    LowHalf(bits);
    HighHalf(bits);
  }

  lemma {:induction false} LowHalf(bits: Bits)
    requires |bits| == 32 && LowBytes(bits)
    ensures N.Value(bits) == 0x5a03 + 0x10000 * N.Value(bits[16..])
  {
    N.DigitAt(bits, 12, 0x5);
    N.DigitAt(bits, 8, 0xa);
    N.DigitAt(bits, 4, 0x0);
    N.DigitAt(bits, 0, 0x3);
    assert bits[0..] == bits;
  }

  lemma {:induction false} HighHalf(bits: Bits)
    requires |bits| == 32 && HighBytes(bits)
    ensures N.Value(bits[16..]) == 0xc05a
  {
    N.DigitAt(bits, 28, 0xc);
    N.DigitAt(bits, 24, 0x0);
    N.DigitAt(bits, 20, 0x5);
    N.DigitAt(bits, 16, 0xa);
    assert bits[32..] == [];
  }

  // ----- The probe -----------------------------------------------------------------------------

  function Lengths(v: seq<Slot>): (p: seq<nat>)
    ensures |p| == |v|
  {
    seq(|v|, i requires 0 <= i < |v| => v[i].irlen)
  }

  /** `v` has these codes, its lengths are compatible with the IR captured, and no
      others are. */
  ghost predicate OnlyFit(known: Registry, codes: seq<Option<Bits>>, ir: Bits, v: seq<Slot>) {
    && |v| == |codes| && (forall i :: 0 <= i < |v| ==> v[i].idcode == codes[i])
    && Compatible(known, codes, ir, Lengths(v))
    && forall p :: Compatible(known, codes, ir, p) ==> p == Lengths(v)
  }

  /** The inference succeeds if and only if the IR starts with a one and a zero and one
      list of lengths fits, and finds that. */
  lemma {:induction false} InferIff(known: Registry, dr: Bits, ir: Bits, n: nat, v: seq<Slot>)
    ensures Infer(known, dr, ir, n) == Ok(v) <==> IsCut(ir, 0) && OnlyFit(known, Idcodes(dr, n), ir, v)
  {
    var codes := Idcodes(dr, n);
    CutsAreCuts(ir);
    if IsCut(ir, 0) {
      FirstCut(ir);
      InferEnumerates(known, codes, ir);
      OneIsOnly(known, codes, ir, Filter(known, codes, Merge([], Segments(Cuts(ir)), n)), v);
    }
  }

  lemma {:induction false} OneIsOnly(known: Registry, codes: seq<Option<Bits>>, ir: Bits, ps: seq<seq<nat>>, v: seq<Slot>)
    requires Distinct(ps) && forall p :: p in ps <==> Compatible(known, codes, ir, p)
    ensures (|ps| == 1 && |ps[0]| == |codes| && v == Zip(codes, ps[0])) <==> OnlyFit(known, codes, ir, v)
  {
    if OnlyFit(known, codes, ir, v) {
      OnlyOne(ps, Lengths(v));
      assert ps[0] in ps;
      assert v == Zip(codes, Lengths(v));
    }
    if |ps| == 1 && |ps[0]| == |codes| && v == Zip(codes, ps[0]) {
      OnlyOne(ps, ps[0]);
      assert Lengths(v) == ps[0] && ps[0] in ps;
    }
  }

  /** The three registers as they were read: after reset, the captured IRs, and BYPASS. */
  predicate Reads(devs: seq<Device>, dr: Bits, ir: Bits, bypass: Bits) {
    && Shows(ResetDrs(devs), 512, dr) && Shows(CapturedIrs(devs), 512, ir)
    && Shows(CapturedDrs(devs, LeftInIrs(CapturedIrs(devs), ir)), |ir| / 2, bypass)
  }

  /** On any chain whatever the probe returns `v` if and only if the marker came back
      from all three registers and `v` is the only list that fits them. */
  lemma {:induction false} ProbeIff(devs: seq<Device>, known: Registry, v: seq<Slot>)
    ensures Probe(devs, known) == Ok(v) <==>
      exists dr, ir, bypass :: Reads(devs, dr, ir, bypass) && IsCut(ir, 0) && OnlyFit(known, Idcodes(dr, |bypass|), ir, v)
  {
    var irs := CapturedIrs(devs);
    if Probe(devs, known) == Ok(v) {
      var dr, ir := Discover(ResetDrs(devs), 512).value, Discover(irs, 512).value;
      var bypass := Discover(CapturedDrs(devs, LeftInIrs(irs, ir)), |ir| / 2).value;
      ReadsIff(devs, dr, ir, bypass);
      InferIff(known, dr, ir, |bypass|, v);
    }
    if dr, ir, bypass :| Reads(devs, dr, ir, bypass) && IsCut(ir, 0) && OnlyFit(known, Idcodes(dr, |bypass|), ir, v) {
      ReadsIff(devs, dr, ir, bypass);
      InferIff(known, dr, ir, |bypass|, v);
    }
  }

  lemma {:induction false} ReadsIff(devs: seq<Device>, dr: Bits, ir: Bits, bypass: Bits)
    ensures Reads(devs, dr, ir, bypass) <==>
      && Discover(ResetDrs(devs), 512) == Ok(dr) && Discover(CapturedIrs(devs), 512) == Ok(ir)
      && Discover(CapturedDrs(devs, LeftInIrs(CapturedIrs(devs), ir)), |ir| / 2) == Ok(bypass)
  {
    DiscoverIff(ResetDrs(devs), 512, dr);
    DiscoverIff(CapturedIrs(devs), 512, ir);
    DiscoverIff(CapturedDrs(devs, LeftInIrs(CapturedIrs(devs), ir)), |ir| / 2, bypass);
  }

  /** Compliant TAPs, IRs within reach, and at least one of them; codes of any length. */
  ghost predicate Wired(devs: seq<Device>) {
    devs != [] && (forall i :: 0 <= i < |devs| ==> Compliant(devs[i])) && |CapturedIrs(devs)| <= 512
  }

  /** `dr` was read for the codes after reset, and `v` is the only list it leaves. */
  ghost predicate Leaves(devs: seq<Device>, known: Registry, dr: Bits, v: seq<Slot>) {
    Shows(ResetDrs(devs), 512, dr) && OnlyFit(known, Idcodes(dr, |devs|), CapturedIrs(devs), v)
  }

  /** A compliant chain, whether its codes fit or not: the probe returns what the bits
      in front of a marker received leave as the only list, and raises without one. */
  lemma {:induction false} LongResetIff(devs: seq<Device>, known: Registry, v: seq<Slot>)
    requires Wired(devs)
    ensures Probe(devs, known) == Ok(v) <==> exists dr :: Leaves(devs, known, dr, v)
  {
    if Probe(devs, known) == Ok(v) {
      var dr := LeavesFound(devs, known, v);
    }
    if dr :| Leaves(devs, known, dr, v) {
      LeavesReturned(devs, known, dr, v);
    }
  }

  /** Codes that fill the probe hide its marker: one is received only if it is among
      their own bits, with zeros behind it. */
  lemma {:induction false} LongResetShows(devs: seq<Device>, dr: Bits)
    requires |ResetDrs(devs)| >= 544
    ensures Shows(ResetDrs(devs), 512, dr) <==>
      |dr| <= 512 && ResetDrs(devs)[..544] == dr + N.LowBits(0xc05a5a03, 32) + Zeros(512 - |dr|)
  {
    assert Seen(ResetDrs(devs), 512) == ResetDrs(devs)[..544];
  }

  lemma {:induction false} LeavesFound(devs: seq<Device>, known: Registry, v: seq<Slot>) returns (dr: Bits)
    requires Wired(devs) && Probe(devs, known) == Ok(v)
    ensures Leaves(devs, known, dr, v)
  {
    ProbeIff(devs, known, v);
    var ir, bypass;
    dr, ir, bypass :| Reads(devs, dr, ir, bypass) && IsCut(ir, 0) && OnlyFit(known, Idcodes(dr, |bypass|), ir, v);
    ReadsIff(devs, dr, ir, bypass);
    ReadsOnly(devs, dr, ir, bypass);
  }

  lemma {:induction false} LeavesReturned(devs: seq<Device>, known: Registry, dr: Bits, v: seq<Slot>)
    requires Wired(devs) && Leaves(devs, known, dr, v)
    ensures Probe(devs, known) == Ok(v)
  {
    var ir, bypass := CapturedIrs(devs), Zeros(|devs|);
    ReadsCompliant(devs, dr);
    FirstIsCut(devs);
    assert Reads(devs, dr, ir, bypass) && IsCut(ir, 0) && OnlyFit(known, Idcodes(dr, |bypass|), ir, v);
    ProbeIff(devs, known, v);
  }

  lemma {:induction false} FirstIsCut(devs: seq<Device>)
    requires Wired(devs)
    ensures IsCut(CapturedIrs(devs), 0)
  {
    assert Compliant(devs[0]);
  }

  lemma {:induction false} ReadsCompliant(devs: seq<Device>, dr: Bits)
    requires (forall i :: 0 <= i < |devs| ==> Compliant(devs[i])) && |CapturedIrs(devs)| <= 512
    ensures Reads(devs, dr, CapturedIrs(devs), Zeros(|devs|)) <==> Shows(ResetDrs(devs), 512, dr)
  {
    var irs := CapturedIrs(devs);
    DiscoverExact(irs, 512);
    LeavesOnes(irs);
    BypassDrs(devs);
    DiscoverExact(Zeros(|devs|), |irs| / 2);
    DiscoverIff(irs, 512, irs);
    DiscoverIff(Zeros(|devs|), |irs| / 2, Zeros(|devs|));
  }

  lemma {:induction false} ReadsOnly(devs: seq<Device>, dr: Bits, ir: Bits, bypass: Bits)
    requires (forall i :: 0 <= i < |devs| ==> Compliant(devs[i])) && |CapturedIrs(devs)| <= 512
    requires Discover(CapturedIrs(devs), 512) == Ok(ir)
    requires Discover(CapturedDrs(devs, LeftInIrs(CapturedIrs(devs), ir)), |ir| / 2) == Ok(bypass)
    ensures ir == CapturedIrs(devs) && bypass == Zeros(|devs|)
  {
    var irs := CapturedIrs(devs);
    DiscoverExact(irs, 512);
    LeavesOnes(irs);
    BypassDrs(devs);
    DiscoverExact(Zeros(|devs|), |irs| / 2);
  }

  // ----- Codes ------------------------------------------------------------------------------

  /** Codes and the register they were read off: a code is 32 bits that start with a one,
      fewer where the register ends; without code a TAP shows one zero; and TAPs past the
      end of the register have none. */
  predicate Spells(dr: Bits, codes: seq<Option<Bits>>)
    decreases |codes|
  {
    if codes == [] then true
    else if dr == [] then codes[0].None? && Spells([], codes[1..])
    else match codes[0]
      case None => dr[..1] == [false] && Spells(dr[1..], codes[1..])
      case Some(code) =>
        && code != [] && code[0] && |code| <= |dr| && dr[..|code|] == code
        && (|code| == 32 || (|code| < 32 && |code| == |dr|)) && Spells(dr[|code|..], codes[1..])
  }

  /** The codes read off a register are the only ones it spells. */
  lemma {:induction false} IdcodesIff(dr: Bits, n: nat, codes: seq<Option<Bits>>)
    ensures Idcodes(dr, n) == codes <==> |codes| == n && Spells(dr, codes)
    decreases n
  {
    if n > 0 && codes != [] {
      var first, rest := FirstCode(dr), Behind(dr);
      assert codes == [codes[0]] + codes[1..];
      IdcodesCons(dr, n);
      IdcodesIff(rest, n - 1, codes[1..]);
      SpellsFirst(dr, codes, first, rest);
    }
  }

  function FirstCode(dr: Bits): Option<Bits> {
    if dr == [] || !dr[0] then None else Some(dr[..if |dr| < 32 then |dr| else 32])
  }

  function Behind(dr: Bits): Bits {
    if dr == [] then [] else if !dr[0] then dr[1..] else dr[if |dr| < 32 then |dr| else 32..]
  }

  lemma {:induction false} IdcodesCons(dr: Bits, n: nat)
    requires n > 0
    ensures Idcodes(dr, n) == [FirstCode(dr)] + Idcodes(Behind(dr), n - 1)
  {}

  lemma {:induction false} SpellsFirst(dr: Bits, codes: seq<Option<Bits>>, first: Option<Bits>, rest: Bits)
    requires codes != [] && first == FirstCode(dr) && rest == Behind(dr)
    ensures Spells(dr, codes) <==> codes[0] == first && Spells(rest, codes[1..])
  {
    if dr != [] {
      assert dr[..1] == [dr[0]];
      if codes[0].Some? && codes[0].value != [] && |codes[0].value| <= |dr| && dr[..|codes[0].value|] == codes[0].value {
        assert codes[0].value[0] == dr[0];
      }
    }
  }
}
