/** The residue check: a frame is valid exactly when its tail is the CRC of
    the rest (appendix C.2 of RFC 1662). */
module CrcResidue {
  import opened BitSequences
  import opened Octets
  import opened Gf2
  import opened Crc
  import opened CrcBytes

  function ByteWidth(c: Params): nat { (c.order + 7) / 8 }

  /** Eight bits per byte, first byte least significant. */
  function Chunks(bits: Bits): (r: seq<Octet>)
    requires |bits| % 8 == 0
    ensures |r| == |bits| / 8
  {
    if bits == [] then [] else [bits[..8]] + Chunks(bits[8..])
  }

  lemma {:induction false} ChunksBits(bits: Bits)
    requires |bits| % 8 == 0
    ensures DataBits(Chunks(bits), true) == bits
    decreases |bits|
  {
    if bits != [] {
      ChunksBits(bits[8..]);
      assert Chunks(bits)[1..] == Chunks(bits[8..]);
    }
  }

  /** `as_bytes`: the state as an integer, mirrored if asked, in bytes. */
  function AsBytes(c: Params, s: Bits): (r: seq<Octet>)
    requires IsState(c, s)
    ensures |r| == ByteWidth(c)
  {
    var value := if c.spillBitswap then Rev(s) else s;
    var little := Chunks(value + Zeros(8 * ByteWidth(c) - c.order));
    if c.spillLittle then little else Reversed(little)
  }

  function CheckState(c: Params): (r: Bits)
    requires Valid(c)
    ensures IsState(c, r)
  {
    Update(c, c.init, AsBytes(c, c.init))
  }

  function Calc(c: Params, data: seq<Octet>): (r: seq<Octet>)
    requires Valid(c)
    ensures |r| == ByteWidth(c)
  {
    AsBytes(c, Update(c, c.init, data))
  }

  predicate IsValid(c: Params, frame: seq<Octet>)
    requires Valid(c)
  {
    Update(c, c.init, frame) == CheckState(c)
  }

  /** The spilled bytes enter the register with the highest coefficient first. */
  predicate SpillsInOrder(c: Params) {
    && c.order % 8 == 0
    && ((c.popLsb && c.spillLittle && c.spillBitswap == c.order0AtLsb)
        || (!c.popLsb && !c.spillLittle && c.spillBitswap != c.order0AtLsb))
  }

  lemma {:induction false} SpilledBits(c: Params, s: Bits)
    requires IsState(c, s) && SpillsInOrder(c)
    ensures DataBits(AsBytes(c, s), c.popLsb) == Rev(Norm(c, s))
  {
    var value := if c.spillBitswap then Rev(s) else s;
    NoPadding(c, value);
    ChunkedBits(value, c.spillLittle);
    RevTwice(s);
  }

  /** An order of whole bytes needs no padding. */
  lemma {:induction false} NoPadding(c: Params, value: Bits)
    requires c.order % 8 == 0 && |value| == c.order
    ensures 8 * ByteWidth(c) == c.order && value + Zeros(8 * ByteWidth(c) - c.order) == value
  {
    var q := c.order / 8;
    assert c.order + 7 == 8 * q + 7;
  }

  lemma {:induction false} ChunkedBits(value: Bits, little: bool)
    requires |value| % 8 == 0
    ensures DataBits(if little then Chunks(value) else Reversed(Chunks(value)), little) ==
            if little then value else Rev(value)
  {
    ChunksBits(value);
    ReversedBits(Chunks(value), true);
  }

  function InputComp(c: Params): Bits { seq(c.order, _ => c.complementInput) }

  lemma {:induction false} NotBits(data: seq<Octet>, popLsb: bool)
    ensures DataBits(Not(data), popLsb) == Xor(seq(8 * |data|, _ => true), DataBits(data, popLsb))
    decreases |data|
  {
    if data != [] {
      assert Not(data)[1..] == Not(data[1..]);
      NotBits(data[1..], popLsb);
      var ones := seq(8, _ => true);
      assert Iterate(Complement(data[0]), popLsb) == Xor(ones, Iterate(data[0], popLsb));
      XorConcat(ones, DataBits(data[1..], popLsb), Iterate(data[0], popLsb), DataBits(data[1..], popLsb));
      assert seq(8 * |data|, _ => true) == ones + seq(8 * |data[1..]|, _ => true);
    }
  }

  lemma {:induction false} TailInput(c: Params, tail: seq<Octet>)
    requires 8 * |tail| == c.order
    ensures InputBits(c, tail) == Xor(InputComp(c), DataBits(tail, c.popLsb))
  {
    NotBits(tail, c.popLsb);
    XorZero(DataBits(tail, c.popLsb));
    assert !c.complementInput ==> InputComp(c) == Zeros(c.order);
  }

  /** A full register width of input from state comp ^ s. */
  lemma {:induction false} TailRun(c: Params, s: Bits, tail: seq<Octet>)
    requires Valid(c) && IsState(c, s) && 8 * |tail| == c.order
    ensures Norm(c, ForwardBits(c, Xor(StateComp(c), s), InputBits(c, tail))) ==
            Power(LowPoly(c),
                  Xor(Xor(StateComp(c), Norm(c, s)), Xor(InputComp(c), Rev(DataBits(tail, c.popLsb)))),
                  c.order)
  {
    var z, bits := Xor(StateComp(c), s), InputBits(c, tail);
    ForwardBitsIsFeedAll(c, z, bits);
    FeedAligned(LowPoly(c), Norm(c, z), bits);
    NormComp(c, s);
    TailAligned(c, tail);
  }

  lemma {:induction false} NormComp(c: Params, s: Bits)
    requires IsState(c, s)
    ensures Norm(c, Xor(StateComp(c), s)) == Xor(StateComp(c), Norm(c, s))
  {
    NormXor(c, StateComp(c), s);
    assert Norm(c, StateComp(c)) == StateComp(c);
  }

  lemma {:induction false} TailAligned(c: Params, tail: seq<Octet>)
    requires 8 * |tail| == c.order
    ensures Aligned(c.order, InputBits(c, tail)) == Xor(InputComp(c), Rev(DataBits(tail, c.popLsb)))
  {
    TailInput(c, tail);
    var bits := InputBits(c, tail);
    assert Zeros(0) + Rev(bits) == Rev(bits);
    RevXor(InputComp(c), DataBits(tail, c.popLsb));
    assert Rev(InputComp(c)) == InputComp(c);
  }

  lemma {:induction false} XorSolve(k: Bits, a: Bits, i: Bits, d: Bits)
    requires |k| == |a| == |i| == |d|
    ensures Xor(Xor(k, a), Xor(i, d)) == Xor(k, i) <==> a == d
  {
    assert a == d ==> Xor(Xor(k, a), Xor(i, d)) == Xor(k, i);
    if Xor(Xor(k, a), Xor(i, d)) == Xor(k, i) {
      forall j | 0 <= j < |a| ensures a[j] == d[j] {
        assert Xor(Xor(k, a), Xor(i, d))[j] == Xor(k, i)[j];
      }
    }
  }

  /** Reaching the check state says the tail is the spilled state. */
  lemma {:induction false} TailReachesCheck(c: Params, s: Bits, tail: seq<Octet>)
    requires Valid(c) && SpillsInOrder(c) && IsState(c, s) && |tail| == ByteWidth(c)
    ensures Update(c, s, tail) == CheckState(c) <==> tail == AsBytes(c, s)
  {
    var k, i, lp := StateComp(c), InputComp(c), LowPoly(c);
    var a, d := Norm(c, s), Rev(DataBits(tail, c.popLsb));
    var e := Norm(c, c.init);
    assert 8 * |tail| == c.order;
    TailRun(c, s, tail);
    TailRun(c, c.init, AsBytes(c, c.init));
    SpilledBits(c, c.init);
    RevTwice(e);
    XorSolve(k, e, i, e);
    XorSolve(k, a, i, d);
    var x := ForwardBits(c, Xor(k, s), InputBits(c, tail));
    var y := ForwardBits(c, Xor(k, c.init), InputBits(c, AsBytes(c, c.init)));
    PowerInjective(lp, Xor(Xor(k, a), Xor(i, d)), Xor(k, i), c.order);
    NormInjective(c, x, y);
    XorBack(k, x);
    XorBack(k, y);
    TailIsSpill(c, s, tail);
  }

  lemma {:induction false} TailIsSpill(c: Params, s: Bits, tail: seq<Octet>)
    requires Valid(c) && SpillsInOrder(c) && IsState(c, s) && |tail| == ByteWidth(c)
    ensures Norm(c, s) == Rev(DataBits(tail, c.popLsb)) <==> tail == AsBytes(c, s)
  {
    SpilledBits(c, s);
    RevTwice(Norm(c, s));
    RevTwice(DataBits(tail, c.popLsb));
    if Norm(c, s) == Rev(DataBits(tail, c.popLsb)) {
      DataBitsInjective(tail, AsBytes(c, s), c.popLsb);
    }
  }

  lemma {:induction false} UpdateConcat(c: Params, s: Bits, a: seq<Octet>, b: seq<Octet>)
    requires Valid(c) && IsState(c, s)
    ensures Update(c, s, a + b) == Update(c, Update(c, s, a), b)
  {
    var k := StateComp(c);
    var m := ForwardBits(c, Xor(k, s), InputBits(c, a));
    InputConcat(c, a, b);
    Then(c, Xor(k, s), InputBits(c, a), InputBits(c, b), InputBits(c, a + b), m);
    XorBack(k, m);
  }

  lemma {:induction false} InputConcat(c: Params, a: seq<Octet>, b: seq<Octet>)
    ensures InputBits(c, a + b) == InputBits(c, a) + InputBits(c, b)
  {
    assert Not(a + b) == Not(a) + Not(b);
    DataBitsConcat(a, b, c.popLsb);
    DataBitsConcat(Not(a), Not(b), c.popLsb);
  }

  /** A frame at least as long as the CRC is valid if and only if its last
      bytes are the CRC of the rest: no corrupted tail passes and no correct
      one fails, for every polynomial whose spill order matches its feed order. */
  lemma {:induction false} ValidIffTailIsCrc(c: Params, frame: seq<Octet>)
    requires Valid(c) && SpillsInOrder(c) && |frame| >= ByteWidth(c)
    ensures var n := |frame| - ByteWidth(c);
            IsValid(c, frame) <==> frame[n..] == Calc(c, frame[..n])
  {
    var n := |frame| - ByteWidth(c);
    assert frame == frame[..n] + frame[n..];
    UpdateConcat(c, c.init, frame[..n], frame[n..]);
    TailReachesCheck(c, Update(c, c.init, frame[..n]), frame[n..]);
  }

  /** The parameters registered as "hdlc": poly 0x10811, init 0, LSB first,
      order 0 at the top, complemented state, little endian spill. */
  function Hdlc(): Params {
    Params(16,
           [true, false, false, false, true, false, false, false,
            false, false, false, true, false, false, false, false, true],
           Zeros(16), true, false, false, true, false, true)
  }

  lemma {:induction false} HdlcParams()
    ensures Valid(Hdlc()) && SpillsInOrder(Hdlc()) && ByteWidth(Hdlc()) == 2
  {}
}
