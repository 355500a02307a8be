/** What the polynomial and the flags of a CRC come to: the register holds a
    remainder, the state is complemented, input and spilled bytes bit by bit. */
module CrcFlags {
  import opened BitSequences
  import opened Octets
  import opened Gf2
  import opened Crc
  import opened CrcBytes
  import opened CrcResidue
  import N = BitStrings

  // ----- Long division -----------------------------------------------------------------------

  /** The product of two polynomials, highest coefficients first; `p` has degree `n`. */
  function Product(q: Bits, p: Bits, n: nat): (r: Bits)
    requires |p| == n + 1
    ensures |r| == |q| + n
    decreases |q|
  {
    if q == [] then Zeros(n)
    else
      var k := |q| - 1;
      Xor(Product(q[..k], p, n) + [false], Zeros(k) + if q[k] then p else Zeros(n + 1))
  }

  /** `r` is what is left of the message, moved up by the order, after division. */
  ghost predicate IsRemainder(message: Bits, p: Bits, r: Bits)
    requires |p| == |r| + 1
  {
    exists q: Bits | |q| == |message| ::
      Product(q, p, |r|) == Xor(message + Zeros(|r|), Zeros(|message|) + r)
  }

  /** From zero, feeding the message leaves its remainder modulo the polynomial. */
  lemma {:induction false} FeedDivides(lp: Bits, message: Bits)
    requires |lp| > 0
    ensures IsRemainder(message, [true] + Rev(lp), Rev(FeedAll(lp, Zeros(|lp|), message)))
  {
    var q := Quotient(lp, message);
  }

  lemma {:induction false} Quotient(lp: Bits, message: Bits) returns (q: Bits)
    requires |lp| > 0
    ensures |q| == |message|
    ensures Product(q, [true] + Rev(lp), |lp|)
         == Xor(message + Zeros(|lp|), Zeros(|message|) + Rev(FeedAll(lp, Zeros(|lp|), message)))
    decreases |message|
  {
    var n, p := |lp|, [true] + Rev(lp);
    if message == [] {
      q := [];
      assert Rev(Zeros(n)) == Zeros(n);
      assert Xor([] + Zeros(n), Zeros(0) + Zeros(n)) == Zeros(n);
    } else {
      var front, b := message[..|message| - 1], message[|message| - 1];
      var s := FeedAll(lp, Zeros(n), front);
      var q0 := Quotient(lp, front);
      q := q0 + [s[n - 1] != b];
      FeedAllSnoc(lp, Zeros(n), front, b, message);
      QuotientStep(lp, p, front, b, message, q0, q, s, Feed(lp, s, b));
    }
  }

  lemma {:induction false} QuotientStep(lp: Bits, p: Bits, front: Bits, b: bool, all: Bits, q0: Bits, q: Bits, s: Bits, next: Bits)
    requires |s| == |lp| == |next| > 0 && p == [true] + Rev(lp) && next == Feed(lp, s, b) && all == front + [b]
    requires |q0| == |front| && q == q0 + [s[|s| - 1] != b]
    requires Product(q0, p, |lp|) == Xor(front + Zeros(|lp|), Zeros(|front|) + Rev(s))
    ensures Product(q, p, |lp|) == Xor(all + Zeros(|lp|), Zeros(|all|) + Rev(next))
  {
    var t := s[|s| - 1] != b;
    assert q[..|q0|] == q0;
    NextRemainder(lp, s, b, Rev(s), Rev(next));
    DivisionStep(Product(q0, p, |lp|), front, b, |lp|, Rev(s), p, Rev(next), all, t);
  }

  lemma {:induction false} FeedAllSnoc(lp: Bits, s: Bits, front: Bits, b: bool, all: Bits)
    requires |s| == |lp| > 0 && all == front + [b]
    ensures FeedAll(lp, s, all) == Feed(lp, FeedAll(lp, s, front), b)
    decreases |front|
  {
    if front == [] {
      assert all == [b] && all[1..] == [];
    } else {
      assert all[0] == front[0] && all[1..] == front[1..] + [b];
      FeedAllSnoc(lp, Feed(lp, s, front[0]), front[1..], b, all[1..]);
    }
  }

  /** A step of the register, highest coefficient first. */
  lemma {:induction false} NextRemainder(lp: Bits, s: Bits, b: bool, r: Bits, next: Bits)
    requires |s| == |lp| > 0 && r == Rev(s) && next == Rev(Feed(lp, s, b))
    ensures r[0] == s[|s| - 1]
    ensures forall i :: 0 <= i < |r| ==>
      next[i] == ((if i + 1 < |r| then r[i + 1] else false) != (r[0] != b && ([true] + Rev(lp))[i + 1]))
  {}

  /** A step of the division. */
  lemma {:induction false} DivisionStep(product: Bits, front: Bits, b: bool, n: nat, r: Bits, p: Bits, next: Bits, all: Bits, t: bool)
    requires |p| == n + 1 && |r| == |next| == n > 0 && p[0] && all == front + [b] && t == (r[0] != b)
    requires |product| == |front| + n && product == Xor(front + Zeros(n), Zeros(|front|) + r)
    requires forall i :: 0 <= i < n ==> next[i] == ((if i + 1 < n then r[i + 1] else false) != (t && p[i + 1]))
    ensures Xor(product + [false], Zeros(|front|) + if t then p else Zeros(n + 1)) == Xor(all + Zeros(n), Zeros(|all|) + next)
  {
    var k := |front|;
    var left, right := Xor(product + [false], Zeros(k) + if t then p else Zeros(n + 1)), Xor(all + Zeros(n), Zeros(k + 1) + next);
    forall i | 0 <= i < k + 1 + n ensures left[i] == right[i] {
      if i < k {
        assert product[i] == front[i];
      } else if i == k {
        assert product[i] == r[0];
      } else {
        assert i < k + n ==> product[i] == r[i - k];
        assert right[i] == next[i - k - 1];
      }
    }
  }

  /** So does the engine, in both bit orders, over the bits it is fed. */
  lemma {:induction false} CrcDivides(c: Params, bits: Bits)
    requires Valid(c)
    ensures IsRemainder(bits, [true] + Rev(LowPoly(c)), Rev(Norm(c, ForwardBits(c, Zeros(c.order), bits))))
  {
    var z := Zeros(c.order);
    ForwardBitsIsFeedAll(c, z, bits);
    assert Norm(c, z) == z;
    FeedDivides(LowPoly(c), bits);
  }

  // ----- Flags --------------------------------------------------------------------------------------

  function Flip(s: Bits): (r: Bits)
    ensures |r| == |s|
  {
    seq(|s|, i requires 0 <= i < |s| => !s[i])
  }

  /** A complemented state goes in and comes out as its complement. */
  lemma {:induction false} ComplementedState(c: Params, plain: Params, s: Bits, data: seq<Octet>)
    requires Valid(c) && IsState(c, s) && c.complementState && plain == c.(complementState := false)
    ensures Update(c, s, data) == Flip(Update(plain, Flip(s), data))
  {
    var k := StateComp(c);
    assert Xor(k, s) == Flip(s);
    SameRuns(c, plain, Flip(s), InputBits(c, data));
    PlainState(plain, Flip(s), data, InputBits(plain, data));
    var r := ForwardBits(c, Flip(s), InputBits(c, data));
    assert Xor(k, r) == Flip(r);
  }

  /** Steps do not depend on the flag. */
  lemma {:induction false} SameRuns(c: Params, plain: Params, s: Bits, bits: Bits)
    requires Valid(c) && IsState(c, s) && plain == c.(complementState := false)
    ensures ForwardBits(c, s, bits) == ForwardBits(plain, s, bits)
  {
    ForwardBitsIsFeedAll(c, s, bits);
    ForwardBitsIsFeedAll(plain, s, bits);
    NormInjective(c, ForwardBits(c, s, bits), ForwardBits(plain, s, bits));
  }

  /** Bit `j` of byte `k`, as it is fed. */
  lemma {:induction false} InputAt(c: Params, data: seq<Octet>, k: nat, j: nat)
    requires k < |data| && j < 8
    ensures InputBits(c, data)[8 * k + j] == (data[k][if c.popLsb then j else 7 - j] != c.complementInput)
  {
    var input := if c.complementInput then Not(data) else data;
    DataBitAt(input, c.popLsb, k, j);
  }

  lemma {:induction false} DataBitAt(data: seq<Octet>, popLsb: bool, k: nat, j: nat)
    requires k < |data| && j < 8
    ensures DataBits(data, popLsb)[8 * k + j] == data[k][if popLsb then j else 7 - j]
    decreases k
  {
    var first, rest := Iterate(data[0], popLsb), DataBits(data[1..], popLsb);
    assert DataBits(data, popLsb) == first + rest;
    if k > 0 {
      DataBitAt(data[1..], popLsb, k - 1, j);
      Behind(first, rest, 8 * (k - 1) + j);
    }
  }

  lemma {:induction false} Behind(a: Bits, b: Bits, i: nat)
    requires |a| == 8 && i < |b|
    ensures (a + b)[8 + i] == b[i]
  {}

  /** Bit `j` of byte `k` of the spilled state: of the number, mirrored if asked, with
      the bytes in the order asked for and zeros above. */
  lemma {:induction false} SpilledAt(c: Params, s: Bits, k: nat, j: nat)
    requires IsState(c, s) && k < ByteWidth(c) && j < 8
    ensures var m := 8 * (if c.spillLittle then k else ByteWidth(c) - 1 - k) + j;
            AsBytes(c, s)[k][j] == (m < c.order && s[if c.spillBitswap then c.order - 1 - m else m])
  {
    var w := ByteWidth(c);
    SpilledFrom(c, s, k, j, if c.spillLittle then k else w - 1 - k, if c.spillBitswap then Rev(s) else s, 8 * w - c.order);
  }

  lemma {:induction false} SpilledFrom(c: Params, s: Bits, k: nat, j: nat, from: nat, value: Bits, pad: nat)
    requires IsState(c, s) && k < ByteWidth(c) && j < 8 && pad == 8 * ByteWidth(c) - c.order
    requires from == (if c.spillLittle then k else ByteWidth(c) - 1 - k) && value == if c.spillBitswap then Rev(s) else s
    ensures AsBytes(c, s)[k][j] == (8 * from + j < c.order && value[8 * from + j])
  {
    assert |value + Zeros(pad)| == 8 * ByteWidth(c);
    SpilledByte(c, s, k, from, value + Zeros(pad));
    ChunkBit(value + Zeros(pad), from, j);
  }

  lemma {:induction false} SpilledByte(c: Params, s: Bits, k: nat, from: nat, all: Bits)
    requires IsState(c, s) && k < ByteWidth(c) && from == (if c.spillLittle then k else ByteWidth(c) - 1 - k)
    requires all == (if c.spillBitswap then Rev(s) else s) + Zeros(8 * ByteWidth(c) - c.order) && |all| == 8 * ByteWidth(c)
    ensures AsBytes(c, s)[k] == Chunks(all)[from]
  {
    assert AsBytes(c, s) == if c.spillLittle then Chunks(all) else Reversed(Chunks(all));
  }

  lemma {:induction false} ChunkBit(bits: Bits, k: nat, j: nat)
    requires |bits| % 8 == 0 && 8 * k + 8 <= |bits| && j < 8
    ensures Chunks(bits)[k][j] == bits[8 * k + j]
    decreases k
  {
    if k > 0 {
      ChunkBit(bits[8..], k - 1, j);
    }
  }

  /** Otherwise an update is a run over the input bits. */
  lemma {:induction false} PlainState(c: Params, s: Bits, data: seq<Octet>, bits: Bits)
    requires Valid(c) && IsState(c, s) && !c.complementState && bits == InputBits(c, data)
    ensures Update(c, s, data) == ForwardBits(c, s, bits)
  {
    var k := StateComp(c);
    assert Xor(k, s) == s;
    assert Xor(k, ForwardBits(c, s, bits)) == ForwardBits(c, s, bits);
  }

  /** Nothing has the initial state for its check sequence. */
  lemma {:induction false} EmptyCrc(c: Params)
    requires Valid(c)
    ensures Calc(c, []) == AsBytes(c, c.init)
  {
    var k := StateComp(c);
    assert InputBits(c, []) == [];
    assert Xor(k, Xor(k, c.init)) == c.init;
  }

  // ----- The parameters of HDLC ------------------------------------------------------------------------

  /** Polynomial 0x10811, from zero, bytes lowest bit first, state complemented. */
  lemma {:induction false} HdlcNumbers()
    ensures Hdlc().order == 16 && N.Value(Hdlc().poly) == 0x10811 && Hdlc().init == Zeros(16)
    ensures Hdlc().popLsb && !Hdlc().order0AtLsb && !Hdlc().complementInput && Hdlc().complementState
    ensures !Hdlc().spillBitswap && Hdlc().spillLittle
  {
    HdlcPoly(Hdlc().poly);
  }

  lemma {:induction false} HdlcPoly(bits: Bits)
    requires |bits| == 17 && forall i :: 0 <= i < 17 ==> bits[i] == (i == 0 || i == 4 || i == 11 || i == 16)
    ensures N.Value(bits) == 0x10811
  {
    N.ValueFrom(bits, 16);
    N.DigitAt(bits, 12, 0);
    N.DigitAt(bits, 8, 8);
    N.DigitAt(bits, 4, 1);
    N.DigitAt(bits, 0, 1);
    assert bits[17..] == [] && bits[0..] == bits;
  }

  /** One bit of a zero byte. */
  lemma {:induction false} ZeroStep(s: Bits, n: nat, next: Bits)
    requires Valid(Hdlc()) && |s| == |next| == 16 && n > 0
    requires forall m :: 0 <= m < 16 ==> next[m] == ((m < 15 && s[m + 1]) != (s[0] && (m == 3 || m == 10 || m == 15)))
    ensures ForwardBits(Hdlc(), s, Zeros(n)) == ForwardBits(Hdlc(), next, Zeros(n - 1))
  {
    var f := Forward(Hdlc(), s, false);
    forall m: nat | m < 16 ensures f[m] == next[m] { HdlcStep(s, f, m); }
    assert |f| == 16 && f == next;
    assert Zeros(n)[1..] == Zeros(n - 1);
  }

  lemma {:induction false} HdlcStep(s: Bits, f: Bits, m: nat)
    requires Valid(Hdlc()) && |s| == 16 && f == Forward(Hdlc(), s, false) && m < 16
    ensures |f| == 16 && f[m] == ((m < 15 && s[m + 1]) != (s[0] && (m == 3 || m == 10 || m == 15)))
  {
    HdlcTap(m + 1);
    ForwardAt(Hdlc(), s, false, 15 - m);
  }

  lemma {:induction false} HdlcTap(i: nat)
    requires i < 17
    ensures Hdlc().poly[i] == (i == 0 || i == 4 || i == 11 || i == 16)
  {
    var p := Hdlc().poly;
    if i < 6 {
      assert p[0] && !p[1] && !p[2] && !p[3] && p[4] && !p[5];
    } else if i < 11 {
      assert !p[6] && !p[7] && !p[8] && !p[9] && !p[10];
    } else {
      assert p[11] && !p[12] && !p[13] && !p[14] && !p[15] && p[16];
    }
  }

  /** The bits set after `k` bits of a zero byte, from ones on. */
  predicate On(k: nat, m: nat) {
    if k == 0 then true
    else if k == 1 then m != 3 && m != 10
    else if k == 2 then !(2 <= m <= 3) && !(9 <= m <= 10)
    else if k == 3 then !(1 <= m <= 3) && !(8 <= m <= 10)
    else 8 - k <= m <= 10 - k || 15 - k <= m <= 19 - k
  }

  function Register(k: nat): (s: Bits)
    ensures |s| == 16
  {
    seq(16, m requires 0 <= m < 16 => On(k, m))
  }

  lemma {:induction false} ZeroByte(k: nat)
    requires Valid(Hdlc()) && k <= 8
    ensures ForwardBits(Hdlc(), Register(k), Zeros(8 - k)) == Register(8)
    decreases 8 - k
  {
    if k < 8 {
      ZeroStep(Register(k), 8 - k, Register(k + 1));
      ZeroByte(k + 1);
    }
  }

  /** The check sequence of one zero byte is 0x78 0xf0. */
  lemma {:induction false} HdlcOfZero()
    ensures Valid(Hdlc()) && var crc := Calc(Hdlc(), [Zeros(8)]);
            |crc| == 2 && N.Value(crc[0]) == 0x78 && N.Value(crc[1]) == 0xf0
  {
    HdlcParams();
    var crc, state := Calc(Hdlc(), [Zeros(8)]), Flip(Register(8));
    ZeroState();
    HdlcByte(state, crc[0], 0);
    HdlcByte(state, crc[1], 1);
    ZeroCheck(crc[0], crc[1]);
  }

  lemma {:induction false} ZeroCheck(first: Octet, second: Octet)
    requires forall j :: 0 <= j < 8 ==> first[j] == (3 <= j <= 6)
    requires forall j :: 0 <= j < 8 ==> second[j] == (4 <= j)
    ensures N.Value(first) == 0x78 && N.Value(second) == 0xf0
  {
    assert !first[0] && !first[1] && !first[2] && first[3] && first[4] && first[5] && first[6] && !first[7];
    ByteValue(first, 0x8, 0x7);
    assert !second[0] && !second[1] && !second[2] && !second[3] && second[4] && second[5] && second[6] && second[7];
    ByteValue(second, 0x0, 0xf);
  }

  lemma {:induction false} ZeroState()
    ensures Valid(Hdlc()) && Update(Hdlc(), Hdlc().init, [Zeros(8)]) == Flip(Register(8))
  {
    HdlcParams();
    ZeroInput();
    ZeroByte(0);
    assert Register(0) == Ones(16);
  }

  lemma {:induction false} HdlcByte(s: Bits, b: Octet, k: nat)
    requires IsState(Hdlc(), s) && k < 2 && ByteWidth(Hdlc()) == 2 && b == AsBytes(Hdlc(), s)[k]
    ensures forall j :: 0 <= j < 8 ==> b[j] == s[8 * k + j]
  {
    forall j: nat | j < 8 ensures b[j] == s[8 * k + j] { SpilledAt(Hdlc(), s, k, j); }
  }

  lemma {:induction false} ZeroInput()
    ensures Valid(Hdlc()) && InputBits(Hdlc(), [Zeros(8)]) == Zeros(8) && Xor(StateComp(Hdlc()), Hdlc().init) == Ones(16)
    ensures forall s: Bits :: |s| == 16 ==> Xor(StateComp(Hdlc()), s) == Flip(s)
  {
    HdlcParams();
    assert [Zeros(8)][1..] == [];
  }

  lemma {:induction false} ByteValue(b: Octet, low: nat, high: nat)
    requires low == N.Weight(b[0], 1) + N.Weight(b[1], 2) + N.Weight(b[2], 4) + N.Weight(b[3], 8)
    requires high == N.Weight(b[4], 1) + N.Weight(b[5], 2) + N.Weight(b[6], 4) + N.Weight(b[7], 8)
    ensures N.Value(b) == low + 16 * high
  {
    N.DigitAt(b, 4, high);
    N.DigitAt(b, 0, low);
    assert b[0..] == b && b[8..] == [];
  }
}
