/** Bit strings kept as a list of byte chunks and a partial last byte. */
module BitStrings {
  import opened BitSequences
  import opened Octets
  import opened Division

  // ----- Numbers as bits ------------------------------------------------------------------------

  /** The low `n` bits of an integer, which `v & ((1 << n) - 1)` keeps. */
  function LowBits(v: int, n: nat): (r: Bits)
    ensures |r| == n
    decreases n
  {
    if n == 0 then [] else [v % 2 == 1] + LowBits(v / 2, n - 1)
  }

  function Value(bits: Bits): nat {
    if bits == [] then 0 else (if bits[0] then 1 else 0) + 2 * Value(bits[1..])
  }

  lemma {:induction false} ValueRoundTrip(bits: Bits)
    ensures LowBits(Value(bits), |bits|) == bits
    decreases |bits|
  {
    if bits != [] {
      ValueRoundTrip(bits[1..]);
      LowBitsCons(bits[0], Value(bits[1..]), Value(bits), |bits|);
    }
  }

  lemma {:induction false} LowBitsCons(b: bool, rest: nat, v: nat, n: nat)
    requires n > 0 && v == (if b then 1 else 0) + 2 * rest
    ensures LowBits(v, n) == [b] + LowBits(rest, n - 1)
  {
    Halves(if b then 1 else 0, rest, v);
  }

  lemma {:induction false} Halves(r: nat, q: nat, v: nat)
    requires r < 2 && v == r + 2 * q
    ensures v % 2 == r && v / 2 == q
  {}

  function Pow2(n: nat): (r: nat)
    ensures r > 0
  {
    if n == 0 then 1 else 2 * Pow2(n - 1)
  }

  /** Bit `i` is that of the number in two's complement, whatever its sign. */
  lemma {:induction false} LowBitsAt(v: int, n: nat, i: nat)
    requires i < n
    ensures LowBits(v, n)[i] == ((v / Pow2(i)) % 2 == 1)
    decreases n
  {
    if i > 0 {
      LowBitsAt(v / 2, n - 1, i - 1);
      DivTwice(v, 2, Pow2(i - 1));
    }
  }

  /** Adding any multiple of 2^n changes nothing. */
  lemma {:induction false} LowBitsWrap(v: int, k: int, n: nat)
    ensures LowBits(v + k * Pow2(n), n) == LowBits(v, n)
    decreases n
  {
    if n > 0 {
      var m := k * Pow2(n - 1);
      assert k * Pow2(n) == 2 * m;
      HalfOfSum(v, m);
      LowBitsWrap(v / 2, k, n - 1);
    }
  }

  lemma {:induction false} HalfOfSum(v: int, m: int)
    ensures (v + 2 * m) / 2 == v / 2 + m && (v + 2 * m) % 2 == v % 2
  {}

  /** One hexadecimal digit of the number from bit `i` on. */
  lemma {:induction false} DigitAt(bits: Bits, i: nat, digit: nat)
    requires i + 4 <= |bits|
    requires digit == Weight(bits[i], 1) + Weight(bits[i + 1], 2) + Weight(bits[i + 2], 4) + Weight(bits[i + 3], 8)
    ensures Value(bits[i..]) == digit + 16 * Value(bits[i + 4..])
  {
    ValueFrom(bits, i);
    ValueFrom(bits, i + 1);
    ValueFrom(bits, i + 2);
    ValueFrom(bits, i + 3);
  }

  function Weight(b: bool, w: nat): nat { if b then w else 0 }

  lemma {:induction false} ValueFrom(bits: Bits, i: nat)
    requires i < |bits|
    ensures Value(bits[i..]) == Weight(bits[i], 1) + 2 * Value(bits[i + 1..])
  {
    assert bits[i..][1..] == bits[i + 1..];
  }

  /** `int(a) | (int(b) << len(a))` is the number of `a` followed by `b`. */
  lemma {:induction false} ValueConcat(a: Bits, b: Bits)
    ensures Value(a + b) == Value(a) + Pow2(|a|) * Value(b)
    ensures Value(a) < Pow2(|a|)
    decreases |a|
  {
    if a == [] {
      assert a + b == b;
    } else {
      assert (a + b)[0] == a[0] && (a + b)[1..] == a[1..] + b;
      ValueConcat(a[1..], b);
      Doubled(Pow2(|a| - 1), Value(b));
    }
  }

  lemma {:induction false} Doubled(p: nat, v: nat)
    ensures 2 * (p * v) == (2 * p) * v
  {}

  // ----- Bytes --------------------------------------------------------------------------------------

  function Count(n: nat): nat { (n + 7) / 8 }

  /** `to_bytes`: the bits in as many bytes as they need, zeros above. */
  function ToOctets(bits: Bits): (r: seq<Octet>)
    ensures |r| == Count(|bits|)
    decreases |bits|
  {
    if bits == [] then []
    else if |bits| <= 8 then [bits + Zeros(8 - |bits|)]
    else [bits[..8]] + ToOctets(bits[8..])
  }

  function PadFor(n: nat): nat { 8 * Count(n) - n }

  lemma {:induction false} OctetsSpell(bits: Bits)
    ensures Flat(ToOctets(bits)) == bits + Zeros(PadFor(|bits|))
    decreases |bits|
  {
    if bits == [] {
      assert Zeros(PadFor(0)) == [];
    } else if |bits| <= 8 {
      SpellLast(bits);
    } else {
      var rest := bits[8..];
      OctetsSpell(rest);
      PadShift(|bits|);
      SpellOne(bits, [bits[..8]] + ToOctets(rest), ToOctets(rest), Zeros(PadFor(|bits|)));
    }
  }

  lemma {:induction false} SpellLast(bits: Bits)
    requires 0 < |bits| <= 8
    ensures Flat(ToOctets(bits)) == bits + Zeros(PadFor(|bits|))
  {
    PadSmall(|bits|);
    var b: Octet := bits + Zeros(8 - |bits|);
    assert ToOctets(bits) == [b] && [b][1..] == [];
    assert Flat([b]) == b + Flat([]);
    assert b + [] == b;
  }

  lemma {:induction false} SpellOne(bits: Bits, all: seq<Octet>, rest: seq<Octet>, pad: Bits)
    requires |bits| > 8 && all == [bits[..8]] + rest && Flat(rest) == bits[8..] + pad
    ensures Flat(all) == bits + pad
  {
    assert all[1..] == rest;
    assert bits == bits[..8] + bits[8..];
    Assoc(bits[..8], bits[8..], pad);
  }

  lemma {:induction false} PadSmall(n: nat)
    requires 0 < n <= 8
    ensures PadFor(n) == 8 - n
  {}

  lemma {:induction false} PadShift(n: nat)
    requires n >= 8
    ensures PadFor(n) == PadFor(n - 8)
  {
    assert n + 7 == (n - 8 + 7) + 8;
  }

  /** Whole bytes in front. */
  lemma {:induction false} OctetsBehind(front: seq<Octet>, bits: Bits)
    ensures ToOctets(Flat(front) + bits) == front + ToOctets(bits)
    decreases |front|
  {
    if front == [] {
      assert Flat(front) + bits == bits;
    } else {
      var all := Flat(front) + bits;
      assert all == front[0] + (Flat(front[1..]) + bits);
      OctetsBehind(front[1..], bits);
      if |all| > 8 {
        assert all[..8] == front[0] && all[8..] == Flat(front[1..]) + bits;
      } else {
        assert front[1..] == [] && bits == [];
        assert all == front[0] && all + Zeros(0) == all;
      }
    }
  }

  /** Bytes with zeros above the first `n` bits. */
  predicate ZeroPadded(data: seq<Octet>, n: nat) {
    |data| == Count(n) && forall i :: n <= i < 8 * |data| ==> !Flat(data)[i]
  }

  lemma {:induction false} PaddedIsOctets(data: seq<Octet>, n: nat)
    requires ZeroPadded(data, n)
    ensures n <= |Flat(data)| && data == ToOctets(Flat(data)[..n])
  {
    var bits := Flat(data)[..n];
    OctetsSpell(bits);
    assert Flat(data) == bits + Zeros(PadFor(n));
    SameBytes(data, ToOctets(bits));
  }

  lemma {:induction false} SameBytes(a: seq<Octet>, b: seq<Octet>)
    requires Flat(a) == Flat(b)
    ensures a == b
    decreases |a|
  {
    assert |a| == |b|;
    if a != [] {
      assert a[0] == Flat(a)[..8] && b[0] == Flat(b)[..8];
      assert Flat(a[1..]) == Flat(a)[8..] && Flat(b[1..]) == Flat(b)[8..];
      SameBytes(a[1..], b[1..]);
    }
  }

  /** `(data << k) | last`: a last byte with only its low `k` bits in use has no
      bit in common with the shifted number. */
  function Merged(last: Octet, k: nat, data: nat): nat { Value(last) + Pow2(k) * data }

  lemma {:induction false} ValueZeros(a: Bits, n: nat)
    ensures Value(a + Zeros(n)) == Value(a)
  {
    ValueConcat(a, Zeros(n));
    ValueOfZeros(n);
  }

  lemma {:induction false} ValueOfZeros(n: nat)
    ensures Value(Zeros(n)) == 0
  {
    if n > 0 {
      assert Zeros(n)[1..] == Zeros(n - 1);
      ValueOfZeros(n - 1);
    }
  }

  /** The merged number spells the bits in use, then the new ones. */
  lemma {:induction false} MergedSpells(last: Octet, k: nat, more: Bits)
    requires k < 8 && last[..k] + Zeros(8 - k) == last
    ensures LowBits(Merged(last, k, Value(more)), k + |more|) == last[..k] + more
  {
    ValueZeros(last[..k], 8 - k);
    ValueConcat(last[..k], more);
    ValueRoundTrip(last[..k] + more);
  }

  // ----- Chunk lists ---------------------------------------------------------------------------------

  function Join(chunks: seq<seq<Octet>>): seq<Octet> {
    if chunks == [] then [] else Join(chunks[..|chunks| - 1]) + chunks[|chunks| - 1]
  }

  lemma {:induction false} JoinSnoc(chunks: seq<seq<Octet>>, c: seq<Octet>)
    ensures Join(chunks + [c]) == Join(chunks) + c
  {
    assert (chunks + [c])[..|chunks|] == chunks;
  }

  /** The stored form: what `data` returns, and the length. */
  predicate Stores(chunks: seq<seq<Octet>>, last: Octet, length: nat, bits: Bits) {
    && length == |bits|
    && ToOctets(bits) == Join(chunks) + (if length % 8 == 0 then [] else [last])
    && (length % 8 == 0 ==> last == Zeros(8))
  }

  lemma {:induction false} StoredSplit(chunks: seq<seq<Octet>>, last: Octet, length: nat, bits: Bits)
    requires Stores(chunks, last, length, bits)
    ensures bits == Flat(Join(chunks)) + last[..length % 8] && last[..length % 8] + Zeros(8 - length % 8) == last
    ensures |Join(chunks)| == length / 8
  {
    var k := length % 8;
    OctetsSpell(bits);
    var front := Join(chunks);
    FlatConcat(front, if k == 0 then [] else [last]);
    assert [last][1..] == [];
    assert |front| == length / 8;
    var all := bits + Zeros(PadFor(length));
    assert all == Flat(front) + (if k == 0 then [] else last);
    assert bits == all[..length];
    if k != 0 {
      assert bits == Flat(front) + last[..k];
      forall i | k <= i < 8 ensures !last[i] { assert all[8 * |front| + i] == last[i]; }
    }
  }

  /** New bits behind the stored ones: the last byte merges with them, and the
      bytes that come of it form a new chunk. */
  lemma {:induction false} StoredAppend(chunks: seq<seq<Octet>>, last: Octet, length: nat, bits: Bits, more: Bits, merged: seq<Octet>)
    requires Stores(chunks, last, length, bits) && merged == ToOctets(last[..length % 8] + more)
    ensures ToOctets(bits + more) == Join(chunks) + merged
    ensures |bits + more| % 8 != 0 ==> merged != []
  {
    StoredSplit(chunks, last, length, bits);
    OctetsBehind(Join(chunks), last[..length % 8] + more);
    Assoc(Flat(Join(chunks)), last[..length % 8], more);
  }
}
