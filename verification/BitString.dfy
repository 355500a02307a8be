/** The mutable bit string: construction, append, concatenation and slices. */
module BitString {
  import opened BitSequences
  import opened Wrappers
  import opened Octets
  import opened BitStrings

  /** `int.from_bytes(data, "little") & mask` */
  function NumberOf(data: seq<Octet>, n: nat): nat
    requires n <= 8 * |data|
  {
    Value(Flat(data)[..n])
  }

  class BitString {
    var chunks: seq<seq<Octet>>
    var last: Octet
    var length: nat
    var cache: Option<seq<Octet>>
    ghost var bits: Bits

    /** Chunks, last byte and cached data all spell the same bits. */
    ghost predicate Valid()
      reads this
    {
      Stores(chunks, last, length, bits) && (cache.Some? ==> cache.value == ToOctets(bits))
    }

    constructor Empty()
      ensures Valid() && bits == []
    {
      chunks, last, length, cache, bits := [], Zeros(8), 0, None, [];
    }

    /** From no more bytes than the length needs, zeros above it. */
    constructor FromBytes(data: seq<Octet>, n: nat)
      requires |data| <= Count(n) && ZeroPadded(Filled(data, n), n)
      ensures Valid() && bits == Flat(Filled(data, n))[..n]
    {
      chunks, last, length, cache, bits := [], Zeros(8), 0, None, [];
      new;
      if |data| == Count(n) {
        assert Filled(data, n) == data;
        SplitStores(data, n);
        PaddedIsOctets(data, n);
        chunks, last := Split(data, n).0, Split(data, n).1;
        length, cache, bits := n, Some(data), Flat(data)[..n];
      } else {
        AppendBytes(data, n);
        assert [] + Flat(Filled(data, n))[..n] == Flat(Filled(data, n))[..n];
      }
    }

    /** From the low `n` bits of an integer; negative ones wrap. */
    constructor FromInt(v: int, n: nat)
      ensures Valid() && bits == LowBits(v, n)
    {
      var raw := ToOctets(LowBits(v, n));
      OctetsPadded(LowBits(v, n));
      chunks, last := Split(raw, n).0, Split(raw, n).1;
      length, cache, bits := n, if n > 0 then Some(raw) else None, LowBits(v, n);
      new;
      SplitStores(raw, n);
    }

    constructor Clone(other: BitString)
      requires other.Valid()
      ensures Valid() && bits == other.bits
    {
      chunks, last, length, cache, bits := other.chunks, other.last, other.length, other.cache, other.bits;
    }

    /** The bytes, joined once and kept. */
    method Data() returns (d: seq<Octet>)
      requires Valid()
      modifies `cache
      ensures Valid() && d == ToOctets(bits)
    {
      if cache.None? {
        cache := Some(if length % 8 != 0 then Join(chunks + [[last]]) else Join(chunks));
        JoinSnoc(chunks, [last]);
      }
      d := cache.value;
    }

    method Number() returns (v: nat)
      requires Valid()
      modifies `cache
      ensures Valid() && v == Value(bits)
    {
      var d := Data();
      OctetsSpell(bits);
      assert Flat(d)[..length] == bits;
      v := NumberOf(d, length);
    }

    /** The common end of every append: `merged` holds the partial last byte
        and the `n` new bits. */
    method Extend(merged: seq<Octet>, n: nat, ghost more: Bits)
      requires Valid() && n == |more| && merged == ToOctets(last[..length % 8] + more)
      modifies this
      ensures Valid() && bits == old(bits) + more
    {
      StoredAppend(chunks, last, length, bits, more, merged);
      length := length + n;
      bits := bits + more;
      SplitOff(chunks, merged, |bits|);
      if length % 8 != 0 {
        last := merged[|merged| - 1];
        chunks := chunks + [merged[..|merged| - 1]];
      } else {
        chunks := chunks + [merged];
        last := Zeros(8);
      }
      cache := None;
    }

    /** Bytes, filled up with zero bytes to `n` bits. */
    method AppendBytes(data: seq<Octet>, n: nat)
      requires Valid() && |data| <= Count(n) && ZeroPadded(Filled(data, n), n)
      modifies this
      ensures Valid() && bits == old(bits) + Flat(Filled(data, n))[..n]
    {
      var filled := Filled(data, n);
      ghost var more := Flat(filled)[..n];
      PaddedIsOctets(filled, n);
      if length % 8 != 0 {
        PaddedNumber(filled, n);
        StoredSplit(chunks, last, length, bits);
        MergedSpells(last, length % 8, more);
        Extend(ToOctets(LowBits(Merged(last, length % 8, Value(Flat(filled))), length % 8 + n)), n, more);
      } else {
        assert last[..0] + more == more;
        Extend(filled, n, more);
      }
    }

    method AppendInt(v: int, n: nat)
      requires Valid()
      modifies this
      ensures Valid() && bits == old(bits) + LowBits(v, n)
    {
      var data := Value(LowBits(v, n));
      if length % 8 != 0 {
        StoredSplit(chunks, last, length, bits);
        MergedSpells(last, length % 8, LowBits(v, n));
        Extend(ToOctets(LowBits(Merged(last, length % 8, data), length % 8 + n)), n, LowBits(v, n));
      } else {
        ValueRoundTrip(LowBits(v, n));
        assert last[..0] + LowBits(v, n) == LowBits(v, n);
        Extend(ToOctets(LowBits(data, n)), n, LowBits(v, n));
      }
    }

    /** Another bit string: as a number behind a partial byte, as bytes else. */
    method Append(other: BitString)
      requires Valid() && other.Valid()
      modifies this, other`cache
      ensures Valid() && bits == old(bits) + old(other.bits)
      ensures other != this ==> other.Valid() && other.bits == old(other.bits)
    {
      ghost var more := other.bits;
      var n := other.length;
      if length % 8 != 0 {
        var v := other.Number();
        ValueRoundTrip(more);
        AppendInt(v, n);
      } else {
        var d := other.Data();
        OctetsPadded(more);
        assert d + [] == d;
        AppendBytes(d, n);
      }
    }

    /** `+=` */
    method Extended(other: BitString)
      requires Valid() && other.Valid()
      modifies this, other`cache
      ensures Valid() && bits == old(bits) + old(other.bits)
    {
      if length == 0 {
        assert bits == [] && [] + other.bits == other.bits;
        length, chunks, last, cache, bits := other.length, other.chunks, other.last, None, other.bits;
      } else if other.length != 0 {
        Append(other);
      } else {
        assert bits + other.bits == bits;
      }
    }

    /** `+`: the short way for up to 256 bits is the long way. */
    method Plus(other: BitString) returns (r: BitString)
      requires Valid() && other.Valid()
      modifies `cache, other`cache
      ensures fresh(r) && r.Valid() && r.bits == old(bits) + old(other.bits)
      ensures Valid() && other.Valid() && bits == old(bits) && other.bits == old(other.bits)
    {
      if other.length == 0 {
        assert bits + other.bits == bits;
        r := new BitString.Clone(this);
        return;
      }
      if length == 0 {
        assert bits + other.bits == other.bits;
        r := new BitString.Clone(other);
        return;
      }
      if length + other.length <= 256 {
        var a := Number();
        var b := other.Number();
        ValueConcat(bits, other.bits);
        ValueRoundTrip(bits + other.bits);
        r := new BitString.FromInt(a + Pow2(length) * b, length + other.length);
        return;
      }
      r := new BitString.Clone(this);
      r.Append(other);
    }

    /** `self[i]`, counted from the end when negative. */
    method Bit(offset: int) returns (b: Option<bool>)
      requires Valid()
      modifies `cache
      ensures Valid() && bits == old(bits)
      ensures var i := if offset < 0 then offset + |bits| else offset;
              b == if 0 <= i < |bits| then Some(bits[i]) else None
    {
      var i := if offset < 0 then offset + length else offset;
      if !(0 <= i < length) {
        return None;
      }
      var d := Data();
      OctetsAt(d, bits, i);
      b := Some(d[i / 8][i % 8]);
    }

    /** A slice of the string, as the bounds of a view. */
    method Slice(start: Option<int>, stop: Option<int>) returns (begin: nat, end: nat)
      requires Valid()
      ensures begin <= end <= |bits| && bits[begin..end] == Sliced(bits, start, stop)
    {
      begin, end := SubSlice(0, length, start, stop);
      assert bits[0..length] == bits;
    }

    /** A slice of a slice. */
    method SubSlice(begin: nat, end: nat, start: Option<int>, stop: Option<int>) returns (b: nat, e: nat)
      requires begin <= end <= |bits|
      ensures b <= e <= |bits| && bits[b..e] == Sliced(bits[begin..end], start, stop)
    {
      var n := end - begin;
      var lo, hi := Bound(start, 0, n), Bound(stop, n, n);
      if hi <= lo {
        return 0, 0;
      }
      SliceOfSlice(bits, begin, end, lo, hi);
      b, e := begin + lo, begin + hi;
    }

    /** A bit through a slice. There is no range check: the bit lies in the slice
        if and only if the index is one of the slice's; others read a neighbour, a
        pad bit or from the far end of the string, or raise. */
    method SliceBit(begin: nat, end: nat, offset: int) returns (b: Option<bool>)
      requires Valid() && begin <= end <= |bits|
      modifies `cache
      ensures Valid() && bits == old(bits)
      ensures var i := AbsoluteIndex(begin, end, offset);
              && (begin <= i < end <==> -(end - begin) <= offset < end - begin)
              && (0 <= i ==> b == PaddedBit(bits, i))
              && (i < 0 ==> b == PaddedBit(bits, i + 8 * Count(|bits|)))
      ensures 0 <= offset < end - begin ==> b == Some(bits[begin..end][offset])
      ensures begin - end <= offset < 0 ==> b == Some(bits[begin..end][end - begin + offset])
    {
      IndexInside(begin, end, offset);
      var i := begin + if offset < 0 then offset + (end - begin) else offset;
      var d := Data();
      var o := ByteAt(d, i / 8);
      b := if o.Some? then Some(o.value[i % 8]) else None;
      ByteBit(d, bits, i);
    }

    /** The number of the bits from `begin` to `end`, out of the bytes that span
        them. */
    method SliceNumber(begin: nat, end: nat) returns (v: nat)
      requires Valid() && begin <= end <= |bits|
      modifies `cache
      ensures Valid() && bits == old(bits) && v == Value(bits[begin..end])
    {
      if begin == end {
        assert bits[begin..end] == [];
        return 0;
      }
      var d := Data();
      var blob := d[begin / 8..(end + 7) / 8];
      SpanBits(d, bits, begin, end);
      v := Value(Flat(blob)[begin % 8..][..end - begin]);
    }

    /** The bytes of the bits from `begin` to `end`: a part of the bytes when
        both fall on byte boundaries. */
    method SliceData(begin: nat, end: nat) returns (s: seq<Octet>)
      requires Valid() && begin <= end <= |bits|
      modifies `cache
      ensures Valid() && bits == old(bits) && s == ToOctets(bits[begin..end])
    {
      var n := end - begin;
      if n == 0 {
        assert bits[begin..end] == [];
        return [];
      }
      if begin % 8 == 0 && n % 8 == 0 {
        var d := Data();
        SpanBits(d, bits, begin, end);
        s := d[begin / 8..begin / 8 + n / 8];
        WholeSpan(s, bits[begin..end]);
      } else {
        var v := SliceNumber(begin, end);
        ValueRoundTrip(bits[begin..end]);
        s := ToOctets(LowBits(v, n));
      }
    }
  }

  // ----- Slices ---------------------------------------------------------------------------------------

  /** A slice bound, as Python resolves it: counted from the end when negative,
      and clipped to the length. */
  function Bound(o: Option<int>, default: nat, length: nat): (r: nat)
    ensures default <= length ==> r <= length
  {
    if o.None? then default
    else
      var i := if o.value < 0 then o.value + length else o.value;
      if i < 0 then 0 else if i > length then length else i
  }

  /** `s[start:stop]` of a plain sequence. */
  function Sliced(s: Bits, start: Option<int>, stop: Option<int>): Bits {
    var b, e := Bound(start, 0, |s|), Bound(stop, |s|, |s|);
    if e <= b then [] else s[b..e]
  }

  /** Whether a bound lies at position `i` or before it, in a sequence of `n`: negative
      bounds count from the end. */
  predicate Reached(bound: int, i: nat, n: nat) { if bound >= 0 then bound <= i else bound + n <= i }

  /** A slice is the run of positions that have reached its start and not its stop. */
  lemma {:induction false} SliceTakes(s: Bits, start: Option<int>, stop: Option<int>) returns (lo: nat, hi: nat)
    ensures lo <= hi <= |s| && Sliced(s, start, stop) == s[lo..hi]
    ensures forall i: nat :: i < |s| ==>
      (lo <= i < hi <==> (start.None? || Reached(start.value, i, |s|)) && !(stop.Some? && Reached(stop.value, i, |s|)))
  {
    lo, hi := Bound(start, 0, |s|), Bound(stop, |s|, |s|);
    if hi < lo { hi := lo; }
  }

  /** Cutting at any place and putting together again changes nothing. */
  lemma {:induction false} CutsMeet(s: Bits, k: int)
    ensures Sliced(s, None, Some(k)) + Sliced(s, Some(k), None) == s
  {
    var cut := Bound(Some(k), |s|, |s|);
    assert s == s[..cut] + s[cut..];
  }

  lemma {:induction false} SliceOfSlice(bits: Bits, begin: nat, end: nat, b: nat, e: nat)
    requires begin <= end <= |bits| && b <= e <= end - begin
    ensures bits[begin..end][b..e] == bits[begin + b..begin + e]
  {
    forall i | 0 <= i < e - b
      ensures bits[begin..end][b..e][i] == bits[begin + b..begin + e][i]
    {
      assert bits[begin..end][b + i] == bits[begin + (b + i)];
    }
  }

  /** `data[i]` for a Python index, negative ones counting from the end. */
  function ByteAt(data: seq<Octet>, i: int): Option<Octet> {
    if 0 <= i < |data| then Some(data[i]) else if -|data| <= i < 0 then Some(data[|data| + i]) else None
  }

  /** The position a slice's index addresses in the whole string: unchecked. */
  function AbsoluteIndex(begin: nat, end: nat, offset: int): int
    requires begin <= end
  {
    begin + if offset < 0 then offset + (end - begin) else offset
  }

  lemma {:induction false} IndexInside(begin: nat, end: nat, offset: int)
    requires begin <= end
    ensures begin <= AbsoluteIndex(begin, end, offset) < end <==> -(end - begin) <= offset < end - begin
  {}

  function Filled(data: seq<Octet>, n: nat): seq<Octet>
    requires |data| <= Count(n)
  {
    data + seq<Octet>(Count(n) - |data|, _ => Zeros(8))
  }

  /** The bytes of `n` bits as stored: the last one apart when it is partial. */
  function Split(data: seq<Octet>, n: nat): (seq<seq<Octet>>, Octet)
    requires |data| == Count(n)
  {
    if n % 8 != 0 then ([data[..|data| - 1]], data[|data| - 1]) else ([data], Zeros(8))
  }

  lemma {:induction false} OctetsPadded(bits: Bits)
    ensures ZeroPadded(ToOctets(bits), |bits|) && Flat(ToOctets(bits))[..|bits|] == bits
  {
    OctetsSpell(bits);
  }

  lemma {:induction false} PaddedNumber(data: seq<Octet>, n: nat)
    requires ZeroPadded(data, n)
    ensures n <= |Flat(data)| && Value(Flat(data)) == Value(Flat(data)[..n])
  {
    var bits := Flat(data)[..n];
    assert Flat(data) == bits + Zeros(|Flat(data)| - n);
    ValueZeros(bits, |Flat(data)| - n);
  }

  lemma {:induction false} SplitStores(data: seq<Octet>, n: nat)
    requires ZeroPadded(data, n)
    ensures Stores(Split(data, n).0, Split(data, n).1, n, Flat(data)[..n])
  {
    PaddedIsOctets(data, n);
    var c := Split(data, n).0;
    assert c[..0] == [] && Join(c) == c[0];
  }

  lemma {:induction false} SplitOff(chunks: seq<seq<Octet>>, merged: seq<Octet>, n: nat)
    requires n % 8 != 0 ==> merged != []
    ensures n % 8 == 0 ==> Join(chunks + [merged]) == Join(chunks) + merged
    ensures n % 8 != 0 ==> Join(chunks + [merged[..|merged| - 1]]) + [merged[|merged| - 1]] == Join(chunks) + merged
  {
    JoinSnoc(chunks, merged);
    if n % 8 != 0 {
      JoinSnoc(chunks, merged[..|merged| - 1]);
      assert merged == merged[..|merged| - 1] + [merged[|merged| - 1]];
    }
  }

  lemma {:induction false} FlatAt(d: seq<Octet>, i: nat)
    requires i < 8 * |d|
    ensures Flat(d)[i] == d[i / 8][i % 8]
    decreases |d|
  {
    if i >= 8 {
      FlatAt(d[1..], i - 8);
      assert (i - 8) / 8 == i / 8 - 1 && (i - 8) % 8 == i % 8;
    }
  }

  /** Missing bytes are zero, and come last. */
  lemma {:induction false} FilledAt(data: seq<Octet>, n: nat, i: nat)
    requires |data| <= Count(n) && i < n
    ensures i < 8 * Count(n) && Flat(Filled(data, n))[i] == (i < 8 * |data| && Flat(data)[i])
  {
    FlatAt(Filled(data, n), i);
    if i < 8 * |data| { FlatAt(data, i); }
  }

  lemma {:induction false} OctetsAt(d: seq<Octet>, bits: Bits, i: nat)
    requires d == ToOctets(bits) && i < |bits|
    ensures i / 8 < |d| && d[i / 8][i % 8] == bits[i]
  {
    OctetsSpell(bits);
    FlatAt(d, i);
    assert (bits + Zeros(PadFor(|bits|)))[i] == bits[i];
  }

  /** A bit of the bytes: of the string, or of the padding behind it. */
  lemma {:induction false} PaddedAt(d: seq<Octet>, bits: Bits, i: nat)
    requires d == ToOctets(bits)
    ensures i / 8 < |d| <==> i < 8 * Count(|bits|)
    ensures i < 8 * Count(|bits|) ==> d[i / 8][i % 8] == if i < |bits| then bits[i] else false
    ensures |bits| <= 8 * Count(|bits|)
  {
    OctetsSpell(bits);
    if i < 8 * |d| {
      FlatAt(d, i);
      assert (bits + Zeros(PadFor(|bits|)))[i] == if i < |bits| then bits[i] else false;
    }
  }

  /** Bit `i` of the padded string. */
  function PaddedBit(bits: Bits, i: int): Option<bool> {
    if i < 0 || i >= 8 * Count(|bits|) then None else Some(i < |bits| && bits[i])
  }

  /** Python takes a negative byte number from the end. */
  lemma {:induction false} ByteBit(d: seq<Octet>, bits: Bits, i: int)
    requires d == ToOctets(bits)
    ensures (match ByteAt(d, i / 8) case Some(o) => Some(o[i % 8]) case None => None)
            == PaddedBit(bits, if i < 0 then i + 8 * Count(|bits|) else i)
  {
    var j := if i < 0 then i + 8 * |d| else i;
    assert i < 0 ==> j / 8 == i / 8 + |d| && j % 8 == i % 8;
    if j >= 0 { PaddedAt(d, bits, j); }
  }

  lemma {:induction false} FlatSlice(d: seq<Octet>, a: nat, b: nat)
    requires a <= b <= |d|
    ensures Flat(d[a..b]) == Flat(d)[8 * a..8 * b]
  {
    FlatConcat(d[..a], d[a..b]);
    FlatConcat(d[..b], d[b..]);
    assert d[..b] == d[..a] + d[a..b] && d == d[..b] + d[b..];
  }

  lemma {:induction false} SpanBits(d: seq<Octet>, bits: Bits, begin: nat, end: nat)
    requires d == ToOctets(bits) && begin < end <= |bits|
    ensures begin / 8 <= (end + 7) / 8 <= |d|
    ensures var blob := Flat(d[begin / 8..(end + 7) / 8]);
            begin % 8 + (end - begin) <= |blob| && blob[begin % 8..][..end - begin] == bits[begin..end]
  {
    OctetsSpell(bits);
    var a, b := begin / 8, (end + 7) / 8;
    FlatSlice(d, a, b);
    assert Flat(d)[..|bits|] == bits;
    SpanArithmetic(begin, end);
    SpanInside(Flat(d), 8 * a, 8 * b, begin, end);
    assert Flat(d)[begin..end] == bits[begin..end] by {
      forall i | 0 <= i < end - begin ensures Flat(d)[begin..end][i] == bits[begin..end][i] {
        assert Flat(d)[begin + i] == bits[begin + i];
      }
    }
  }

  lemma {:induction false} SpanArithmetic(begin: nat, end: nat)
    requires begin < end
    ensures 8 * (begin / 8) + begin % 8 == begin && end <= 8 * ((end + 7) / 8)
  {}

  /** A stretch taken from a longer one. */
  lemma {:induction false} SpanInside(s: Bits, lo: nat, hi: nat, begin: nat, end: nat)
    requires lo <= begin <= end <= hi <= |s|
    ensures s[lo..hi][begin - lo..][..end - begin] == s[begin..end]
  {}

  lemma {:induction false} WholeSpan(s: seq<Octet>, bits: Bits)
    requires Flat(s) == bits
    ensures s == ToOctets(bits)
  {
    OctetsBehind(s, []);
    assert Flat(s) + [] == bits && s + [] == s;
  }
}
