/** Seeking over zero payload, and patches that keep a CRC. */
module CrcPatch {
  import opened BitSequences
  import opened Octets
  import opened Gf2
  import opened Crc
  import opened CrcBytes
  import opened CrcResidue

  // ----- update_seek ----------------------------------------------------------------------

  function UpdateSeek(c: Params, s: Bits, n: nat): (r: Bits)
    requires Valid(c) && IsState(c, s)
    ensures IsState(c, r)
  {
    var z := Xor(StateComp(c), s);
    Xor(StateComp(c), if c.complementInput then ForwardBits(c, z, Ones(n)) else ForwardMany(c, z, n))
  }

  method Seek(c: Params, s: Bits, n: nat) returns (r: Bits)
    requires Valid(c) && IsState(c, s)
    ensures r == UpdateSeek(c, s, n)
  {
    var z := Xor(StateComp(c), s);
    r := z;
    if c.complementInput {
      var i := 0;
      while i < n
        invariant 0 <= i <= n && IsState(c, r) && ForwardBits(c, z, Ones(n)) == ForwardBits(c, r, Ones(n - i))
      {
        assert Ones(n - i)[1..] == Ones(n - i - 1);
        r := Forward(c, r, true);
        i := i + 1;
      }
    } else {
      r := ForwardMany(c, r, n);
    }
    r := Xor(StateComp(c), r);
  }

  lemma {:induction false} ZeroInput(c: Params, n: nat)
    ensures InputBits(c, ZeroBytes(n)) == if c.complementInput then Ones(8 * n) else Zeros(8 * n)
  {
    ZeroBytesBits(n, c.popLsb);
    NotBits(ZeroBytes(n), c.popLsb);
    assert Xor(seq(8 * n, _ => true), Zeros(8 * n)) == Ones(8 * n);
  }

  /** Seeking whole bytes is updating with zero bytes, complemented input or not. */
  lemma {:induction false} SeekIsZeroBytes(c: Params, s: Bits, n: nat)
    requires Valid(c) && IsState(c, s)
    ensures UpdateSeek(c, s, 8 * n) == Update(c, s, ZeroBytes(n))
  {
    ZeroInput(c, n);
    SeekIsSteps(c, Xor(StateComp(c), s), 8 * n);
  }

  // ----- Patching the check sequence ---------------------------------------------------------

  lemma {:induction false} ChunksXor(a: Bits, b: Bits)
    requires |a| == |b| && |a| % 8 == 0
    ensures Chunks(Xor(a, b)) == XorBytes(Chunks(a), Chunks(b))
    decreases |a|
  {
    if a != [] {
      ChunksXor(a[8..], b[8..]);
      assert Xor(a, b)[..8] == Xor(a[..8], b[..8]) && Xor(a, b)[8..] == Xor(a[8..], b[8..]);
      assert Chunks(a)[1..] == Chunks(a[8..]) && Chunks(b)[1..] == Chunks(b[8..]);
    }
  }

  lemma {:induction false} ReversedXor(a: seq<Octet>, b: seq<Octet>)
    requires |a| == |b|
    ensures Reversed(XorBytes(a, b)) == XorBytes(Reversed(a), Reversed(b))
  {}

  /** Spilling is linear. */
  lemma {:induction false} AsBytesXor(c: Params, s: Bits, t: Bits)
    requires IsState(c, s) && IsState(c, t)
    ensures AsBytes(c, Xor(s, t)) == XorBytes(AsBytes(c, s), AsBytes(c, t))
  {
    var pad := Zeros(8 * ByteWidth(c) - c.order);
    var a, b := if c.spillBitswap then Rev(s) else s, if c.spillBitswap then Rev(t) else t;
    RevXor(s, t);
    XorPadded(a, b, |pad|);
    ChunksXor(a + pad, b + pad);
    ReversedXor(Chunks(a + pad), Chunks(b + pad));
  }

  lemma {:induction false} XorPadded(a: Bits, b: Bits, n: nat)
    requires |a| == |b|
    ensures Xor(a, b) + Zeros(n) == Xor(a + Zeros(n), b + Zeros(n))
  {}

  /** XORing the spilled delta into the check sequence of the old payload gives
      that of the new one. */
  lemma {:induction false} CrcDeltaPatches(c: Params, data: seq<Octet>, offset: nat, diff: seq<Octet>)
    requires Valid(c) && offset + |diff| <= |data|
    ensures Calc(c, Edited(data, offset, diff)) ==
            XorBytes(Calc(c, data), AsBytes(c, StateDelta(c, offset, diff, |data|)))
  {
    var edited := Edited(data, offset, diff);
    var was, now, delta := Update(c, c.init, data), Update(c, c.init, edited), StateDelta(c, offset, diff, |data|);
    assert data[..|data|] == data && edited[..|data|] == edited;
    DeltaIsStateXor(c, c.init, data, offset, diff, |data|);
    assert now == Xor(was, delta);
    AsBytesXor(c, was, delta);
  }

  // ----- Patching the payload -----------------------------------------------------------------

  function Pad(c: Params): nat { 8 * ByteWidth(c) - c.order }

  /** The bytes to XOR in where the state differs by `d`. */
  function PatchBytes(c: Params, d: Bits): (r: seq<Octet>)
    requires IsState(c, d)
    ensures |r| == ByteWidth(c)
  {
    var v := if c.order0AtLsb then Rev(d) else d;
    if c.popLsb then Chunks(v + Zeros(Pad(c))) else Reversed(Chunks(Rev(v) + Zeros(Pad(c))))
  }

  lemma {:induction false} LsbFeeds(x: Bits, w: nat)
    requires |x| == 8 * w
    ensures DataBits(Chunks(x), true) == x && DataBits(Reversed(Chunks(x)), false) == Rev(x)
  {
    ChunkedBits(x, true);
    ChunkedBits(x, false);
  }

  lemma {:induction false} RevPadded(v: Bits, p: nat)
    ensures Rev(Rev(v) + Zeros(p)) == Zeros(p) + v
  {
    RevConcat(Rev(v), Zeros(p));
    RevTwice(v);
    assert Rev(Zeros(p)) == Zeros(p);
  }

  /** The highest coefficient first, behind the padding when popped MSB first. */
  lemma {:induction false} PatchFeeds(c: Params, d: Bits, a: Bits)
    requires IsState(c, d) && a == Rev(Norm(c, d))
    ensures DataBits(PatchBytes(c, d), c.popLsb) == if c.popLsb then a + Zeros(Pad(c)) else Zeros(Pad(c)) + a
  {
    var v := if c.order0AtLsb then Rev(d) else d;
    assert v == a by { RevTwice(d); }
    LsbFeeds(if c.popLsb then v + Zeros(Pad(c)) else Rev(v) + Zeros(Pad(c)), ByteWidth(c));
    RevPadded(v, Pad(c));
  }

  /** A register width of input is a change of the state before it. */
  lemma {:induction false} WidthFeeds(c: Params, d: Bits)
    requires Valid(c) && IsState(c, d)
    ensures ForwardBits(c, Zeros(c.order), Rev(Norm(c, d))) == ForwardBits(c, d, Zeros(c.order))
  {
    var z, a := Zeros(c.order), Rev(Norm(c, d));
    ForwardBitsIsFeedAll(c, z, a);
    ForwardBitsIsFeedAll(c, d, z);
    assert Norm(c, z) == z;
    WidthIsXor(LowPoly(c), Norm(c, d), a);
    NormInjective(c, ForwardBits(c, z, a), ForwardBits(c, d, z));
  }

  lemma {:induction false} WidthIsXor(lp: Bits, d: Bits, a: Bits)
    requires |d| == |lp| > 0 && a == Rev(d)
    ensures FeedAll(lp, Zeros(|lp|), a) == FeedAll(lp, d, Zeros(|lp|))
  {
    FeedAligned(lp, Zeros(|lp|), a);
    FeedZeros(lp, d, |lp|);
    RevTwice(d);
    assert Aligned(|lp|, a) == d && Xor(Zeros(|lp|), d) == d;
  }

  lemma {:induction false} ZerosTwice(c: Params, s: Bits, m: nat, n: nat)
    requires Valid(c) && IsState(c, s)
    ensures ForwardBits(c, ForwardBits(c, s, Zeros(m)), Zeros(n)) == ForwardBits(c, s, Zeros(m + n))
  {
    ForwardBitsConcat(c, s, Zeros(m), Zeros(n));
    assert Zeros(m) + Zeros(n) == Zeros(m + n);
  }

  lemma {:induction false} ZerosInjective(c: Params, s: Bits, t: Bits, n: nat)
    requires Valid(c) && IsState(c, s) && IsState(c, t)
    ensures ForwardBits(c, s, Zeros(n)) == ForwardBits(c, t, Zeros(n)) <==> s == t
  {
    RunsInvert(c, s, Zeros(n));
    RunsInvert(c, t, Zeros(n));
  }

  /** The padding is fed behind a register width of input. */
  lemma {:induction false} PadBehind(c: Params, d: Bits, a: Bits, p: nat)
    requires Valid(c) && IsState(c, d) && a == Rev(Norm(c, d))
    ensures ForwardBits(c, Zeros(c.order), a + Zeros(p)) == ForwardBits(c, d, Zeros(c.order + p))
  {
    var z := Zeros(c.order);
    var w := ForwardBits(c, z, a);
    WidthFeeds(c, d);
    Then(c, z, a, Zeros(p), a + Zeros(p), w);
    Then(c, d, z, Zeros(p), Zeros(c.order + p), w);
  }

  /** Or ahead of it. */
  lemma {:induction false} PadAhead(c: Params, d: Bits, a: Bits, p: nat)
    requires Valid(c) && IsState(c, d) && a == Rev(Norm(c, d))
    ensures ForwardBits(c, Zeros(c.order), Zeros(p) + a) == ForwardBits(c, d, Zeros(c.order + p))
            <==> ForwardBits(c, d, Zeros(p)) == d
  {
    var z, zp, m := Zeros(c.order), Zeros(p), ForwardBits(c, d, Zeros(p));
    WidthFeeds(c, d);
    ZeroStays(c, p);
    Then(c, z, zp, a, zp + a, z);
    Then(c, d, zp, z, Zeros(c.order + p), m);
    ZerosInjective(c, m, d, c.order);
  }

  /** The patch changes the state as `d` does, if and only if nothing is fed ahead
      of it or `d` steps to itself over what is. */
  lemma {:induction false} PatchIsDelta(c: Params, d: Bits)
    requires Valid(c) && IsState(c, d)
    ensures ForwardBits(c, Zeros(c.order), DataBits(PatchBytes(c, d), c.popLsb)) == ForwardBits(c, d, Zeros(8 * ByteWidth(c)))
            <==> c.popLsb || ForwardBits(c, d, Zeros(Pad(c))) == d
  {
    var a := Rev(Norm(c, d));
    PatchFeeds(c, d, a);
    PaddedIsDelta(c, d, a, Pad(c), DataBits(PatchBytes(c, d), c.popLsb), 8 * ByteWidth(c));
  }

  lemma {:induction false} PaddedIsDelta(c: Params, d: Bits, a: Bits, p: nat, fed: Bits, n: nat)
    requires Valid(c) && IsState(c, d) && a == Rev(Norm(c, d)) && n == c.order + p
    requires fed == if c.popLsb then a + Zeros(p) else Zeros(p) + a
    ensures ForwardBits(c, Zeros(c.order), fed) == ForwardBits(c, d, Zeros(n)) <==> c.popLsb || ForwardBits(c, d, Zeros(p)) == d
  {
    if c.popLsb {
      PadBehind(c, d, a, p);
    } else {
      PadAhead(c, d, a, p);
    }
  }

  /** State `s` at byte `i` and state `t` at byte `j` come to the same at byte `n`
      when zeros follow. */
  predicate Same(c: Params, s: Bits, i: nat, t: Bits, j: nat, n: nat)
    requires Valid(c) && i <= n && j <= n
  {
    IsState(c, s) && IsState(c, t) && ForwardBits(c, s, Zeros(8 * (n - i))) == ForwardBits(c, t, Zeros(8 * (n - j)))
  }

  /** A change moved from byte `i` to byte `j` comes to the same later on. */
  lemma {:induction false} MovedSame(c: Params, s: Bits, t: Bits, i: nat, j: nat, n: nat, d: int)
    requires Valid(c) && IsState(c, s) && i <= n && j <= n && d == j - i && t == Moved(c, s, d)
    ensures Same(c, t, j, s, i, n)
  {
    MovedOnSame(c, s, t, i, j, n, d);
    MovedBackSame(c, s, t, i, j, n, -d);
  }

  lemma {:induction false} MovedOnSame(c: Params, s: Bits, t: Bits, i: nat, j: nat, n: nat, d: int)
    requires Valid(c) && IsState(c, s) && i <= n && j <= n && d == j - i && t == Moved(c, s, d)
    ensures d >= 0 ==> Same(c, t, j, s, i, n)
  {
    if d >= 0 {
      MovedOn(c, s, d);
      ZerosBetween(c, s, t, i, j, n);
    }
  }

  lemma {:induction false} MovedBackSame(c: Params, s: Bits, t: Bits, i: nat, j: nat, n: nat, d: int)
    requires Valid(c) && IsState(c, s) && i <= n && j <= n && d == i - j && t == Moved(c, s, -d)
    ensures d >= 0 ==> Same(c, t, j, s, i, n)
  {
    if d >= 0 {
      MovedBack(c, s, d);
      ZerosBetween(c, t, s, j, i, n);
    }
  }

  /** Zero bytes from `i` to `j` and on to `n`. */
  lemma {:induction false} ZerosBetween(c: Params, s: Bits, t: Bits, i: nat, j: nat, n: nat)
    requires Valid(c) && IsState(c, s) && i <= j <= n && t == ForwardBits(c, s, Zeros(8 * (j - i)))
    ensures ForwardBits(c, t, Zeros(8 * (n - j))) == ForwardBits(c, s, Zeros(8 * (n - i)))
  {
    ZerosTwice(c, s, 8 * (j - i), 8 * (n - j));
  }

  lemma {:induction false} EditChange(data: seq<Octet>, offset: nat, diff: seq<Octet>)
    requires offset + |diff| <= |data|
    ensures Edited(data, offset, diff) == XorBytes(data, ZeroBytes(offset) + diff + ZeroBytes(|data| - (offset + |diff|)))
  {
    var change := ZeroBytes(offset) + diff + ZeroBytes(|data| - (offset + |diff|));
    forall i | 0 <= i < |data| ensures Edited(data, offset, diff)[i] == Xor(data[i], change[i]) {
      XorZero(data[i]);
    }
  }

  /** Two edits change the payload by the XOR of what each changes. */
  lemma {:induction false} TwoEdits(data: seq<Octet>, a: seq<Octet>, b: seq<Octet>, x: seq<Octet>, y: seq<Octet>)
    requires |data| == |a| == |b| && x == XorBytes(data, a) && y == XorBytes(x, b)
    ensures XorBytes(y, data) == XorBytes(a, b)
  {
    forall i | 0 <= i < |data| ensures XorBytes(y, data)[i] == XorBytes(a, b)[i] { XorThrice(data[i], a[i], b[i]); }
  }

  lemma {:induction false} XorThrice(d: Octet, a: Octet, b: Octet)
    ensures Xor(Xor(Xor(d, a), b), d) == Xor(a, b)
  {}

  lemma {:induction false} SameIffNoDelta(a: Bits, b: Bits)
    requires |a| == |b|
    ensures Xor(a, b) == Zeros(|a|) <==> a == b
  {
    if Xor(a, b) == Zeros(|a|) {
      forall i | 0 <= i < |a| ensures a[i] == b[i] { assert Xor(a, b)[i] == Zeros(|a|)[i]; }
    }
    assert a == b ==> Xor(a, b) == Zeros(|a|);
  }

  /** The state changes by the XOR of what each edit alone would change it by. */
  lemma {:induction false} TwoEditsDelta(c: Params, s: Bits, data: seq<Octet>, a: seq<Octet>, b: seq<Octet>, y: seq<Octet>)
    requires Valid(c) && IsState(c, s) && |data| == |a| == |b| && y == XorBytes(XorBytes(data, a), b)
    ensures Update(c, s, y) == Update(c, s, data) <==>
            ForwardBits(c, Zeros(c.order), DataBits(a, c.popLsb)) == ForwardBits(c, Zeros(c.order), DataBits(b, c.popLsb))
  {
    var z := Zeros(c.order);
    UpdateDelta(c, s, y, data);
    TwoEdits(data, a, b, XorBytes(data, a), y);
    DataBitsXor(a, b, c.popLsb);
    ForwardXor(c, z, z, DataBits(a, c.popLsb), DataBits(b, c.popLsb));
    XorZero(z);
    SameIffNoDelta(Update(c, s, y), Update(c, s, data));
    SameIffNoDelta(ForwardBits(c, z, DataBits(a, c.popLsb)), ForwardBits(c, z, DataBits(b, c.popLsb)));
  }

  /** What an edit of a payload of `n` bytes changes. */
  function Change(offset: nat, diff: seq<Octet>, n: nat): (r: seq<Octet>)
    requires offset + |diff| <= n
    ensures |r| == n
  {
    ZeroBytes(offset) + diff + ZeroBytes(n - (offset + |diff|))
  }

  lemma {:induction false} EditShows(c: Params, offset: nat, diff: seq<Octet>, patch: nat, n: nat, contribution: Bits, d: Bits)
    requires Valid(c) && offset + |diff| <= n && patch <= n && IsState(c, d)
    requires contribution == ForwardBits(c, Zeros(c.order), DataBits(diff, c.popLsb))
    requires Same(c, d, patch, contribution, offset + |diff|, n)
    ensures ForwardBits(c, Zeros(c.order), DataBits(Change(offset, diff, n), c.popLsb)) == ForwardBits(c, d, Zeros(8 * (n - patch)))
  {
    ChangeAt(c, offset, diff, n, n - (offset + |diff|));
  }

  lemma {:induction false} PatchShows(c: Params, d: Bits, patch: nat, n: nat)
    requires Valid(c) && IsState(c, d) && patch + ByteWidth(c) <= n
    ensures ForwardBits(c, Zeros(c.order), DataBits(Change(patch, PatchBytes(c, d), n), c.popLsb))
            == ForwardBits(c, d, Zeros(8 * (n - patch)))
            <==> c.popLsb || ForwardBits(c, d, Zeros(Pad(c))) == d
  {
    var w, fix := ByteWidth(c), PatchBytes(c, d);
    var at := ForwardBits(c, Zeros(c.order), DataBits(fix, c.popLsb));
    ChangeAt(c, patch, fix, n, n - (patch + w));
    PatchIsDelta(c, d);
    ZerosBetween(c, d, ForwardBits(c, d, Zeros(8 * w)), patch, patch + w, n);
    ZerosInjective(c, at, ForwardBits(c, d, Zeros(8 * w)), 8 * (n - (patch + w)));
  }

  /** The edited payload with the patch for state delta `d` XORed in. */
  function Patched(c: Params, data: seq<Octet>, offset: nat, diff: seq<Octet>, patch: nat, d: Bits): (r: seq<Octet>)
    requires IsState(c, d) && offset + |diff| <= |data| && patch + ByteWidth(c) <= |data|
    ensures |r| == |data|
  {
    Edited(Edited(data, offset, diff), patch, PatchBytes(c, d))
  }

  /** No pad bits are fed ahead of the patch, or they leave the delta alone. */
  predicate PadsStill(c: Params, d: Bits)
    requires Valid(c) && IsState(c, d)
  {
    c.popLsb || ForwardBits(c, d, Zeros(Pad(c))) == d
  }

  /** XORing the patch in, wherever it lies, undoes what an edit does to the CRC,
      if and only if bits are popped LSB first or the delta steps to itself over
      the pad bits, of which orders of whole bytes have none. */
  lemma {:induction false} PatchKeepsCrcIff(c: Params, s: Bits, data: seq<Octet>, offset: nat, diff: seq<Octet>, patch: nat, d: Bits)
    requires Valid(c) && IsState(c, s) && offset + |diff| <= |data| && patch + ByteWidth(c) <= |data|
    requires d == StateDelta(c, offset, diff, patch)
    ensures Update(c, s, Patched(c, data, offset, diff, patch, d)) == Update(c, s, data) <==> PadsStill(c, d)
  {
    var end, contribution := offset + |diff|, ForwardBits(c, Zeros(c.order), DataBits(diff, c.popLsb));
    DeltaSame(c, offset, diff, patch, |data|, contribution, d, end);
    PatchIffSame(c, s, data, offset, diff, patch, contribution, d, end);
  }

  lemma {:induction false} DeltaSame(c: Params, offset: nat, diff: seq<Octet>, patch: nat, n: nat, contribution: Bits, d: Bits, end: nat)
    requires Valid(c) && end == offset + |diff| && end <= n && patch <= n
    requires contribution == ForwardBits(c, Zeros(c.order), DataBits(diff, c.popLsb)) && d == StateDelta(c, offset, diff, patch)
    ensures Same(c, d, patch, contribution, end, n)
  {
    MovedSame(c, contribution, d, end, patch, n, patch - end);
  }

  lemma {:induction false} PatchIffSame(c: Params, s: Bits, data: seq<Octet>, offset: nat, diff: seq<Octet>, patch: nat,
                                        contribution: Bits, d: Bits, end: nat)
    requires Valid(c) && IsState(c, s) && offset + |diff| <= |data| && patch + ByteWidth(c) <= |data|
    requires contribution == ForwardBits(c, Zeros(c.order), DataBits(diff, c.popLsb)) && end == offset + |diff|
    requires Same(c, d, patch, contribution, end, |data|)
    ensures Update(c, s, Patched(c, data, offset, diff, patch, d)) == Update(c, s, data) <==> PadsStill(c, d)
  {
    var n, fix, edited := |data|, PatchBytes(c, d), Edited(data, offset, diff);
    EditChange(data, offset, diff);
    EditChange(edited, patch, fix);
    TwoEditsDelta(c, s, data, Change(offset, diff, n), Change(patch, fix, n), Edited(edited, patch, fix));
    EditShows(c, offset, diff, patch, n, contribution, d);
    PatchShows(c, d, patch, n);
  }

  // ----- Every edit -------------------------------------------------------------------------

  /** x to the number of pad bits is 1 modulo the polynomial. */
  predicate PadsAreOne(c: Params)
    requires Valid(c)
  {
    ForwardBits(c, UnitState(c), Zeros(Pad(c))) == UnitState(c)
  }

  predicate Applies(c: Params, s: Bits, data: seq<Octet>, offset: nat, diff: seq<Octet>, patch: nat) {
    IsState(c, s) && offset + |diff| <= |data| && patch + ByteWidth(c) <= |data|
  }

  /** The edited and patched payload has the CRC of the payload. */
  predicate Keeps(c: Params, s: Bits, data: seq<Octet>, offset: nat, diff: seq<Octet>, patch: nat)
    requires Valid(c) && Applies(c, s, data, offset, diff, patch)
  {
    Update(c, s, Patched(c, data, offset, diff, patch, StateDelta(c, offset, diff, patch))) == Update(c, s, data)
  }

  /** The patch keeps the CRC for every edit, if and only if bits are popped LSB first
      or the pad bits come to nothing. */
  lemma {:induction false} PatchAlwaysKeepsIff(c: Params)
    requires Valid(c)
    ensures (forall s, data, offset, diff, patch :: Applies(c, s, data, offset, diff, patch) ==> Keeps(c, s, data, offset, diff, patch))
            <==> c.popLsb || PadsAreOne(c)
  {
    if c.popLsb || PadsAreOne(c) {
      forall s, data, offset, diff, patch | Applies(c, s, data, offset, diff, patch) ensures Keeps(c, s, data, offset, diff, patch) {
        KeepsIfOne(c, s, data, offset, diff, patch, StateDelta(c, offset, diff, patch));
      }
    } else {
      var diff := PatchMisses(c);
      assert Applies(c, c.init, ZeroBytes(2 * ByteWidth(c)), 0, diff, ByteWidth(c));
    }
  }

  lemma {:induction false} KeepsIfOne(c: Params, s: Bits, data: seq<Octet>, offset: nat, diff: seq<Octet>, patch: nat, d: Bits)
    requires Valid(c) && Applies(c, s, data, offset, diff, patch) && d == StateDelta(c, offset, diff, patch)
    requires c.popLsb || PadsAreOne(c)
    ensures Keeps(c, s, data, offset, diff, patch)
  {
    PatchKeepsCrcIff(c, s, data, offset, diff, patch, d);
    if !c.popLsb {
      OneMovesNothing(c, d, Pad(c));
    }
  }

  lemma {:induction false} OneMovesNothing(c: Params, d: Bits, p: nat)
    requires Valid(c) && IsState(c, d) && ForwardBits(c, UnitState(c), Zeros(p)) == UnitState(c)
    ensures ForwardBits(c, d, Zeros(p)) == d
  {
    var lp, u := LowPoly(c), Unit(c.order, 0);
    assert Norm(c, UnitState(c)) == u;
    ForwardIsPower(c, UnitState(c), p);
    ForwardIsPower(c, d, p);
    MulPower(lp, Norm(c, d), p);
    MulPower(lp, Norm(c, d), 0);
    NormInjective(c, ForwardBits(c, d, Zeros(p)), d);
  }

  lemma {:induction false} ForwardIsPower(c: Params, d: Bits, p: nat)
    requires Valid(c) && IsState(c, d)
    ensures Norm(c, ForwardBits(c, d, Zeros(p))) == Power(LowPoly(c), Norm(c, d), p)
  {
    ForwardBitsIsFeedAll(c, d, Zeros(p));
    FeedZeros(LowPoly(c), Norm(c, d), p);
  }

  /** Some bytes bring the state from zero to any other. */
  lemma {:induction false} EditFor(c: Params, u: Bits) returns (diff: seq<Octet>)
    requires Valid(c) && IsState(c, u) && !c.popLsb
    ensures |diff| == ByteWidth(c) && ForwardBits(c, Zeros(c.order), DataBits(diff, false)) == u
  {
    var z, zp := Zeros(c.order), Zeros(Pad(c));
    var e := BackwardBits(c, u, z);
    assert Rev(z) == z;
    RunsInvert(c, u, z);
    diff := PatchBytes(c, e);
    var a := Rev(Norm(c, e));
    PatchFeeds(c, e, a);
    ZeroStays(c, Pad(c));
    Then(c, z, zp, a, zp + a, z);
    WidthFeeds(c, e);
  }

  /** An edit of zeros, right before its patch, that the patch misses. */
  lemma {:induction false} PatchMisses(c: Params) returns (diff: seq<Octet>)
    requires Valid(c) && !c.popLsb && !PadsAreOne(c)
    ensures |diff| == ByteWidth(c)
    ensures !Keeps(c, c.init, ZeroBytes(2 * ByteWidth(c)), 0, diff, ByteWidth(c))
  {
    diff := EditFor(c, UnitState(c));
    assert Zeros(0) == [];
    PatchKeepsCrcIff(c, c.init, ZeroBytes(2 * ByteWidth(c)), 0, diff, ByteWidth(c), UnitState(c));
  }

  /** Fewer pad bits than the order move the unit. */
  lemma {:induction false} PadsMoveUnit(c: Params)
    requires Valid(c) && 0 < Pad(c) < c.order
    ensures !PadsAreOne(c)
  {
    var u, p := UnitState(c), Pad(c);
    ForwardBitsIsFeedAll(c, u, Zeros(p));
    assert Norm(c, u) == Unit(c.order, 0);
    FeedZeros(LowPoly(c), Unit(c.order, 0), p);
    PowerUnit(LowPoly(c), p);
    assert Unit(c.order, p)[0] != Unit(c.order, 0)[0];
  }
}
