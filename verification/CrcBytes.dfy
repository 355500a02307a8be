/** CRC over byte strings: update and its inverse, the delta of an edit, and
    the residue check. */
module CrcBytes {
  import opened BitSequences
  import opened Octets
  import opened Gf2
  import opened Crc

  // ----- Octet strings as bits ------------------------------------------------------------

  /** `bytes_iterate` */
  function DataBits(data: seq<Octet>, popLsb: bool): (r: Bits)
    ensures |r| == 8 * |data|
  {
    if data == [] then [] else Iterate(data[0], popLsb) + DataBits(data[1..], popLsb)
  }

  lemma {:induction false} DataBitsConcat(a: seq<Octet>, b: seq<Octet>, popLsb: bool)
    ensures DataBits(a + b, popLsb) == DataBits(a, popLsb) + DataBits(b, popLsb)
    decreases |a|
  {
    if a == [] {
      assert a + b == b;
    } else {
      assert (a + b)[0] == a[0] && (a + b)[1..] == a[1..] + b;
      DataBitsConcat(a[1..], b, popLsb);
    }
  }

  function XorBytes(a: seq<Octet>, b: seq<Octet>): (r: seq<Octet>)
    requires |a| == |b|
    ensures |r| == |a|
  {
    seq(|a|, i requires 0 <= i < |a| => Xor(a[i], b[i]))
  }

  lemma {:induction false} DataBitsXor(a: seq<Octet>, b: seq<Octet>, popLsb: bool)
    requires |a| == |b|
    ensures DataBits(XorBytes(a, b), popLsb) == Xor(DataBits(a, popLsb), DataBits(b, popLsb))
    decreases |a|
  {
    if a != [] {
      assert XorBytes(a, b)[1..] == XorBytes(a[1..], b[1..]);
      DataBitsXor(a[1..], b[1..], popLsb);
      RevXor(a[0], b[0]);
      XorConcat(Iterate(a[0], popLsb), DataBits(a[1..], popLsb), Iterate(b[0], popLsb), DataBits(b[1..], popLsb));
    }
  }

  lemma {:induction false} RevXor(a: Bits, b: Bits)
    requires |a| == |b|
    ensures Rev(Xor(a, b)) == Xor(Rev(a), Rev(b))
  {}

  lemma {:induction false} XorConcat(a: Bits, b: Bits, c: Bits, d: Bits)
    requires |a| == |c| && |b| == |d|
    ensures Xor(a + b, c + d) == Xor(a, c) + Xor(b, d)
  {}

  lemma {:induction false} DataBitsInjective(a: seq<Octet>, b: seq<Octet>, popLsb: bool)
    requires |a| == |b| && DataBits(a, popLsb) == DataBits(b, popLsb)
    ensures a == b
    decreases |a|
  {
    if a != [] {
      var x, y := Iterate(a[0], popLsb), Iterate(b[0], popLsb);
      assert DataBits(a, popLsb)[..8] == x && DataBits(b, popLsb)[..8] == y;
      assert DataBits(a, popLsb)[8..] == DataBits(a[1..], popLsb);
      assert DataBits(b, popLsb)[8..] == DataBits(b[1..], popLsb);
      DataBitsInjective(a[1..], b[1..], popLsb);
      RevTwice(a[0]);
      RevTwice(b[0]);
      assert a == [a[0]] + a[1..] && b == [b[0]] + b[1..];
    }
  }

  lemma {:induction false} RevTwice(a: Bits)
    ensures Rev(Rev(a)) == a
  {}

  lemma {:induction false} RevConcat(a: Bits, b: Bits)
    ensures Rev(a + b) == Rev(b) + Rev(a)
  {}

  function Reversed(data: seq<Octet>): (r: seq<Octet>)
    ensures |r| == |data|
  {
    seq(|data|, i requires 0 <= i < |data| => data[|data| - 1 - i])
  }

  /** Bytes and bits in them both the other way round. */
  lemma {:induction false} ReversedBits(data: seq<Octet>, popLsb: bool)
    ensures DataBits(Reversed(data), !popLsb) == Rev(DataBits(data, popLsb))
    decreases |data|
  {
    if data == [] {
      assert Rev([]) == [];
    } else {
      var first, rest := [data[0]], data[1..];
      assert Reversed(data) == Reversed(rest) + first;
      DataBitsConcat(Reversed(rest), first, !popLsb);
      ReversedBits(rest, popLsb);
      assert first[1..] == [];
      RevConcat(Iterate(data[0], popLsb), DataBits(rest, popLsb));
      RevTwice(data[0]);
    }
  }

  // ----- Update and its inverse -----------------------------------------------------

  /** The input stream: bits in pop order, complemented where asked. */
  function InputBits(c: Params, data: seq<Octet>): (r: Bits)
    ensures |r| == 8 * |data|
  {
    DataBits(if c.complementInput then Not(data) else data, c.popLsb)
  }

  function Complement(b: Octet): Octet { seq(8, i requires 0 <= i < 8 => !b[i]) }

  function Not(data: seq<Octet>): (r: seq<Octet>)
    ensures |r| == |data|
  {
    seq(|data|, i requires 0 <= i < |data| => Complement(data[i]))
  }

  function StateComp(c: Params): (r: Bits)
    ensures IsState(c, r)
  {
    seq(c.order, _ => c.complementState)
  }

  function Update(c: Params, s: Bits, data: seq<Octet>): (r: Bits)
    requires Valid(c) && IsState(c, s)
    ensures IsState(c, r)
  {
    Xor(StateComp(c), ForwardBits(c, Xor(StateComp(c), s), InputBits(c, data)))
  }

  function Unupdate(c: Params, s: Bits, data: seq<Octet>): (r: Bits)
    requires Valid(c) && IsState(c, s)
    ensures IsState(c, r)
  {
    var input := if c.complementInput then Not(data) else data;
    Xor(StateComp(c), BackwardBits(c, Xor(StateComp(c), s), DataBits(Reversed(input), !c.popLsb)))
  }

  /** `_forward_bytes` */
  method ForwardBytes(c: Params, s: Bits, data: seq<Octet>) returns (r: Bits)
    requires Valid(c) && IsState(c, s)
    ensures r == ForwardBits(c, s, DataBits(data, c.popLsb))
  {
    r := s;
    var bits, i := DataBits(data, c.popLsb), 0;
    assert bits[0..] == bits;
    while i < |bits|
      invariant 0 <= i <= |bits| && IsState(c, r)
      invariant ForwardBits(c, r, bits[i..]) == ForwardBits(c, s, bits)
    {
      assert bits[i..][1..] == bits[i + 1..];
      r := Forward(c, r, bits[i]);
      i := i + 1;
    }
  }

  /** Rolling data back out of a state restores it, for every flag setting. */
  lemma {:induction false} UnupdateInverts(c: Params, s: Bits, data: seq<Octet>)
    requires Valid(c) && IsState(c, s)
    ensures Unupdate(c, Update(c, s, data), data) == s
    ensures Update(c, Unupdate(c, s, data), data) == s
  {
    var input := if c.complementInput then Not(data) else data;
    var bits, k := InputBits(c, data), StateComp(c);
    ReversedBits(input, c.popLsb);
    RunsInvert(c, Xor(k, s), bits);
    XorBack(k, s);
    XorBack(k, ForwardBits(c, Xor(k, s), bits));
    XorBack(k, BackwardBits(c, Xor(k, s), Rev(bits)));
  }

  lemma {:induction false} XorBack(k: Bits, s: Bits)
    requires |k| == |s|
    ensures Xor(k, Xor(k, s)) == s
  {}

  // ----- Edits ---------------------------------------------------------------------------

  /** `data_mod_state_delta_compute` */
  function StateDelta(c: Params, dataOffset: nat, diff: seq<Octet>, patchOffset: nat): (r: Bits)
    requires Valid(c)
    ensures IsState(c, r)
  {
    Moved(c, ForwardBits(c, Zeros(c.order), DataBits(diff, c.popLsb)), patchOffset - (dataOffset + |diff|))
  }

  /** A change of the state `bytes` bytes further on, or back. */
  function Moved(c: Params, s: Bits, bytes: int): (r: Bits)
    requires Valid(c) && IsState(c, s)
    ensures IsState(c, r)
  {
    if bytes > 0 then ForwardMany(c, s, 8 * bytes) else BackwardBits(c, s, Zeros(8 * -bytes))
  }

  lemma {:induction false} MovedOn(c: Params, s: Bits, bytes: nat)
    requires Valid(c) && IsState(c, s)
    ensures Moved(c, s, bytes) == ForwardBits(c, s, Zeros(8 * bytes))
  {
    if bytes > 0 {
      SeekIsSteps(c, s, 8 * bytes);
    }
  }

  lemma {:induction false} MovedBack(c: Params, s: Bits, bytes: int)
    requires Valid(c) && IsState(c, s) && bytes >= 0
    ensures ForwardBits(c, Moved(c, s, -bytes), Zeros(8 * bytes)) == s
  {
    assert Rev(Zeros(8 * bytes)) == Zeros(8 * bytes);
    RunsInvert(c, s, Zeros(8 * bytes));
  }

  /** `data` with `diff` XORed in at `offset`. */
  function Edited(data: seq<Octet>, offset: nat, diff: seq<Octet>): (r: seq<Octet>)
    requires offset + |diff| <= |data|
    ensures |r| == |data|
  {
    data[..offset] + XorBytes(data[offset..offset + |diff|], diff) + data[offset + |diff|..]
  }

  lemma {:induction false} ForwardXor(c: Params, s: Bits, t: Bits, a: Bits, b: Bits)
    requires Valid(c) && IsState(c, s) && IsState(c, t) && |a| == |b|
    ensures Xor(ForwardBits(c, s, a), ForwardBits(c, t, b)) == ForwardBits(c, Xor(s, t), Xor(a, b))
  {
    var lp := LowPoly(c);
    ForwardBitsIsFeedAll(c, s, a);
    ForwardBitsIsFeedAll(c, t, b);
    ForwardBitsIsFeedAll(c, Xor(s, t), Xor(a, b));
    NormXor(c, s, t);
    NormXor(c, ForwardBits(c, s, a), ForwardBits(c, t, b));
    FeedAllXor(lp, Norm(c, s), Norm(c, t), a, b);
    NormInjective(c, Xor(ForwardBits(c, s, a), ForwardBits(c, t, b)), ForwardBits(c, Xor(s, t), Xor(a, b)));
  }

  /** Two inputs of one length differ in state by the state of their XOR. */
  lemma {:induction false} UpdateDelta(c: Params, s: Bits, a: seq<Octet>, b: seq<Octet>)
    requires Valid(c) && IsState(c, s) && |a| == |b|
    ensures Xor(Update(c, s, a), Update(c, s, b)) ==
            ForwardBits(c, Zeros(c.order), DataBits(XorBytes(a, b), c.popLsb))
  {
    var k := StateComp(c);
    var x, y := InputBits(c, a), InputBits(c, b);
    var z := Xor(k, s);
    ForwardXor(c, z, z, x, y);
    XorZero(z);
    XorDrop(k, ForwardBits(c, z, x), ForwardBits(c, z, y));
    if c.complementInput {
      DataBitsXor(Not(a), Not(b), c.popLsb);
      assert XorBytes(Not(a), Not(b)) == XorBytes(a, b) by {
        forall i | 0 <= i < |a| ensures XorBytes(Not(a), Not(b))[i] == XorBytes(a, b)[i] { NotXor(a[i], b[i]); }
      }
    } else {
      DataBitsXor(a, b, c.popLsb);
    }
  }

  lemma {:induction false} NotXor(a: Octet, b: Octet)
    ensures Xor(Complement(a), Complement(b)) == Xor(a, b)
  {}

  lemma {:induction false} XorDrop(k: Bits, a: Bits, b: Bits)
    requires |k| == |a| == |b|
    ensures Xor(Xor(k, a), Xor(k, b)) == Xor(a, b)
  {}

  /** The delta computed from the edit alone is the XOR of the two CRC states
      at every later offset, whatever the rest of the payload. */
  lemma {:induction false} DeltaIsStateXor(c: Params, s: Bits, data: seq<Octet>, offset: nat, diff: seq<Octet>, patch: nat)
    requires Valid(c) && IsState(c, s) && offset + |diff| <= patch <= |data|
    ensures Xor(Update(c, s, Edited(data, offset, diff)[..patch]), Update(c, s, data[..patch])) ==
            StateDelta(c, offset, diff, patch)
  {
    var before, after := data[..patch], Edited(data, offset, diff)[..patch];
    var gap := patch - (offset + |diff|);
    UpdateDelta(c, s, after, before);
    EditedXor(data, offset, diff, patch);
    ChangeIsDelta(c, offset, diff, patch, gap, XorBytes(after, before));
  }

  lemma {:induction false} ChangeIsDelta(c: Params, offset: nat, diff: seq<Octet>, n: nat, gap: nat, change: seq<Octet>)
    requires Valid(c) && offset + |diff| <= n && gap == n - (offset + |diff|)
    requires change == ZeroBytes(offset) + diff + ZeroBytes(gap)
    ensures ForwardBits(c, Zeros(c.order), DataBits(change, c.popLsb)) == StateDelta(c, offset, diff, n)
  {
    ChangeAt(c, offset, diff, n, gap);
    MovedOn(c, ForwardBits(c, Zeros(c.order), DataBits(diff, c.popLsb)), gap);
  }

  /** What a change of some bytes does to the state at the end of `n`, `gap` bytes on. */
  lemma {:induction false} ChangeAt(c: Params, offset: nat, diff: seq<Octet>, n: nat, gap: nat)
    requires Valid(c) && offset + |diff| <= n && gap == n - (offset + |diff|)
    ensures ForwardBits(c, Zeros(c.order), DataBits(ZeroBytes(offset) + diff + ZeroBytes(gap), c.popLsb))
         == ForwardBits(c, ForwardBits(c, Zeros(c.order), DataBits(diff, c.popLsb)), Zeros(8 * gap))
  {
    var z := Zeros(c.order);
    DataBitsConcat(ZeroBytes(offset) + diff, ZeroBytes(gap), c.popLsb);
    DataBitsConcat(ZeroBytes(offset), diff, c.popLsb);
    ZeroBytesBits(offset, c.popLsb);
    ZeroBytesBits(gap, c.popLsb);
    ForwardBitsConcat(c, z, Zeros(8 * offset) + DataBits(diff, c.popLsb), Zeros(8 * gap));
    ForwardBitsConcat(c, z, Zeros(8 * offset), DataBits(diff, c.popLsb));
    ZeroStays(c, 8 * offset);
  }

  /** Before the edit, stepping the delta forward to the end of the edit
      gives the edit's contribution: it is the state correction to apply there. */
  lemma {:induction false} EarlyDelta(c: Params, offset: nat, diff: seq<Octet>, patch: nat)
    requires Valid(c) && patch <= offset + |diff|
    ensures ForwardBits(c, StateDelta(c, offset, diff, patch), Zeros(8 * (offset + |diff| - patch))) ==
            ForwardBits(c, Zeros(c.order), DataBits(diff, c.popLsb))
  {
    MovedBack(c, ForwardBits(c, Zeros(c.order), DataBits(diff, c.popLsb)), offset + |diff| - patch);
  }

  function ZeroBytes(n: nat): (r: seq<Octet>)
    ensures |r| == n
  {
    seq(n, _ => Zeros(8))
  }

  lemma {:induction false} ZeroBytesBits(n: nat, popLsb: bool)
    ensures DataBits(ZeroBytes(n), popLsb) == Zeros(8 * n)
    decreases n
  {
    if n > 0 {
      assert ZeroBytes(n)[1..] == ZeroBytes(n - 1);
      ZeroBytesBits(n - 1, popLsb);
      assert Rev(Zeros(8)) == Zeros(8);
      assert Zeros(8) + Zeros(8 * (n - 1)) == Zeros(8 * n);
    }
  }

  lemma {:induction false} EditedXor(data: seq<Octet>, offset: nat, diff: seq<Octet>, patch: nat)
    requires offset + |diff| <= patch <= |data|
    ensures XorBytes(Edited(data, offset, diff)[..patch], data[..patch]) ==
            ZeroBytes(offset) + diff + ZeroBytes(patch - (offset + |diff|))
  {
    var e := Edited(data, offset, diff);
    forall i | 0 <= i < patch
      ensures Xor(e[i], data[i]) == (ZeroBytes(offset) + diff + ZeroBytes(patch - (offset + |diff|)))[i]
    {
      XorTwice(data[i], if offset <= i < offset + |diff| then diff[i - offset] else data[i]);
    }
  }

  lemma {:induction false} XorTwice(a: Octet, b: Octet)
    ensures Xor(Xor(a, b), a) == b && Xor(a, a) == Zeros(8)
  {}

  lemma {:induction false} ZeroStays(c: Params, n: nat)
    requires Valid(c)
    ensures ForwardBits(c, Zeros(c.order), Zeros(n)) == Zeros(c.order)
    decreases n
  {
    if n > 0 {
      assert Forward(c, Zeros(c.order), false) == Zeros(c.order);
      assert Zeros(n)[1..] == Zeros(n - 1);
      ZeroStays(c, n - 1);
    }
  }
}
