/** Scan registers as bit strings, the bit nearest to TDO first. */
module ScanChain {
  import opened BitSequences
  import opened Wrappers

  /** A place in a chain as a probe finds it: the code its TAP shows after reset,
      if any, and the length of its instruction register. */
  datatype Slot = Slot(idcode: Option<Bits>, irlen: nat)

  /** What leaves through TDO while `tdi` is shifted in. */
  function ShiftOut(reg: Bits, tdi: Bits): (r: Bits)
    ensures |r| == |tdi|
  {
    (reg + tdi)[..|tdi|]
  }

  /** What the register holds afterwards. */
  function ShiftIn(reg: Bits, tdi: Bits): (r: Bits)
    ensures |r| == |reg|
  {
    (reg + tdi)[|tdi|..]
  }

  function Concat(parts: seq<Bits>): Bits {
    if parts == [] then [] else parts[0] + Concat(parts[1..])
  }

  lemma {:induction false} ConcatConcat(a: seq<Bits>, b: seq<Bits>)
    ensures Concat(a + b) == Concat(a) + Concat(b)
    decreases |a|
  {
    if a == [] {
      assert a + b == b;
    } else {
      assert (a + b)[1..] == a[1..] + b;
      ConcatConcat(a[1..], b);
    }
  }
}
