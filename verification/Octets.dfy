/** Bytes as eight bits, LSB first, and the bit strings they spell. */
module Octets {
  import opened BitSequences

  type Octet = b: Bits | |b| == 8 witness Zeros(8)

  function Flat(bs: seq<Octet>): (r: Bits)
    ensures |r| == 8 * |bs|
  {
    if bs == [] then [] else bs[0] + Flat(bs[1..])
  }

  lemma {:induction false} FlatSnoc(bs: seq<Octet>, b: Octet)
    ensures Flat(bs + [b]) == Flat(bs) + b
    decreases |bs|
  {
    if bs == [] {
      assert (bs + [b])[1..] == [];
    } else {
      assert (bs + [b])[1..] == bs[1..] + [b];
      FlatSnoc(bs[1..], b);
    }
  }

  lemma {:induction false} FlatConcat(a: seq<Octet>, b: seq<Octet>)
    ensures Flat(a + b) == Flat(a) + Flat(b)
    decreases |a|
  {
    if a == [] {
      assert a + b == b;
    } else {
      assert (a + b)[1..] == a[1..] + b;
      FlatConcat(a[1..], b);
    }
  }
}
