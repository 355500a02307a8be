/** Batches of blob and register ops served by a stream of register ops:
    reassembly of blobs, and refinement over whole batches. */
module MemoryBatch {

  type Byte = x: int | 0 <= x < 256

  datatype RegOp = Read(addr: int, width: nat) | Write(addr: int, width: nat, value: int)

  datatype Op = Register(op: RegOp) | ReadBlob(addr: int, size: int) | WriteBlob(addr: int, data: seq<Byte>)

  datatype Value = Int(v: int) | Bytes(bs: seq<Byte>) | Done

  /** A register op and the part of the blob it serves. */
  datatype Part = Part(op: RegOp, offset: int, width: nat)

  function OpsOf(ps: seq<Part>): (ops: seq<RegOp>)
    ensures |ops| == |ps|
  {
    seq(|ps|, i requires 0 <= i < |ps| => ps[i].op)
  }

  // ----- Reassembly -------------------------------------------------------------------------

  function Max(a: int, b: int): int { if a < b then b else a }

  function Min(a: int, b: int): int { if a < b then a else b }

  /** One sub-result clipped to the blob's window. */
  function Paste(buf: seq<Byte>, offset: int, raw: seq<Byte>): (r: seq<Byte>)
    ensures |r| == |buf|
  {
    seq(|buf|, i requires 0 <= i < |buf| => if offset <= i < offset + |raw| then raw[i - offset] else buf[i])
  }

  /** As slices. */
  lemma {:induction false} PasteIsSplice(buf: seq<Byte>, offset: int, raw: seq<Byte>, lo: int, hi: int)
    requires lo == Max(0, offset) && hi == Min(|buf|, offset + |raw|)
    ensures Paste(buf, offset, raw) == if hi <= lo then buf else buf[..lo] + raw[lo - offset..hi - offset] + buf[hi..]
  {
    if lo < hi {
      forall i | 0 <= i < |buf|
        ensures Paste(buf, offset, raw)[i] == (buf[..lo] + raw[lo - offset..hi - offset] + buf[hi..])[i]
      {
        Spliced(buf, raw[lo - offset..hi - offset], lo, hi, i);
      }
    }
  }

  lemma {:induction false} Spliced(buf: seq<Byte>, mid: seq<Byte>, lo: nat, hi: nat, i: nat)
    requires i < |buf| && lo <= hi <= |buf| && |mid| == hi - lo
    ensures |buf[..lo] + mid + buf[hi..]| == |buf|
    ensures (buf[..lo] + mid + buf[hi..])[i] == if lo <= i < hi then mid[i - lo] else buf[i]
  {}

  function ZeroBytes(n: nat): (bs: seq<Byte>)
    ensures |bs| == n
  {
    seq(n, _ => 0)
  }

  /** All sub-results, `raws`, at their offsets. */
  function Assemble(buf: seq<Byte>, ps: seq<Part>, raws: seq<seq<Byte>>): (r: seq<Byte>)
    requires |ps| == |raws|
    ensures |r| == |buf|
    decreases |ps|
  {
    if ps == [] then buf else Assemble(Paste(buf, ps[0].offset, raws[0]), ps[1..], raws[1..])
  }

  /** A part holds byte `i` of the blob. */
  predicate Covered(ps: seq<Part>, i: int) {
    exists k :: 0 <= k < |ps| && ps[k].offset <= i < ps[k].offset + ps[k].width
  }

  lemma {:induction false} CoveredTail(ps: seq<Part>, i: int)
    requires ps != []
    ensures Covered(ps, i) <==> (ps[0].offset <= i < ps[0].offset + ps[0].width) || Covered(ps[1..], i)
  {
    if Covered(ps[1..], i) {
      var k :| 0 <= k < |ps[1..]| && ps[1..][k].offset <= i < ps[1..][k].offset + ps[1..][k].width;
      assert ps[k + 1] == ps[1..][k];
    }
    if Covered(ps, i) && !(ps[0].offset <= i < ps[0].offset + ps[0].width) {
      var k :| 0 <= k < |ps| && ps[k].offset <= i < ps[k].offset + ps[k].width;
      assert ps[1..][k - 1] == ps[k];
    }
  }

  /** The bytes a part read are those of `image` at its offset. */
  ghost predicate Shows(p: Part, raw: seq<Byte>, image: int -> Byte) {
    |raw| == p.width && forall j :: 0 <= j < |raw| ==> raw[j] == image(p.offset + j)
  }

  /** Whatever the parts cover is right, in whatever order they are pasted. */
  lemma {:induction false} AssembleRight(buf: seq<Byte>, ps: seq<Part>, raws: seq<seq<Byte>>, image: int -> Byte, i: nat)
    requires |ps| == |raws| && i < |buf|
    requires forall k :: 0 <= k < |ps| ==> Shows(ps[k], raws[k], image)
    ensures Covered(ps, i) || buf[i] == image(i) ==> Assemble(buf, ps, raws)[i] == image(i)
    decreases |ps|
  {
    if ps != [] {
      assert Shows(ps[0], raws[0], image);
      CoveredTail(ps, i);
      AssembleRight(Paste(buf, ps[0].offset, raws[0]), ps[1..], raws[1..], image, i);
    }
  }

  // ----- Batches ------------------------------------------------------------------------------

  /** A device with state `M`: what an op does to it and what it answers. */
  datatype Device<!M, !O> = Device(next: (M, O) -> M, answer: (M, O) -> Value)

  datatype Ran<M> = Ran(state: M, values: seq<Value>)

  function RunOn<M, O>(d: Device<M, O>, m: M, ops: seq<O>): (r: Ran<M>)
    ensures |r.values| == |ops|
    decreases |ops|
  {
    if ops == [] then Ran(m, [])
    else
      var rest := RunOn(d, d.next(m, ops[0]), ops[1..]);
      Ran(rest.state, [d.answer(m, ops[0])] + rest.values)
  }

  lemma {:induction false} RunConcat<M, O>(d: Device<M, O>, m: M, a: seq<O>, b: seq<O>)
    ensures RunOn(d, m, a + b).state == RunOn(d, RunOn(d, m, a).state, b).state
    ensures RunOn(d, m, a + b).values == RunOn(d, m, a).values + RunOn(d, RunOn(d, m, a).state, b).values
    decreases |a|
  {
    if a == [] {
      assert a + b == b;
    } else {
      assert (a + b)[0] == a[0] && (a + b)[1..] == a[1..] + b;
      RunConcat(d, d.next(m, a[0]), a[1..], b);
    }
  }

  /** The parts of every op of a batch, and how values of parts make one value. */
  type Plan = seq<seq<Part>>

  type Resolver = (Op, seq<Part>, seq<Value>) -> Value

  function Flat(plan: Plan): seq<RegOp> {
    if plan == [] then [] else OpsOf(plan[0]) + Flat(plan[1..])
  }

  /** On any state of the bus the parts of an op do what the op does whole. */
  ghost predicate Serves<M(!new)>(bus: Device<M, RegOp>, whole: Device<M, Op>, resolve: Resolver, op: Op, ps: seq<Part>) {
    forall m: M ::
      && RunOn(bus, m, OpsOf(ps)).state == whole.next(m, op)
      && resolve(op, ps, RunOn(bus, m, OpsOf(ps)).values) == whole.answer(m, op)
  }

  /** Where the results of op `i` start in the flat stream. */
  function Start(plan: Plan, i: nat): nat
    requires i <= |plan|
  {
    |Flat(plan[..i])|
  }

  lemma {:induction false} StartTail(plan: Plan, i: nat)
    requires 0 < i <= |plan|
    ensures Start(plan, i) == |plan[0]| + Start(plan[1..], i - 1)
  {
    assert plan[..i][1..] == plan[1..][..i - 1];
  }

  lemma {:induction false} StartFits(plan: Plan, i: nat)
    requires i < |plan|
    ensures Start(plan, i) + |plan[i]| <= |Flat(plan)|
    decreases |plan|
  {
    if i == 0 {
      assert plan[..0] == [];
    } else {
      StartTail(plan, i);
      StartFits(plan[1..], i - 1);
    }
  }

  /** Op `i` is resolved, from its own stretch of the results, with `v`. */
  predicate ResolvesTo(resolve: Resolver, batch: seq<Op>, plan: Plan, values: seq<Value>, i: nat, v: Value)
    requires i < |batch| == |plan|
  {
    && Start(plan, i) + |plan[i]| <= |values|
    && resolve(batch[i], plan[i], values[Start(plan, i)..][..|plan[i]|]) == v
  }

  lemma {:induction false} ResolvesHead(resolve: Resolver, batch: seq<Op>, plan: Plan, head: seq<Value>, rest: seq<Value>, v: Value)
    requires 0 < |batch| == |plan| && |head| == |plan[0]| && resolve(batch[0], plan[0], head) == v
    ensures ResolvesTo(resolve, batch, plan, head + rest, 0, v)
  {
    assert plan[..0] == [];
    assert (head + rest)[0..][..|plan[0]|] == head;
  }

  lemma {:induction false} ResolvesLater(resolve: Resolver, batch: seq<Op>, plan: Plan, head: seq<Value>, rest: seq<Value>, i: nat, v: Value)
    requires 0 < i < |batch| == |plan| && |head| == |plan[0]|
    requires ResolvesTo(resolve, batch[1..], plan[1..], rest, i - 1, v)
    ensures ResolvesTo(resolve, batch, plan, head + rest, i, v)
  {
    StartTail(plan, i);
    var st, n := Start(plan[1..], i - 1), |plan[i]|;
    assert (head + rest)[|head| + st..][..n] == rest[st..][..n];
  }

  /** For every batch: the flat stream leaves the state the whole ops would, and
      every op is resolved with the value it would have had. */
  lemma {:induction false} PlanRefines<M(!new)>(bus: Device<M, RegOp>, whole: Device<M, Op>, resolve: Resolver,
                                                m: M, batch: seq<Op>, plan: Plan)
    requires |plan| == |batch| && forall i :: 0 <= i < |batch| ==> Serves(bus, whole, resolve, batch[i], plan[i])
    ensures RunOn(bus, m, Flat(plan)).state == RunOn(whole, m, batch).state
    ensures forall i :: 0 <= i < |batch| ==>
      ResolvesTo(resolve, batch, plan, RunOn(bus, m, Flat(plan)).values, i, RunOn(whole, m, batch).values[i])
    decreases |batch|
  {
    if batch != [] {
      assert Serves(bus, whole, resolve, batch[0], plan[0]);
      var head := RunOn(bus, m, OpsOf(plan[0]));
      RunConcat(bus, m, OpsOf(plan[0]), Flat(plan[1..]));
      PlanRefines(bus, whole, resolve, head.state, batch[1..], plan[1..]);
      var rest := RunOn(bus, head.state, Flat(plan[1..])).values;
      forall i | 0 <= i < |batch|
        ensures ResolvesTo(resolve, batch, plan, head.values + rest, i, RunOn(whole, m, batch).values[i])
      {
        if i == 0 {
          ResolvesHead(resolve, batch, plan, head.values, rest, whole.answer(m, batch[0]));
        } else {
          ResolvesLater(resolve, batch, plan, head.values, rest, i, RunOn(whole, m, batch).values[i]);
        }
      }
    }
  }
}
