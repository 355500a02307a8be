/** Expansion of a batch onto the register bus, and the aggregator that
    resolves a blob once all its register accesses have completed. */
module MemoryPending {
  import opened Wrappers
  import opened MemoryChunks
  import opened MemoryBatch
  import opened MemoryLowering

  // ----- Expansion -------------------------------------------------------------------------

  method ReadOps(s: Strategy, addr: int, size: int) returns (ps: seq<Part>)
    ensures ps == ReadParts(s, addr, size)
  {
    if s.Precise? {
      var cs := Chunks(addr, size);
      return PreciseReads(cs);
    }
    ps := [];
    if size <= 0 {
      return;
    }
    var first, last := addr - addr % 4, addr + size + 3 - (addr + size + 3) % 4;
    ps := Words(first, last, addr);
  }

  method Words(first: int, last: int, addr: int) returns (ps: seq<Part>)
    ensures ps == WordReads(first, last, addr)
  {
    ps := [];
    var word := first;
    while word < last
      invariant ps + WordReads(word, last, addr) == WordReads(first, last, addr)
      decreases last - word
    {
      ps := ps + [Part(Read(word, 4), word - addr, 4)];
      word := word + 4;
    }
  }

  method WriteOps(addr: int, data: seq<Byte>) returns (ps: seq<Part>)
    ensures ps == WriteParts(addr, data)
  {
    var cs := Chunks(addr, |data|);
    GreedyWithin(0, addr, addr + |data|);
    ps := PartsOfWrites(cs, data);
  }

  /** The flat register stream of a batch, blob parts inlined where the blob sat. */
  method FlushOps(s: Strategy, batch: seq<Op>) returns (lowered: seq<RegOp>)
    ensures lowered == Flat(Plans(s, batch))
  {
    lowered := [];
    ghost var plan: Plan := [];
    var i := 0;
    while i < |batch|
      invariant 0 <= i <= |batch| && plan == Plans(s, batch[..i]) && lowered == Flat(plan)
    {
      var ps;
      match batch[i] {
        case Register(r) => ps := [Part(r, 0, r.width)];
        case ReadBlob(addr, size) => ps := ReadOps(s, addr, size);
        case WriteBlob(addr, data) => ps := WriteOps(addr, data);
      }
      assert batch[..i + 1] == batch[..i] + [batch[i]];
      FlatSnoc(plan, ps);
      lowered := lowered + OpsOf(ps);
      plan := plan + [ps];
      i := i + 1;
    }
    assert batch[..i] == batch;
  }

  lemma {:induction false} FlatSnoc(plan: Plan, ps: seq<Part>)
    ensures Flat(plan + [ps]) == Flat(plan) + OpsOf(ps)
    decreases |plan|
  {
    if plan == [] {
      assert (plan + [ps])[1..] == [];
    } else {
      assert (plan + [ps])[1..] == plan[1..] + [ps];
      FlatSnoc(plan[1..], ps);
    }
  }

  // ----- Aggregation -------------------------------------------------------------------------

  datatype Error = Error(code: int)

  /** How a register access ended. */
  datatype Sub = Answer(value: Value) | Failed(error: Error)

  /** The blob's future. */
  datatype Outcome = Waiting | Cancelled | Result(value: Value) | Raised(error: Error)

  /** The first failure in order of completion. */
  function FirstFailure(done: seq<nat>, results: map<nat, Sub>): Option<Error> {
    if done == [] then None
    else if done[0] in results && results[done[0]].Failed? then Some(results[done[0]].error)
    else FirstFailure(done[1..], results)
  }

  predicate AnyFailed(results: map<nat, Sub>) { exists k :: k in results && results[k].Failed? }

  function ValueOf(results: map<nat, Sub>, k: nat): Value {
    if k in results && results[k].Answer? then results[k].value else Done
  }

  function Values(results: map<nat, Sub>, n: nat): (vs: seq<Value>)
    ensures |vs| == n
  {
    seq(n, k requires 0 <= k < n => ValueOf(results, k))
  }

  /** What the blob comes to once everything has completed. */
  function Final(size: nat, isRead: bool, parts: seq<Part>, results: map<nat, Sub>, done: seq<nat>): Outcome {
    match FirstFailure(done, results)
    case Some(e) => Raised(e)
    case None =>
      if isRead then Result(Bytes(Assemble(ZeroBytes(size), parts, Raws(parts, Values(results, |parts|))))) else Result(Done)
  }

  lemma {:induction false} FirstFailureSnoc(done: seq<nat>, results: map<nat, Sub>, k: nat, sub: Sub)
    requires k !in results && forall j :: j in done ==> j in results
    ensures var later := results[k := sub];
            FirstFailure(done + [k], later) ==
            if FirstFailure(done, results).Some? then FirstFailure(done, results)
            else if sub.Failed? then Some(sub.error) else None
    decreases |done|
  {
    var all := done + [k];
    if done == [] {
      assert all[1..] == [];
    } else {
      assert done[0] in done && all[1..] == done[1..] + [k];
      FirstFailureSnoc(done[1..], results, k, sub);
    }
  }

  /** It fails exactly when some access failed, and then with the failure of one. */
  lemma {:induction false} FailsIffAnyFailed(done: seq<nat>, results: map<nat, Sub>)
    requires forall k :: k in results ==> k in done
    ensures FirstFailure(done, results).Some? <==> AnyFailed(results)
    ensures FirstFailure(done, results).Some? ==>
      exists k :: k in results && results[k] == Failed(FirstFailure(done, results).value)
  {
    FirstFailureFound(done, results);
  }

  lemma {:induction false} FirstFailureFound(done: seq<nat>, results: map<nat, Sub>)
    ensures FirstFailure(done, results).Some? ==>
      exists k :: k in results && results[k] == Failed(FirstFailure(done, results).value)
    ensures FirstFailure(done, results).None? ==> forall k :: k in done && k in results ==> results[k].Answer?
    decreases |done|
  {
    if done != [] {
      FirstFailureFound(done[1..], results);
    }
  }

  /** The failure reported is that of the access that failed first. */
  lemma {:induction false} FirstToFail(done: seq<nat>, results: map<nat, Sub>) returns (i: nat)
    requires FirstFailure(done, results).Some?
    ensures i < |done| && done[i] in results && results[done[i]] == Failed(FirstFailure(done, results).value)
    ensures forall j :: 0 <= j < i && done[j] in results ==> results[done[j]].Answer?
    decreases |done|
  {
    if done[0] in results && results[done[0]].Failed? {
      i := 0;
    } else {
      var k := FirstToFail(done[1..], results);
      i := k + 1;
      forall j | 0 <= j < i && done[j] in results ensures results[done[j]].Answer? {
        if j > 0 { assert done[1..][j - 1] == done[j]; }
      }
    }
  }

  /** Without failures the order of completion does not show. */
  lemma {:induction false} OrderDoesNotShow(size: nat, isRead: bool, parts: seq<Part>, results: map<nat, Sub>,
                                            a: seq<nat>, b: seq<nat>)
    requires (forall k :: k in results ==> k in a) && forall k :: k in results ==> k in b
    ensures Final(size, isRead, parts, results, a).Raised? <==> Final(size, isRead, parts, results, b).Raised?
    ensures !AnyFailed(results) ==> Final(size, isRead, parts, results, a) == Final(size, isRead, parts, results, b)
  {
    FailsIffAnyFailed(a, results);
    FailsIffAnyFailed(b, results);
  }

  /** And the outcome is what the op resolves to from the answers. */
  lemma {:induction false} FinalResolves(op: Op, parts: seq<Part>, results: map<nat, Sub>, done: seq<nat>)
    requires !op.Register? && parts != [] && !AnyFailed(results)
    requires forall k :: k in results ==> k in done
    ensures Final(if op.ReadBlob? then Size(op.size) else |op.data|, op.ReadBlob?, parts, results, done)
         == Result(Resolve(op, parts, Values(results, |parts|)))
  {
    FailsIffAnyFailed(done, results);
  }

  class PendingBlob {
    const size: nat
    const isRead: bool
    var parts: seq<Part>
    var results: map<nat, Sub>   // the sub-futures that are done
    var remaining: int
    var failure: Option<Error>
    var outcome: Outcome
    ghost var done: seq<nat>     // in order of completion

    ghost predicate Valid()
      reads this
    {
      && (forall k :: k in results ==> k < |parts|)
      && (forall k :: k in done <==> k in results)
      && remaining == |parts| - |results| && remaining >= 0
      && failure == FirstFailure(done, results)
      && (outcome == Waiting || outcome == Cancelled ||
          (remaining == 0 && outcome == Final(size, isRead, parts, results, done)))
      && (remaining == 0 && parts != [] ==> outcome != Waiting)
    }

    constructor (size: nat, isRead: bool)
      ensures Valid() && this.size == size && this.isRead == isRead && parts == [] && outcome == Waiting
    {
      this.size, this.isRead := size, isRead;
      parts, results, remaining, failure, outcome, done := [], map[], 0, None, Waiting, [];
    }

    /** One more register access to wait for; all are attached before any
        completes. */
    method Attach(p: Part)
      requires Valid() && outcome == Waiting && results == map[]
      modifies this
      ensures Valid() && outcome == Waiting && parts == old(parts) + [p] && results == map[]
    {
      parts := parts + [p];
      remaining := remaining + 1;
    }

    /** The owner gives up on the blob. */
    method Cancel()
      requires Valid()
      modifies `outcome
      ensures Valid() && outcome == if old(outcome) == Waiting then Cancelled else old(outcome)
    {
      if outcome == Waiting {
        outcome := Cancelled;
      }
    }

    /** Access `k` completes. The blob is resolved when the last one does, once,
        whichever that is. */
    method OnDone(k: nat, sub: Sub)
      requires Valid() && k < |parts| && k !in results
      requires sub.Answer? && isRead ==> |Raw(sub.value, parts[k].width)| == parts[k].width
      modifies this
      ensures Valid() && parts == old(parts)
      ensures results == old(results)[k := sub] && done == old(done) + [k]
      ensures old(outcome) != Waiting ==> outcome == old(outcome)
      ensures old(outcome) == Waiting ==>
        outcome == if |results| == |parts| then Final(size, isRead, parts, results, done) else Waiting
    {
      FirstFailureSnoc(done, results, k, sub);
      FewerThan(results.Keys, |parts|, k);
      remaining := remaining - 1;
      if failure.None? && sub.Failed? {
        failure := Some(sub.error);
      }
      results, done := results[k := sub], done + [k];
      if remaining == 0 {
        ResolveFuture();
      }
    }

    method ResolveFuture()
      requires failure == FirstFailure(done, results)
      modifies `outcome
      ensures outcome == if old(outcome) == Waiting then Final(size, isRead, parts, results, done) else old(outcome)
    {
      if outcome != Waiting {
        return;
      }
      if failure.Some? {
        outcome := Raised(failure.value);
        return;
      }
      if !isRead {
        outcome := Result(Done);
        return;
      }
      var buf := Buffer();
      outcome := Result(Bytes(buf));
    }

    /** Every answer is clipped into the buffer at its offset. */
    method Buffer() returns (buf: seq<Byte>)
      ensures buf == Assemble(ZeroBytes(size), parts, Raws(parts, Values(results, |parts|)))
    {
      buf := ZeroBytes(size);
      ghost var raws := Raws(parts, Values(results, |parts|));
      var i := 0;
      while i < |parts|
        invariant 0 <= i <= |parts| && |buf| == size
        invariant Assemble(buf, parts[i..], raws[i..]) == Assemble(ZeroBytes(size), parts, raws)
      {
        AssembleNext(buf, parts, raws, i);
        buf := Clip(buf, parts[i].offset, Raw(ValueOf(results, i), parts[i].width));
        i := i + 1;
      }
    }
  }

  /** Overwrites the part of the buffer a sub-result falls on. */
  method Clip(was: seq<Byte>, offset: int, raw: seq<Byte>) returns (buf: seq<Byte>)
    ensures buf == Paste(was, offset, raw)
  {
    buf := was;
    var lo, hi := Max(0, offset), Min(|buf|, offset + |raw|);
    PasteIsSplice(buf, offset, raw, lo, hi);
    if lo < hi {
      buf := buf[..lo] + raw[lo - offset..hi - offset] + buf[hi..];
    }
  }

  lemma {:induction false} AssembleNext(buf: seq<Byte>, parts: seq<Part>, raws: seq<seq<Byte>>, i: nat)
    requires i < |parts| == |raws|
    ensures Assemble(buf, parts[i..], raws[i..]) == Assemble(Paste(buf, parts[i].offset, raws[i]), parts[i + 1..], raws[i + 1..])
  {
    assert parts[i..][1..] == parts[i + 1..] && raws[i..][1..] == raws[i + 1..];
  }

  lemma {:induction false} FewerThan(s: set<nat>, n: nat, k: nat)
    requires (forall j :: j in s ==> j < n) && k < n && k !in s
    ensures |s| < n
    decreases n
  {
    var top := n - 1;
    if top == k {
      AtMost(s, k);
    } else {
      FewerThan(s - {top}, top, k);
    }
  }

  lemma {:induction false} AtMost(s: set<nat>, n: nat)
    requires forall j :: j in s ==> j < n
    ensures |s| <= n
  {
    if n > 0 {
      AtMost(s - {n - 1}, n - 1);
    } else {
      assert s == {};
    }
  }
}
