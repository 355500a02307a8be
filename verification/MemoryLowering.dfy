/** Serving blob accesses from register accesses on a flat byte memory. */
module MemoryLowering {
  import opened MemoryChunks
  import opened MemoryBatch

  /** A byte at every address: the cells written so far over a background. */
  datatype Memory = Memory(cells: map<int, Byte>, background: int -> Byte)

  function At(m: Memory, a: int): Byte { if a in m.cells then m.cells[a] else m.background(a) }

  function LittleEndian(bs: seq<Byte>): nat {
    if bs == [] then 0 else bs[0] + 256 * LittleEndian(bs[1..])
  }

  function ToBytes(v: int, n: nat): (bs: seq<Byte>)
    ensures |bs| == n
    decreases n
  {
    if n == 0 then [] else [v % 256] + ToBytes(v / 256, n - 1)
  }

  lemma {:induction false} BytesRoundTrip(bs: seq<Byte>)
    ensures ToBytes(LittleEndian(bs), |bs|) == bs
    decreases |bs|
  {
    if bs != [] {
      BytesRoundTrip(bs[1..]);
      assert LittleEndian(bs) % 256 == bs[0] && LittleEndian(bs) / 256 == LittleEndian(bs[1..]);
    }
  }

  function Peek(m: Memory, addr: int, n: nat): (bs: seq<Byte>)
    ensures |bs| == n
  {
    seq<Byte>(n, i => At(m, addr + i))
  }

  function Poke(m: Memory, addr: int, bs: seq<Byte>): Memory
    decreases |bs|
  {
    if bs == [] then m else Poke(m.(cells := m.cells[addr := bs[0]]), addr + 1, bs[1..])
  }

  /** Poke stores the bytes and touches no other address. */
  lemma {:induction false} PokeStores(m: Memory, addr: int, bs: seq<Byte>, a: int)
    ensures At(Poke(m, addr, bs), a) == if addr <= a < addr + |bs| then bs[a - addr] else At(m, a)
    decreases |bs|
  {
    if bs != [] {
      PokeStores(m.(cells := m.cells[addr := bs[0]]), addr + 1, bs[1..], a);
    }
  }

  lemma {:induction false} PokeConcat(m: Memory, addr: int, x: seq<Byte>, y: seq<Byte>)
    ensures Poke(Poke(m, addr, x), addr + |x|, y) == Poke(m, addr, x + y)
    decreases |x|
  {
    if x == [] {
      assert x + y == y;
    } else {
      assert (x + y)[0] == x[0] && (x + y)[1..] == x[1..] + y;
      PokeConcat(m.(cells := m.cells[addr := x[0]]), addr + 1, x[1..], y);
    }
  }

  // ----- What the ops mean ------------------------------------------------------------------

  function RegNext(m: Memory, op: RegOp): Memory {
    if op.Read? then m else Poke(m, op.addr, ToBytes(op.value, op.width))
  }

  function RegAnswer(m: Memory, op: RegOp): Value {
    if op.Read? then Int(LittleEndian(Peek(m, op.addr, op.width))) else Done
  }

  function Size(size: int): nat { if size < 0 then 0 else size }

  function WholeNext(m: Memory, op: Op): Memory {
    match op
    case Register(r) => RegNext(m, r)
    case ReadBlob(_, _) => m
    case WriteBlob(addr, data) => Poke(m, addr, data)
  }

  function WholeAnswer(m: Memory, op: Op): Value {
    match op
    case Register(r) => RegAnswer(m, r)
    case ReadBlob(addr, size) => Bytes(Peek(m, addr, Size(size)))
    case WriteBlob(_, _) => Done
  }

  /** The register bus, and the memory that serves blobs whole. */
  function Bus(): Device<Memory, RegOp> { Device(RegNext, RegAnswer) }

  function Whole(): Device<Memory, Op> { Device(WholeNext, WholeAnswer) }

  // ----- Lowering -------------------------------------------------------------------------

  datatype Strategy = Precise | Overwide

  function PreciseReads(cs: seq<Chunk>): (ps: seq<Part>)
    ensures |ps| == |cs|
  {
    seq(|cs|, i requires 0 <= i < |cs| => Part(Read(cs[i].addr, cs[i].width), cs[i].offset, cs[i].width))
  }

  /** Aligned words from `word` up to `last`. */
  function WordReads(word: int, last: int, addr: int): (ps: seq<Part>)
    decreases last - word
  {
    if word >= last then [] else [Part(Read(word, 4), word - addr, 4)] + WordReads(word + 4, last, addr)
  }

  function ReadParts(s: Strategy, addr: int, size: int): seq<Part> {
    match s
    case Precise => PreciseReads(Greedy(0, addr, addr + size))
    case Overwide =>
      if size <= 0 then [] else WordReads(addr - addr % 4, addr + size + 3 - (addr + size + 3) % 4, addr)
  }

  function WritePart(c: Chunk, data: seq<Byte>): Part
    requires 0 <= c.offset && c.offset + c.width <= |data|
  {
    Part(Write(c.addr, c.width, LittleEndian(data[c.offset..c.offset + c.width])), c.offset, c.width)
  }

  predicate Within(cs: seq<Chunk>, n: nat) {
    forall i :: 0 <= i < |cs| ==> 0 <= cs[i].offset && cs[i].offset + cs[i].width <= n
  }

  function PartsOfWrites(cs: seq<Chunk>, data: seq<Byte>): (ps: seq<Part>)
    requires Within(cs, |data|)
    ensures |ps| == |cs|
  {
    seq(|cs|, i requires 0 <= i < |cs| => WritePart(cs[i], data))
  }

  function WriteParts(addr: int, data: seq<Byte>): seq<Part> {
    GreedyWithin(0, addr, addr + |data|);
    PartsOfWrites(Greedy(0, addr, addr + |data|), data)
  }

  lemma {:induction false} GreedyWithin(offset: int, cursor: int, end: int)
    requires 0 <= offset && cursor <= end
    ensures Within(Greedy(offset, cursor, end), offset + end - cursor)
    decreases end - cursor
  {
    if cursor < end {
      GreedyWithin(offset + Widest(cursor, end), cursor + Widest(cursor, end), end);
    }
  }

  function Parts(s: Strategy, op: Op): seq<Part> {
    match op
    case Register(r) => [Part(r, 0, r.width)]
    case ReadBlob(addr, size) => ReadParts(s, addr, size)
    case WriteBlob(addr, data) => WriteParts(addr, data)
  }

  function Plans(s: Strategy, batch: seq<Op>): (plan: Plan)
    ensures |plan| == |batch|
  {
    seq(|batch|, i requires 0 <= i < |batch| => Parts(s, batch[i]))
  }

  /** The bytes of a sub-result: an int is little-endian. */
  function Raw(v: Value, n: nat): (bs: seq<Byte>) {
    match v
    case Int(i) => ToBytes(i, n)
    case Bytes(bs) => bs
    case Done => []
  }

  function Raws(ps: seq<Part>, vs: seq<Value>): (raws: seq<seq<Byte>>)
    requires |ps| == |vs|
    ensures |raws| == |ps|
  {
    seq(|ps|, i requires 0 <= i < |ps| => Raw(vs[i], ps[i].width))
  }

  /** What the op's future gets from the results of its parts. */
  function Resolve(op: Op, ps: seq<Part>, vs: seq<Value>): Value {
    match op
    case Register(_) => if |vs| == 1 then vs[0] else Done
    case ReadBlob(_, size) =>
      if ps == [] || |ps| != |vs| then Bytes([]) else Bytes(Assemble(ZeroBytes(Size(size)), ps, Raws(ps, vs)))
    case WriteBlob(_, _) => Done
  }

  // ----- Reads -------------------------------------------------------------------------------

  /** A part reads the memory where it says it does. */
  predicate ReadsAt(p: Part, addr: int) { p.op == Read(addr + p.offset, p.width) }

  predicate AllReadAt(ps: seq<Part>, addr: int) { forall i :: 0 <= i < |ps| ==> ReadsAt(ps[i], addr) }

  /** The memory seen from the start of the blob. */
  function Image(m: Memory, addr: int): int -> Byte { i => At(m, addr + i) }

  lemma {:induction false} ReadShows(m: Memory, p: Part, addr: int)
    requires ReadsAt(p, addr)
    ensures RegNext(m, p.op) == m && Shows(p, Raw(RegAnswer(m, p.op), p.width), Image(m, addr))
  {
    BytesRoundTrip(Peek(m, addr + p.offset, p.width));
  }

  /** Reads leave the memory alone. */
  lemma {:induction false} RunReads(m: Memory, ps: seq<Part>, addr: int)
    requires AllReadAt(ps, addr)
    ensures RunOn(Bus(), m, OpsOf(ps)).state == m
    ensures forall i :: 0 <= i < |ps| ==> RunOn(Bus(), m, OpsOf(ps)).values[i] == RegAnswer(m, ps[i].op)
    decreases |ps|
  {
    if ps != [] {
      assert OpsOf(ps)[1..] == OpsOf(ps[1..]);
      ReadShows(m, ps[0], addr);
      RunReads(m, ps[1..], addr);
    }
  }

  lemma {:induction false} AssembleReads(m: Memory, ps: seq<Part>, vs: seq<Value>, addr: int, size: nat)
    requires |ps| == |vs| && AllReadAt(ps, addr)
    requires forall k :: 0 <= k < |ps| ==> vs[k] == RegAnswer(m, ps[k].op)
    requires forall i :: 0 <= i < size ==> Covered(ps, i)
    ensures Assemble(ZeroBytes(size), ps, Raws(ps, vs)) == Peek(m, addr, size)
  {
    forall k | 0 <= k < |ps| ensures Shows(ps[k], Raws(ps, vs)[k], Image(m, addr)) {
      ReadShows(m, ps[k], addr);
    }
    var got := Assemble(ZeroBytes(size), ps, Raws(ps, vs));
    forall i | 0 <= i < size ensures got[i] == Peek(m, addr, size)[i] {
      AssembleRight(ZeroBytes(size), ps, Raws(ps, vs), Image(m, addr), i);
    }
  }

  lemma {:induction false} PreciseCovers(offset: int, cursor: int, end: int, i: int)
    ensures AllReadAt(PreciseReads(Greedy(offset, cursor, end)), cursor - offset)
    ensures offset <= i < offset + end - cursor ==> Covered(PreciseReads(Greedy(offset, cursor, end)), i)
    decreases end - cursor
  {
    if cursor < end {
      var n := Widest(cursor, end);
      var rest := Greedy(offset + n, cursor + n, end);
      var ps := PreciseReads(Greedy(offset, cursor, end));
      assert ps[1..] == PreciseReads(rest);
      PreciseCovers(offset + n, cursor + n, end, i);
      CoveredTail(ps, i);
      forall k | 0 <= k < |ps| ensures ReadsAt(ps[k], cursor - offset) {
        if k > 0 { assert ReadsAt(ps[1..][k - 1], cursor - offset); }
      }
    }
  }

  lemma {:induction false} WordsCover(word: int, last: int, addr: int, i: int)
    requires word % 4 == 0
    ensures AllReadAt(WordReads(word, last, addr), addr)
    ensures word <= addr + i < last ==> Covered(WordReads(word, last, addr), i)
    ensures forall k :: 0 <= k < |WordReads(word, last, addr)| ==> WordReads(word, last, addr)[k].op.addr % 4 == 0
    decreases last - word
  {
    if word < last {
      WordsCover(word + 4, last, addr, i);
      var ps := WordReads(word, last, addr);
      assert ps[1..] == WordReads(word + 4, last, addr);
      CoveredTail(ps, i);
    }
  }

  lemma {:induction false} ReadPartsCover(s: Strategy, addr: int, size: int, i: int)
    ensures AllReadAt(ReadParts(s, addr, size), addr)
    ensures 0 <= i < size ==> Covered(ReadParts(s, addr, size), i)
    ensures size <= 0 ==> ReadParts(s, addr, size) == []
  {
    match s
    case Precise => PreciseCovers(0, addr, addr + size, i);
    case Overwide =>
      if size > 0 {
        WordsCover(addr - addr % 4, addr + size + 3 - (addr + size + 3) % 4, addr, i);
      }
  }

  /** A blob read through its parts gets the bytes of the memory. */
  lemma {:induction false} ReadServed(s: Strategy, m: Memory, op: Op, ps: seq<Part>)
    requires op.ReadBlob? && ps == ReadParts(s, op.addr, op.size)
    ensures RunOn(Bus(), m, OpsOf(ps)).state == m
    ensures Resolve(op, ps, RunOn(Bus(), m, OpsOf(ps)).values) == Bytes(Peek(m, op.addr, Size(op.size)))
  {
    ReadPartsCover(s, op.addr, op.size, 0);
    RunReads(m, ps, op.addr);
    forall i | 0 <= i < Size(op.size) ensures Covered(ps, i) { ReadPartsCover(s, op.addr, op.size, i); }
    AssembleReads(m, ps, RunOn(Bus(), m, OpsOf(ps)).values, op.addr, Size(op.size));
    if ps == [] {
      assert Size(op.size) == 0 || Covered(ps, 0);
    }
  }

  // ----- Writes ------------------------------------------------------------------------------

  lemma {:induction false} WriteOne(m: Memory, c: Chunk, data: seq<Byte>)
    requires 0 <= c.offset && c.offset + c.width <= |data|
    ensures RegNext(m, WritePart(c, data).op) == Poke(m, c.addr, data[c.offset..c.offset + c.width])
  {
    BytesRoundTrip(data[c.offset..c.offset + c.width]);
  }

  lemma {:induction false} WriteFirst(m: Memory, c: Chunk, rest: seq<Chunk>, all: seq<Chunk>, data: seq<Byte>, next: Memory)
    requires all != [] && c == all[0] && rest == all[1..] && Within(all, |data|) && Within(rest, |data|)
    requires next == Poke(m, c.addr, data[c.offset..c.offset + c.width])
    ensures RunOn(Bus(), m, OpsOf(PartsOfWrites(all, data))).state == RunOn(Bus(), next, OpsOf(PartsOfWrites(rest, data))).state
  {
    var ops := OpsOf(PartsOfWrites(all, data));
    assert ops[1..] == OpsOf(PartsOfWrites(rest, data));
    WriteOne(m, c, data);
  }

  lemma {:induction false} PokeSplit(m: Memory, addr: int, data: seq<Byte>, i: nat, n: nat)
    requires i + n <= |data|
    ensures Poke(Poke(m, addr, data[i..i + n]), addr + n, data[i + n..]) == Poke(m, addr, data[i..])
  {
    PokeConcat(m, addr, data[i..i + n], data[i + n..]);
    assert data[i..i + n] + data[i + n..] == data[i..];
  }

  /** Chunks end to end from `cursor` on write the rest of the data. */
  lemma {:induction false} RunWrites(m: Memory, data: seq<Byte>, offset: nat, cursor: int, cs: seq<Chunk>)
    requires offset <= |data| && Tiling(cs, offset, cursor, cursor + |data| - offset) && Within(cs, |data|)
    ensures RunOn(Bus(), m, OpsOf(PartsOfWrites(cs, data))).state == Poke(m, cursor, data[offset..])
    decreases |cs|
  {
    if cs != [] {
      var n, rest := cs[0].width, cs[1..];
      var next := Poke(m, cursor, data[offset..offset + n]);
      RunWrites(next, data, offset + n, cursor + n, rest);
      WriteFirst(m, cs[0], rest, cs, data, next);
      PokeSplit(m, cursor, data, offset, n);
    } else {
      assert data[offset..] == [];
    }
  }

  lemma {:induction false} WriteServed(m: Memory, op: Op, ps: seq<Part>)
    requires op.WriteBlob? && ps == WriteParts(op.addr, op.data)
    ensures RunOn(Bus(), m, OpsOf(ps)).state == Poke(m, op.addr, op.data)
  {
    var end := op.addr + |op.data|;
    GreedyTiles(0, op.addr, end);
    GreedyWithin(0, op.addr, end);
    RunWrites(m, op.data, 0, op.addr, Greedy(0, op.addr, end));
    assert op.data[0..] == op.data;
  }

  // ----- Whole batches -----------------------------------------------------------------------

  lemma {:induction false} OpServed(s: Strategy, op: Op)
    ensures Serves(Bus(), Whole(), Resolve, op, Parts(s, op))
  {
    forall m: Memory
      ensures RunOn(Bus(), m, OpsOf(Parts(s, op))).state == WholeNext(m, op)
      ensures Resolve(op, Parts(s, op), RunOn(Bus(), m, OpsOf(Parts(s, op))).values) == WholeAnswer(m, op)
    {
      match op
      case Register(r) => RegisterServed(m, r, Parts(s, op));
      case ReadBlob(addr, size) => ReadServed(s, m, op, Parts(s, op));
      case WriteBlob(addr, data) => WriteServed(m, op, Parts(s, op));
    }
  }

  lemma {:induction false} RegisterServed(m: Memory, r: RegOp, ps: seq<Part>)
    requires ps == [Part(r, 0, r.width)]
    ensures RunOn(Bus(), m, OpsOf(ps)).state == RegNext(m, r) && RunOn(Bus(), m, OpsOf(ps)).values == [RegAnswer(m, r)]
  {
    assert OpsOf(ps) == [r] && [r][1..] == [];
  }

  /** For every batch and both strategies: the flat stream of register ops leaves
      the memory that serving the blobs whole would, and every op is resolved
      with the value it would have had. */
  lemma {:induction false} BatchRefines(s: Strategy, m: Memory, batch: seq<Op>)
    ensures var plan := Plans(s, batch);
            && RunOn(Bus(), m, Flat(plan)).state == RunOn(Whole(), m, batch).state
            && forall i :: 0 <= i < |batch| ==>
                 ResolvesTo(Resolve, batch, plan, RunOn(Bus(), m, Flat(plan)).values, i, RunOn(Whole(), m, batch).values[i])
  {
    var plan := Plans(s, batch);
    forall i | 0 <= i < |batch| ensures Serves(Bus(), Whole(), Resolve, batch[i], plan[i]) {
      OpServed(s, batch[i]);
    }
    PlanRefines(Bus(), Whole(), Resolve, m, batch, plan);
  }

  /** Every register op a blob becomes is naturally aligned. */
  lemma {:induction false} PartsAreNatural(s: Strategy, op: Op, ps: seq<Part>, i: nat)
    requires !op.Register? && ps == Parts(s, op) && i < |ps|
    ensures ps[i].op.width == ps[i].width && NaturallyAligned(ps[i].op.addr, ps[i].width)
  {
    PartsArePieces(s, op);
    NaturalMeans(Piece(ps[i].op.addr, ps[i].width));
  }

  lemma {:induction false} PartsArePieces(s: Strategy, op: Op)
    requires !op.Register?
    ensures forall i :: 0 <= i < |Parts(s, op)| ==>
      Natural(Piece(Parts(s, op)[i].op.addr, Parts(s, op)[i].width)) && Parts(s, op)[i].op.width == Parts(s, op)[i].width
  {
    match op
    case ReadBlob(addr, size) =>
      GreedyNatural(0, addr, addr + size);
      if s.Overwide? && size > 0 {
        WordsNatural(addr - addr % 4, addr + size + 3 - (addr + size + 3) % 4, addr);
      }
    case WriteBlob(addr, data) => GreedyNatural(0, addr, addr + |data|);
  }

  lemma {:induction false} GreedyNatural(offset: int, cursor: int, end: int)
    ensures forall i :: 0 <= i < |Greedy(offset, cursor, end)| ==> Natural(PieceOf(Greedy(offset, cursor, end)[i]))
    decreases end - cursor
  {
    if cursor < end {
      GreedyNatural(offset + Widest(cursor, end), cursor + Widest(cursor, end), end);
    }
  }

  lemma {:induction false} WordsNatural(word: int, last: int, addr: int)
    requires word % 4 == 0
    ensures forall i :: 0 <= i < |WordReads(word, last, addr)| ==>
      var p := WordReads(word, last, addr)[i]; p.op.addr % 4 == 0 && p.width == 4 == p.op.width
    decreases last - word
  {
    if word < last {
      WordsNatural(word + 4, last, addr);
    }
  }
}
