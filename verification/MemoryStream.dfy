/** The register ops a blob becomes, as the bus sees them. */
module MemoryStream {
  import opened MemoryChunks
  import opened MemoryBatch
  import opened MemoryLowering
  import opened Division

  /** The stream of a batch is that of its ops, one after the other. */
  lemma {:induction false} StreamConcat(s: Strategy, a: seq<Op>, b: seq<Op>)
    ensures Flat(Plans(s, a + b)) == Flat(Plans(s, a)) + Flat(Plans(s, b))
    decreases |a|
  {
    if a == [] {
      assert a + b == b;
    } else {
      assert Plans(s, a + b)[1..] == Plans(s, a[1..] + b) && Plans(s, a)[1..] == Plans(s, a[1..]);
      StreamConcat(s, a[1..], b);
    }
  }

  lemma {:induction false} StreamOne(s: Strategy, op: Op)
    ensures Flat(Plans(s, [op])) == OpsOf(Parts(s, op))
  {
    var plan := Plans(s, [op]);
    assert plan[1..] == [] && plan[0] == Parts(s, op);
  }

  predicate Inside(op: RegOp, addr: int, end: int) {
    addr <= op.addr && op.addr + op.width <= end && NaturallyAligned(op.addr, op.width)
  }

  /** From low to high addresses, none twice. */
  predicate Ascending(ops: seq<RegOp>) {
    forall j, k :: 0 <= j < k < |ops| ==> ops[j].addr + ops[j].width <= ops[k].addr
  }

  predicate Touches(ops: seq<RegOp>, a: int) { exists k :: 0 <= k < |ops| && ops[k].addr <= a < ops[k].addr + ops[k].width }

  /** Register ops that touch exactly the bytes of a range, each once, and are no more
      than any aligned pieces that hold it. */
  ghost predicate Exactly(ops: seq<RegOp>, addr: int, end: int) {
    && (forall k :: 0 <= k < |ops| ==> Inside(ops[k], addr, end)) && Ascending(ops)
    && (forall a :: Touches(ops, a) <==> addr <= a < end)
    && forall s: set<Piece> :: Covers(s, addr, end) ==> |ops| <= |s|
  }

  predicate Follow(ops: seq<RegOp>, cs: seq<Chunk>) {
    |ops| == |cs| && forall k :: 0 <= k < |ops| ==> ops[k].addr == cs[k].addr && ops[k].width == cs[k].width
  }

  lemma {:induction false} GreedyExactly(ops: seq<RegOp>, addr: int, end: int)
    requires Follow(ops, Greedy(0, addr, end))
    ensures Exactly(ops, addr, end)
  {
    GreedyTiles(0, addr, end);
    forall a ensures Touches(ops, a) <==> addr <= a < end { TilingTouches(ops, Greedy(0, addr, end), 0, addr, end, a); }
    TilingAscends(ops, Greedy(0, addr, end), 0, addr, end);
    forall s: set<Piece> | Covers(s, addr, end) ensures |ops| <= |s| { ChunksAreFewest(s, addr, end); }
  }

  lemma {:induction false} TilingAscends(ops: seq<RegOp>, cs: seq<Chunk>, offset: int, cursor: int, end: int)
    requires Follow(ops, cs) && Tiling(cs, offset, cursor, end)
    ensures Ascending(ops) && forall k :: 0 <= k < |ops| ==> Inside(ops[k], cursor, end)
    decreases |cs|
  {
    if cs != [] {
      NaturalMeans(PieceOf(cs[0]));
      TilingAscends(ops[1..], cs[1..], offset + cs[0].width, cursor + cs[0].width, end);
      forall k | 1 <= k < |ops| ensures Inside(ops[k], cursor + cs[0].width, end) { assert ops[k] == ops[1..][k - 1]; }
      forall j, k | 0 <= j < k < |ops| ensures ops[j].addr + ops[j].width <= ops[k].addr {
        if j > 0 {
          assert ops[1..][j - 1].addr + ops[1..][j - 1].width <= ops[1..][k - 1].addr;
        }
      }
    }
  }

  lemma {:induction false} TilingTouches(ops: seq<RegOp>, cs: seq<Chunk>, offset: int, cursor: int, end: int, a: int)
    requires Follow(ops, cs) && Tiling(cs, offset, cursor, end)
    ensures Touches(ops, a) <==> cursor <= a < end
    decreases |cs|
  {
    if cs != [] {
      TilingTouches(ops[1..], cs[1..], offset + cs[0].width, cursor + cs[0].width, end, a);
      TouchesCons(ops, a);
    }
  }

  lemma {:induction false} TouchesCons(ops: seq<RegOp>, a: int)
    requires ops != []
    ensures Touches(ops, a) <==> ops[0].addr <= a < ops[0].addr + ops[0].width || Touches(ops[1..], a)
  {
    if Touches(ops[1..], a) {
      var k :| 0 <= k < |ops[1..]| && ops[1..][k].addr <= a < ops[1..][k].addr + ops[1..][k].width;
      assert ops[k + 1] == ops[1..][k];
    }
    if Touches(ops, a) && !(ops[0].addr <= a < ops[0].addr + ops[0].width) {
      var k :| 0 <= k < |ops| && ops[k].addr <= a < ops[k].addr + ops[k].width;
      assert ops[1..][k - 1] == ops[k];
    }
  }

  // ----- Reads -----------------------------------------------------------------------------------

  /** A precise read touches the bytes asked for and no others, in as few reads as can be. */
  lemma {:induction false} PreciseStream(addr: int, size: int)
    ensures var ops := Flat(Plans(Precise, [ReadBlob(addr, size)]));
            Exactly(ops, addr, addr + size) && forall k :: 0 <= k < |ops| ==> ops[k].Read?
  {
    StreamOne(Precise, ReadBlob(addr, size));
    GreedyExactly(OpsOf(PreciseReads(Greedy(0, addr, addr + size))), addr, addr + size);
  }

  predicate Meets(word: int, addr: int, size: int) { size > 0 && word % 4 == 0 && word < addr + size && addr < word + 4 }

  /** One word read, from `from` on, for every aligned word that meets the range. */
  ghost predicate WordsOf(ops: seq<RegOp>, from: int, addr: int, size: int) {
    && (forall k :: 0 <= k < |ops| ==> ops[k].Read? && ops[k].width == 4 && from <= ops[k].addr && Meets(ops[k].addr, addr, size))
    && Ascending(ops)
    && forall word :: from <= word && Meets(word, addr, size) ==> exists k :: 0 <= k < |ops| && ops[k].addr == word
  }

  /** An overwide read is one word read for every aligned word that meets the range,
      from low to high addresses. */
  lemma {:induction false} OverwideStream(addr: int, size: int)
    ensures WordsOf(Flat(Plans(Overwide, [ReadBlob(addr, size)])), addr - 3, addr, size)
  {
    StreamOne(Overwide, ReadBlob(addr, size));
    OverwideWords(addr, size, addr - addr % 4, addr + size + 3 - (addr + size + 3) % 4, OpsOf(ReadParts(Overwide, addr, size)));
  }

  lemma {:induction false} OverwideWords(addr: int, size: int, first: int, last: int, ops: seq<RegOp>)
    requires first == addr - addr % 4 && last == addr + size + 3 - (addr + size + 3) % 4
    requires ops == if size <= 0 then [] else OpsOf(WordReads(first, last, addr))
    ensures WordsOf(ops, addr - 3, addr, size)
  {
    if size > 0 {
      assert first % 4 == 0;
      WordStream(first, last, addr, size);
      FirstWord(ops, addr, size, first);
    }
  }

  /** No word that meets the range starts before the first. */
  lemma {:induction false} FirstWord(ops: seq<RegOp>, addr: int, size: int, first: int)
    requires WordsOf(ops, first, addr, size) && first == addr - addr % 4
    ensures WordsOf(ops, addr - 3, addr, size)
  {
    assert addr - 3 <= first;
    forall word | Meets(word, addr, size) ensures first <= word { FirstMeets(word, addr); }
  }

  lemma {:induction false} FirstMeets(word: int, addr: int)
    requires word % 4 == 0 && addr < word + 4
    ensures addr - addr % 4 <= word
  {}

  lemma {:induction false} WordStream(word: int, last: int, addr: int, size: int)
    requires size > 0 && word % 4 == 0 && addr - addr % 4 <= word && last == addr + size + 3 - (addr + size + 3) % 4
    ensures WordsOf(OpsOf(WordReads(word, last, addr)), word, addr, size)
    decreases last - word
  {
    if word < last {
      WordStream(word + 4, last, addr, size);
      var ops, rest := OpsOf(WordReads(word, last, addr)), OpsOf(WordReads(word + 4, last, addr));
      assert ops == [Read(word, 4)] + rest;
      LastMeets(word, last, addr, size);
      WordsCons(ops, rest, word, addr, size);
    } else {
      NoneMeets(word, last, addr, size);
    }
  }

  lemma {:induction false} LastMeets(word: int, last: int, addr: int, size: int)
    requires size > 0 && word % 4 == 0 && addr - addr % 4 <= word < last && last == addr + size + 3 - (addr + size + 3) % 4
    ensures Meets(word, addr, size)
  {}

  lemma {:induction false} NoneMeets(word: int, last: int, addr: int, size: int)
    requires size > 0 && word % 4 == 0 && last <= word && last == addr + size + 3 - (addr + size + 3) % 4
    ensures forall w :: word <= w ==> !Meets(w, addr, size)
  {}

  lemma {:induction false} WordsCons(ops: seq<RegOp>, rest: seq<RegOp>, word: int, addr: int, size: int)
    requires ops == [Read(word, 4)] + rest && word % 4 == 0 && Meets(word, addr, size) && WordsOf(rest, word + 4, addr, size)
    ensures WordsOf(ops, word, addr, size)
  {
    forall w | word <= w && Meets(w, addr, size) ensures exists k :: 0 <= k < |ops| && ops[k].addr == w {
      if w == word {
        assert ops[0].addr == w;
      } else {
        var k :| 0 <= k < |rest| && rest[k].addr == w;
        assert ops[k + 1].addr == w;
      }
    }
  }

  // ----- Writes --------------------------------------------------------------------------------------

  function Pow256(n: nat): (r: nat)
    ensures r > 0
  {
    if n == 0 then 1 else 256 * Pow256(n - 1)
  }

  /** Byte `j` of what is written is the one that belongs there. */
  predicate Carries(op: RegOp, addr: int, data: seq<Byte>, j: nat) {
    op.Write? && 0 <= op.addr - addr + j < |data| && (op.value / Pow256(j)) % 256 == data[op.addr - addr + j]
  }

  /** Under either strategy a write touches the bytes given and no others, and each
      op carries its bytes from the lowest address up in its lowest bits up. */
  lemma {:induction false} WriteStream(s: Strategy, addr: int, data: seq<Byte>)
    ensures var ops := Flat(Plans(s, [WriteBlob(addr, data)]));
            Exactly(ops, addr, addr + |data|)
            && forall k, j: nat :: 0 <= k < |ops| && j < ops[k].width ==> Carries(ops[k], addr, data, j)
  {
    var cs := Greedy(0, addr, addr + |data|);
    GreedyWithin(0, addr, addr + |data|);
    StreamOne(s, WriteBlob(addr, data));
    GreedyExactly(OpsOf(PartsOfWrites(cs, data)), addr, addr + |data|);
    forall k: nat, j: nat | k < |cs| && j < cs[k].width ensures Carries(WritePart(cs[k], data).op, addr, data, j) {
      GreedyOffsets(0, addr, addr + |data|, k);
      WriteCarries(cs[k], addr, data, j);
    }
  }

  lemma {:induction false} WriteCarries(c: Chunk, addr: int, data: seq<Byte>, j: nat)
    requires 0 <= c.offset && c.offset + c.width <= |data| && c.addr - addr == c.offset && j < c.width
    ensures Carries(WritePart(c, data).op, addr, data, j)
  {
    LittleEndianAt(data[c.offset..c.offset + c.width], j);
  }

  lemma {:induction false} GreedyOffsets(offset: int, cursor: int, end: int, k: nat)
    requires k < |Greedy(offset, cursor, end)|
    ensures var c := Greedy(offset, cursor, end)[k]; c.addr - cursor == c.offset - offset
    decreases end - cursor
  {
    if k > 0 {
      GreedyOffsets(offset + Widest(cursor, end), cursor + Widest(cursor, end), end, k - 1);
    }
  }

  lemma {:induction false} LittleEndianAt(bs: seq<Byte>, j: nat)
    requires j < |bs|
    ensures (LittleEndian(bs) / Pow256(j)) % 256 == bs[j]
    decreases j
  {
    if j > 0 {
      LittleEndianAt(bs[1..], j - 1);
      DivUnique(LittleEndian(bs), 256, LittleEndian(bs[1..]), bs[0]);
      DivTwice(LittleEndian(bs), 256, Pow256(j - 1));
    }
  }

  /** And what a register answers is cut into bytes from the lowest bits up. */
  lemma {:induction false} ToBytesAt(v: int, n: nat, j: nat)
    requires j < n
    ensures ToBytes(v, n)[j] == (v / Pow256(j)) % 256
    decreases j
  {
    if j > 0 {
      ToBytesAt(v / 256, n - 1, j - 1);
      DivTwice(v, 256, Pow256(j - 1));
    }
  }
}
