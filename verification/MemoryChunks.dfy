/** Splitting a byte range into naturally aligned 1, 2 and 4 byte pieces. */
module MemoryChunks {

  datatype Piece = Piece(addr: int, width: nat)

  /** Divisible by 2, said modulo 4 like everything else here. */
  predicate Even(a: int) { a % 4 == 0 || a % 4 == 2 }

  predicate Natural(p: Piece) {
    p.width == 1 || (p.width == 2 && Even(p.addr)) || (p.width == 4 && p.addr % 4 == 0)
  }

  /** Naturally aligned: as wide as a register, at a multiple of its width. */
  predicate NaturallyAligned(addr: int, width: nat) {
    width == 1 || (width == 2 && addr % 2 == 0) || (width == 4 && addr % 4 == 0)
  }

  lemma {:induction false} NaturalMeans(p: Piece)
    requires Natural(p)
    ensures NaturallyAligned(p.addr, p.width)
  {
    if p.width == 2 {
      var q := p.addr / 4;
      TwiceIsEven(p.addr, if p.addr % 4 == 0 then 2 * q else 2 * q + 1);
    }
  }

  lemma {:induction false} TwiceIsEven(a: int, half: int)
    requires a == 2 * half
    ensures a % 2 == 0
  {}

  /** A piece, and where it lies in the blob. */
  datatype Chunk = Chunk(offset: int, addr: int, width: nat)

  function PieceOf(c: Chunk): Piece { Piece(c.addr, c.width) }

  /** The widest piece at an address that is `r` modulo 4, with `room` left. */
  function WidestFor(r: int, room: int): nat {
    if r == 0 && room >= 4 then 4 else if (r == 0 || r == 2) && room >= 2 then 2 else 1
  }

  /** The widest aligned piece at `cursor` that ends by `end`. */
  function Widest(cursor: int, end: int): (n: nat)
    requires cursor < end
    ensures Natural(Piece(cursor, n)) && cursor + n <= end
  {
    WidestFor(cursor % 4, end - cursor)
  }

  lemma {:induction false} WidestIsWidest(cursor: int, n: nat, end: int)
    requires Natural(Piece(cursor, n)) && cursor + n <= end
    ensures n <= Widest(cursor, end)
  {}

  /** Always taking the widest piece: a tiling of [cursor, end). */
  function Greedy(offset: int, cursor: int, end: int): (cs: seq<Chunk>)
    ensures cursor >= end <==> cs == []
    decreases end - cursor
  {
    if cursor >= end then []
    else
      var n := Widest(cursor, end);
      [Chunk(offset, cursor, n)] + Greedy(offset + n, cursor + n, end)
  }

  /** Aligned pieces end to end from `cursor` to `end`, offsets in step. */
  predicate Tiling(cs: seq<Chunk>, offset: int, cursor: int, end: int) {
    if cs == [] then cursor >= end
    else
      && Natural(PieceOf(cs[0])) && cs[0].offset == offset && cs[0].addr == cursor
      && cursor + cs[0].width <= end
      && Tiling(cs[1..], offset + cs[0].width, cursor + cs[0].width, end)
  }

  lemma {:induction false} GreedyTiles(offset: int, cursor: int, end: int)
    ensures Tiling(Greedy(offset, cursor, end), offset, cursor, end)
    decreases end - cursor
  {
    if cursor < end {
      var n := Widest(cursor, end);
      GreedyTiles(offset + n, cursor + n, end);
      assert Greedy(offset, cursor, end)[1..] == Greedy(offset + n, cursor + n, end);
    }
  }

  // ----- The peeling method -----------------------------------------------------------

  /** `out` took the widest piece every time on its way from `addr` to
      `addr + offset`. */
  predicate Path(out: seq<Chunk>, addr: int, offset: int, end: int) {
    && (if out == [] then offset == 0 else out[0].offset == 0 && Next(out[|out| - 1]) == offset)
    && (forall i :: 0 <= i < |out| ==> OnPath(out[i], addr, end))
    && (forall i :: 1 <= i < |out| ==> out[i].offset == Next(out[i - 1]))
  }

  function Next(c: Chunk): int { c.offset + c.width }

  predicate OnPath(c: Chunk, addr: int, end: int) {
    c.addr == addr + c.offset && c.addr < end && c.width == Widest(c.addr, end)
  }

  lemma {:induction false} PathSnoc(out: seq<Chunk>, addr: int, c: Chunk, end: int)
    requires Path(out, addr, c.offset, end) && OnPath(c, addr, end)
    ensures Path(out + [c], addr, Next(c), end)
  {}

  lemma {:induction false} PathFrom(out: seq<Chunk>, k: nat, addr: int, offset: int, end: int)
    requires Path(out, addr, offset, end) && addr + offset >= end && k <= |out|
    ensures out[k..] == Greedy(if k < |out| then out[k].offset else offset, addr + if k < |out| then out[k].offset else offset, end)
    decreases |out| - k
  {
    if k < |out| {
      PathFrom(out, k + 1, addr, offset, end);
      assert OnPath(out[k], addr, end);
      assert k + 1 < |out| ==> out[k + 1].offset == Next(out[k]);
      assert out[k..] == [out[k]] + out[k + 1..];
    }
  }

  lemma {:induction false} PathIsGreedy(out: seq<Chunk>, addr: int, offset: int, end: int)
    requires Path(out, addr, offset, end) && addr + offset >= end
    ensures out == Greedy(0, addr, end) && Tiling(out, 0, addr, end)
  {
    PathFrom(out, 0, addr, offset, end);
    GreedyTiles(0, addr, end);
    assert out[0..] == out;
  }

  /** Peel a leading byte and halfword, stream words, peel a trailing halfword
      and byte. */
  method Chunks(addr: int, size: int) returns (out: seq<Chunk>)
    ensures out == Greedy(0, addr, addr + size)
    ensures Tiling(out, 0, addr, addr + size)
  {
    var end := addr + size;
    var cursor, offset;
    out, cursor, offset := Lead(addr, end);
    while end - cursor >= 4
      invariant Path(out, addr, offset, end) && cursor == addr + offset
      invariant cursor % 4 == 0 || end - cursor < 2
      decreases end - cursor
    {
      assert cursor % 4 == 0 && (cursor + 4) % 4 == 0;
      out, cursor, offset := Take(out, cursor, offset, 4, addr, end);
    }
    out := Trail(out, cursor, offset, addr, end);
  }

  method Trail(words: seq<Chunk>, start: int, at: int, ghost addr: int, end: int) returns (out: seq<Chunk>)
    requires Path(words, addr, at, end) && start == addr + at && end - start < 4
    requires start % 4 == 0 || end - start < 2
    ensures out == Greedy(0, addr, end) && Tiling(out, 0, addr, end)
  {
    var cursor, offset := start, at;
    out := words;
    if end - cursor >= 2 {
      out, cursor, offset := Take(out, cursor, offset, 2, addr, end);
    }
    if end - cursor >= 1 {
      out, cursor, offset := Take(out, cursor, offset, 1, addr, end);
    }
    PathIsGreedy(out, addr, offset, end);
  }

  method Lead(addr: int, end: int) returns (out: seq<Chunk>, cursor: int, offset: int)
    ensures Path(out, addr, offset, end) && cursor == addr + offset
    ensures cursor % 4 == 0 || end - cursor < 2
  {
    out, cursor, offset := [], addr, 0;
    if !Even(cursor) && end > cursor {
      out, cursor, offset := Take(out, cursor, offset, 1, addr, end);
    }
    if cursor % 4 == 2 && end - cursor >= 2 {
      out, cursor, offset := Take(out, cursor, offset, 2, addr, end);
    }
  }

  method Take(out: seq<Chunk>, cursor: int, offset: int, n: nat, ghost addr: int, ghost end: int)
    returns (out': seq<Chunk>, cursor': int, offset': int)
    requires Path(out, addr, offset, end) && cursor == addr + offset
    requires cursor < end && n == Widest(cursor, end)
    ensures Path(out', addr, offset', end)
    ensures cursor' == cursor + n && offset' == offset + n
  {
    PathSnoc(out, addr, Chunk(offset, cursor, n), end);
    out', cursor', offset' := out + [Chunk(offset, cursor, n)], cursor + n, offset + n;
  }

  // ----- No cover is smaller ------------------------------------------------------------

  /** Aligned pieces inside [a, e) that together hold every byte of it. */
  ghost predicate Covers(s: set<Piece>, a: int, e: int) {
    && (forall p :: p in s ==> Natural(p) && a <= p.addr && p.addr + p.width <= e)
    && (forall x :: a <= x < e ==> Held(s, x))
  }

  predicate Held(s: set<Piece>, x: int) { exists p :: p in s && Holds(p, x) }

  predicate Holds(p: Piece, x: int) { p.addr <= x < p.addr + p.width }

  /** Starting with a narrower piece never pays. */
  lemma {:induction false} GreedyStep(o: int, a: int, n: nat, e: int)
    requires Natural(Piece(a, n)) && a + n <= e
    ensures |Greedy(o, a, e)| <= 1 + |Greedy(o + n, a + n, e)|
  {
    var g := Widest(a, e);
    WidestIsWidest(a, n, e);
    if n < g {
      GreedyHalf(o, a, g, n, e);
    }
  }

  /** Behind a narrower start the greedy pieces run up to the wider one's end. */
  lemma {:induction false} GreedyHalf(o: int, a: int, g: nat, n: nat, e: int)
    requires Natural(Piece(a, g)) && a + g <= e && Natural(Piece(a, n)) && n < g
    ensures |Greedy(o + n, a + n, e)| > |Greedy(o + g, a + g, e)|
    decreases g - n
  {
    var m := if n == 1 then 1 else 2;
    assert Widest(a + n, e) == m;
    assert Greedy(o + n, a + n, e) == [Chunk(o + n, a + n, m)] + Greedy(o + n + m, a + n + m, e);
    if n + m < g {
      GreedyHalf(o, a, g, 2, e);
    }
  }

  lemma {:induction false} GreedyLength(o: int, p: int, a: int, e: int)
    ensures |Greedy(o, a, e)| == |Greedy(p, a, e)|
    decreases e - a
  {
    if a < e {
      GreedyLength(o + Widest(a, e), p + Widest(a, e), a + Widest(a, e), e);
    }
  }

  /** The pieces that start at or after `b`. */
  function From(s: set<Piece>, b: int): set<Piece> { set p | p in s && p.addr >= b }

  /** Behind an aligned piece the rest of the cover starts afresh: aligned
      pieces never straddle its end. */
  lemma {:induction false} CoverRest(s: set<Piece>, a: int, n: nat, e: int)
    requires Covers(s, a, e) && Piece(a, n) in s
    requires forall p :: p in s && p.addr == a ==> p.width <= n
    ensures Covers(From(s, a + n), a + n, e) && |From(s, a + n)| < |s|
  {
    forall x {:trigger Held(From(s, a + n), x)} | a + n <= x < e
      ensures Held(From(s, a + n), x)
    {
      assert Held(s, x);
      var p :| p in s && Holds(p, x);
      NoStraddle(p, a, n);
      assert p in From(s, a + n);
    }
    SmallerSet(From(s, a + n), s, Piece(a, n));
  }

  lemma {:induction false} NoStraddle(p: Piece, a: int, n: nat)
    requires Natural(p) && Natural(Piece(a, n)) && a <= p.addr && (p.addr == a ==> p.width <= n)
    ensures p.addr >= a + n || p.addr + p.width <= a + n
  {}

  lemma {:induction false} SmallerSet(a: set<Piece>, b: set<Piece>, p: Piece)
    requires a <= b && p in b && p !in a
    ensures |a| < |b|
  {
    SubsetSize(a, b - {p});
  }

  lemma {:induction false} SubsetSize(a: set<Piece>, b: set<Piece>)
    requires a <= b
    ensures |a| <= |b|
    decreases |a|
  {
    if a != {} {
      var x :| x in a;
      SubsetSize(a - {x}, b - {x});
    }
  }

  /** However [a, e) is covered by aligned pieces, the chunks are no more. */
  lemma {:induction false} ChunksAreFewest(s: set<Piece>, a: int, e: int)
    requires Covers(s, a, e)
    ensures |Greedy(0, a, e)| <= |s|
    decreases e - a
  {
    if a < e {
      var n := WidestAt(s, a, e);
      CoverRest(s, a, n, e);
      ChunksAreFewest(From(s, a + n), a + n, e);
      GreedyOnward(a, n, e);
    }
  }

  lemma {:induction false} GreedyOnward(a: int, n: nat, e: int)
    requires Natural(Piece(a, n)) && a + n <= e
    ensures |Greedy(0, a, e)| <= 1 + |Greedy(0, a + n, e)|
  {
    GreedyStep(0, a, n, e);
    GreedyLength(0, n, a + n, e);
  }

  /** A cover has a widest piece where it starts. */
  lemma {:induction false} WidestAt(s: set<Piece>, a: int, e: int) returns (n: nat)
    requires Covers(s, a, e) && a < e
    ensures Piece(a, n) in s && Natural(Piece(a, n)) && a + n <= e && forall p :: p in s && p.addr == a ==> p.width <= n
  {
    assert Held(s, a);
    var p :| p in s && Holds(p, a);
    n := WidestOf(s, a, p.width);
  }

  /** The widest of the pieces at `a`. */
  lemma {:induction false} WidestOf(s: set<Piece>, a: int, w: nat) returns (n: nat)
    requires Piece(a, w) in s && forall p :: p in s ==> Natural(p)
    ensures Piece(a, n) in s && forall p :: p in s && p.addr == a ==> p.width <= n
  {
    n := if Piece(a, 4) in s then 4 else if Piece(a, 2) in s then 2 else w;
    forall p | p in s && p.addr == a ensures p.width <= n { assert p == Piece(a, p.width); }
  }
}
