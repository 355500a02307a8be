/** Best-fit allocation of aligned ranges. */
module Allocator {
  import opened Wrappers
  import opened AllocatorRanges

  // ----- Alignment -------------------------------------------------------------------------------

  predicate PowerOfTwo(n: int) { n == 1 || (n > 1 && n % 2 == 0 && PowerOfTwo(n / 2)) }

  /** `x & ~(align - 1)` for a power of two. */
  function RoundDown(x: int, align: int): int
    requires align > 0
  {
    x - x % align
  }

  predicate Aligned(x: int, align: int)
    requires align > 0
  {
    x % align == 0
  }

  lemma {:induction false} MultipleOf(q: int, align: int)
    requires align > 0
    ensures (q * align) % align == 0
  {
    var x := q * align;
    var k, r := x / align, x % align;
    assert x == k * align + r;
    assert (q - k) * align == r;
    assert q - k >= 1 ==> (q - k) * align >= align;
    assert q - k <= -1 ==> (q - k) * align <= -align;
  }

  /** The largest aligned address up to `x`. */
  lemma {:induction false} RoundDownIsLargest(x: int, align: int, a: int)
    requires align > 0
    ensures RoundDown(x, align) <= x && Aligned(RoundDown(x, align), align)
    ensures Aligned(a, align) && a <= x ==> a <= RoundDown(x, align)
  {
    var q, k := x / align, a / align;
    assert RoundDown(x, align) == q * align;
    MultipleOf(q, align);
    if Aligned(a, align) && a <= x && k > q {
      assert a == k * align;
      assert k * align >= (q + 1) * align;
    } else if Aligned(a, align) && a <= x {
      assert a == k * align;
      assert k * align <= q * align;
    }
  }

  lemma {:induction false} NextAligned(x: int, align: int)
    requires align > 0
    ensures Aligned(RoundDown(x, align) + align, align)
  {
    var q := x / align;
    assert RoundDown(x, align) + align == (q + 1) * align;
    MultipleOf(q + 1, align);
  }

  // ----- One block -------------------------------------------------------------------------------

  datatype Cut = Cut(left: int, right: int)

  /** Where in a block an aligned allocation can go. */
  predicate Fits(b: Range, a: int, size: int, align: int)
    requires align > 0
  {
    Aligned(a, align) && Inside(b, a, size)
  }

  ghost predicate LastFit(b: Range, a: int, size: int, align: int)
    requires align > 0
  {
    Fits(b, a, size, align) && forall other :: Fits(b, other, size, align) ==> other <= a
  }

  /** As far right as it goes, else as far left; None exactly when the block has
      no room at an aligned address. */
  function SplitAlloc(b: Range, size: int, align: int): (r: Option<Cut>)
    requires align > 0 && size > 0
    ensures r.Some? ==> r.value.left >= 0 && r.value.right >= 0 && r.value.left + size + r.value.right == b.size
    ensures r.Some? ==> Fits(b, b.address + r.value.left, size, align)
  {
    RoundDownIsLargest(End(b) - size, align, 0);
    NextAligned(b.address, align);
    RoundDownIsLargest(b.address, align, 0);
    if b.size < size then None
    else
      var right := RoundDown(End(b) - size, align);
      if right >= b.address then Some(Cut(right - b.address, End(b) - size - right))
      else
        var a := if b.address % align != 0 then RoundDown(b.address, align) + align else b.address;
        if a + size <= End(b) then Some(Cut(a - b.address, End(b) - size - a)) else None
  }

  lemma {:induction false} SplitAllocFinds(b: Range, size: int, align: int, a: int)
    requires align > 0 && size > 0 && Fits(b, a, size, align)
    ensures SplitAlloc(b, size, align).Some?
  {
    RoundDownIsLargest(End(b) - size, align, a);
  }

  /** Of all aligned addresses at which the allocation fits it takes the last. */
  lemma {:induction false} SplitAllocLast(b: Range, size: int, align: int, a: int)
    requires align > 0 && size > 0 && Fits(b, a, size, align)
    ensures SplitAlloc(b, size, align).Some? && a <= b.address + SplitAlloc(b, size, align).value.left
  {
    RoundDownIsLargest(End(b) - size, align, a);
  }

  // ----- The arena ---------------------------------------------------------------------------------

  predicate InArena(s: set<Range>, arena: Range) {
    forall r :: r in s ==> arena.address <= r.address && End(r) <= End(arena)
  }

  predicate UsedOnce(used: set<Range>) {
    forall a, b :: a in used && b in used && a != b ==> Disjoint(a, b)
  }

  /** Free and used ranges partition the arena, and no two free ranges touch. */
  ghost predicate Partition(arena: Range, free: set<Range>, used: set<Range>) {
    && Separated(free) && Sized(used) && UsedOnce(used) && InArena(free, arena) && InArena(used, arena)
    && (forall x {:trigger Held(free, x)} {:trigger Held(used, x)} ::
          (Holds(arena, x) <==> Held(free, x) || Held(used, x)) && !(Held(free, x) && Held(used, x)))
  }

  /** The free list depends only on what is in use. */
  lemma {:induction false} FreeDetermined(arena: Range, f: set<Range>, g: set<Range>, used: set<Range>)
    requires Partition(arena, f, used) && Partition(arena, g, used)
    ensures f == g
  {
    forall x ensures Held(f, x) <==> Held(g, x) {}
    Canonical(f, g);
  }

  /** Nothing in use: one block again. */
  lemma {:induction false} AllFreeIsOne(arena: Range, free: set<Range>)
    requires arena.size > 0 && Partition(arena, free, {})
    ensures free == {arena}
  {
    forall x ensures Held(free, x) <==> Held({arena}, x) {
      assert !Held({}, x);
      if Holds(arena, x) { assert arena in {arena}; }
    }
    Canonical(free, {arena});
  }

  /** Some aligned run of `size` free bytes. */
  ghost predicate RoomFor(free: set<Range>, size: int, align: int)
    requires align > 0
  {
    exists a :: Aligned(a, align) && FreeRun(free, a, size)
  }

  ghost predicate FreeRun(free: set<Range>, a: int, size: int) {
    forall x :: a <= x < a + size ==> Held(free, x)
  }

  /** There is room exactly when some free block can be cut. */
  lemma {:induction false} RoomIffCut(free: set<Range>, size: int, align: int)
    requires align > 0 && size > 0 && Separated(free)
    ensures RoomFor(free, size, align) <==> exists b :: b in free && SplitAlloc(b, size, align).Some?
  {
    if RoomFor(free, size, align) {
      var a :| Aligned(a, align) && FreeRun(free, a, size);
      var b := RunInOne(free, a, size);
      SplitAllocFinds(b, size, align, a);
    }
    if b :| b in free && SplitAlloc(b, size, align).Some? {
      var a := b.address + SplitAlloc(b, size, align).value.left;
      assert Fits(b, a, size, align);
      forall x | a <= x < a + size ensures Held(free, x) { assert Holds(b, x); }
      assert FreeRun(free, a, size);
    }
  }

  /** No admissible block is smaller. */
  predicate Smallest(free: set<Range>, b: Range, size: int, align: int)
    requires align > 0 && size > 0
  {
    forall c :: c in free && SplitAlloc(c, size, align).Some? ==> b.size <= c.size
  }

  // ----- Bytes in and out -----------------------------------------------------------------------------

  /** The bytes of `s` and of `r`. */
  ghost predicate Plus(t: set<Range>, s: set<Range>, r: Range) {
    forall x :: Held(t, x) <==> Held(s, x) || Holds(r, x)
  }

  ghost predicate NoCommon(s: set<Range>, r: Range) { forall x :: !(Held(s, x) && Holds(r, x)) }

  lemma {:induction false} WholeArena(arena: Range)
    requires arena.size > 0
    ensures Partition(arena, {arena}, {})
  {
    forall x ensures Held({arena}, x) <==> Holds(arena, x) {
      if Holds(arena, x) { assert arena in {arena}; }
    }
  }

  lemma {:induction false} ClearByBytes(s: set<Range>, r: Range)
    requires Sized(s) && r.size > 0 && NoCommon(s, r)
    ensures Clear(s, r)
  {
    forall b | b in s ensures Disjoint(b, r) {
      var x := if b.address <= r.address then r.address else b.address;
      assert Holds(b, x) ==> Held(s, x);
    }
  }

  lemma {:induction false} BlockGone(free: set<Range>, block: Range)
    requires Separated(free) && block in free
    ensures Separated(free - {block}) && Plus(free, free - {block}, block) && NoCommon(free - {block}, block)
  {
    forall x ensures Held(free, x) <==> Held(free - {block}, x) || Holds(block, x) { HeldSplit(free, block, x); }
    forall x ensures !(Held(free - {block}, x) && Holds(block, x)) {
      if Held(free - {block}, x) {
        var b :| b in free - {block} && Holds(b, x);
        assert Apart(b, block);
      }
    }
  }

  lemma {:induction false} RightIsNew(others: set<Range>, some: set<Range>, block: Range, left: Range, right: Range)
    requires NoCommon(others, block) && Plus(some, others, left)
    requires left.address == block.address && End(left) <= right.address && End(right) <= End(block) && left.size >= 0
    ensures NoCommon(some, right)
  {
    forall x ensures !(Held(some, x) && Holds(right, x)) {
      if Holds(right, x) { assert Holds(block, x); }
    }
  }

  lemma {:induction false} CarvedBytes(free: set<Range>, others: set<Range>, some: set<Range>, after: set<Range>,
                                       block: Range, left: Range, taken: Range, right: Range)
    requires Plus(free, others, block) && NoCommon(others, block) && Plus(some, others, left) && Plus(after, some, right)
    requires left.address == block.address && taken.address == End(left) && right.address == End(taken) && End(right) == End(block)
    requires left.size >= 0 && taken.size > 0 && right.size >= 0
    ensures Plus(free, after, taken) && NoCommon(after, taken)
  {
    forall x ensures (Held(free, x) <==> Held(after, x) || Holds(taken, x)) && !(Held(after, x) && Holds(taken, x)) {
      assert Holds(block, x) <==> Holds(left, x) || Holds(taken, x) || Holds(right, x);
      assert Held(free, x) <==> Held(others, x) || Holds(block, x);
      assert !(Held(others, x) && Holds(block, x));
      assert Held(some, x) <==> Held(others, x) || Holds(left, x);
    }
  }

  lemma {:induction false} BlockWitness(free: set<Range>, block: Range, taken: Range, size: int, align: int)
    requires align > 0 && size > 0 && block in free && Inside(block, taken.address, size) && Smallest(free, block, size, align)
    requires SplitAlloc(block, size, align).Some? && taken.address == block.address + SplitAlloc(block, size, align).value.left
    ensures FreeRun(free, taken.address, size)
    ensures exists b :: b in free && LastFit(b, taken.address, size, align) && Smallest(free, b, size, align)
  {
    forall a | Fits(block, a, size, align) ensures a <= taken.address { SplitAllocLast(block, size, align, a); }
    forall x | taken.address <= x < taken.address + size ensures Held(free, x) { assert Holds(block, x); }
  }

  /** A range of free bytes moves to the used ones. */
  lemma {:induction false} TakeOut(arena: Range, free: set<Range>, after: set<Range>, used: set<Range>, taken: Range)
    requires Partition(arena, free, used) && Separated(after) && taken.size > 0
    requires Plus(free, after, taken) && NoCommon(after, taken)
    ensures Partition(arena, after, used + {taken}) && taken !in used
  {
    assert NoCommon(used, taken) by {
      forall x ensures !(Held(used, x) && Holds(taken, x)) {
        assert Held(free, x) <==> Held(after, x) || Holds(taken, x);
      }
    }
    ClearByBytes(used, taken);
    assert taken in used ==> Disjoint(taken, taken);
    forall x
      ensures (Holds(arena, x) <==> Held(after, x) || Held(used + {taken}, x)) && !(Held(after, x) && Held(used + {taken}, x))
    {
      HeldAdd(used, taken, x);
      assert Held(free, x) <==> Held(after, x) || Holds(taken, x);
    }
    InsideByBytes(arena, after);
    InsideByBytes(arena, used + {taken});
  }

  lemma {:induction false} InsideByBytes(arena: Range, s: set<Range>)
    requires Sized(s) && forall x :: Held(s, x) ==> Holds(arena, x)
    ensures InArena(s, arena)
  {
    forall r | r in s ensures arena.address <= r.address && End(r) <= End(arena) {
      assert Holds(r, r.address) && Holds(r, End(r) - 1);
      assert Held(s, r.address) && Held(s, End(r) - 1);
    }
  }

  lemma {:induction false} UsedClear(arena: Range, free: set<Range>, used: set<Range>, r: Range)
    requires Partition(arena, free, used) && r in used
    ensures Clear(free, r)
  {
    forall x ensures !(Held(free, x) && Holds(r, x)) {
      if Holds(r, x) { assert Held(used, x); }
    }
    ClearByBytes(free, r);
  }

  /** And back. */
  lemma {:induction false} PutBack(arena: Range, free: set<Range>, after: set<Range>, used: set<Range>, r: Range)
    requires Partition(arena, free, used) && Separated(after) && r in used && Plus(after, free, r)
    ensures Partition(arena, after, used - {r})
  {
    forall x
      ensures (Holds(arena, x) <==> Held(after, x) || Held(used - {r}, x)) && !(Held(after, x) && Held(used - {r}, x))
    {
      HeldSplit(used, r, x);
      if Held(used - {r}, x) {
        var b :| b in used - {r} && Holds(b, x);
        assert Disjoint(b, r);
      }
    }
    InsideByBytes(arena, after);
  }

  /** Freeing what was just allocated restores the free list. */
  lemma {:induction false} FreeUndoes(arena: Range, free: set<Range>, used: set<Range>, r: Range, after: set<Range>)
    requires Partition(arena, free, used) && r !in used && Partition(arena, after, used + {r} - {r})
    ensures after == free
  {
    assert used + {r} - {r} == used;
    FreeDetermined(arena, after, free, used);
  }

  class Allocator {
    const arena: Range
    var free: set<Range>
    var used: set<Range>

    ghost predicate Valid()
      reads this
    {
      Partition(arena, free, used)
    }

    constructor (address: int, size: int)
      requires size > 0
      ensures Valid() && arena == Range(address, size) && used == {} && free == {arena}
    {
      arena, free, used := Range(address, size), {Range(address, size)}, {};
      new;
      WholeArena(arena);
    }

    /** The free block that fits with the smallest waste. */
    method BestFit(size: int, align: int) returns (best: Option<Range>)
      requires align > 0 && size > 0
      ensures best.None? <==> forall b :: b in free ==> SplitAlloc(b, size, align).None?
      ensures best.Some? ==> best.value in free && SplitAlloc(best.value, size, align).Some?
      ensures best.Some? ==> Smallest(free, best.value, size, align)
    {
      best := None;
      var waste := 0;
      var todo := free;
      while todo != {}
        invariant todo <= free
        invariant best.None? ==> forall b :: b in free - todo ==> SplitAlloc(b, size, align).None?
        invariant best.Some? ==> best.value in free && SplitAlloc(best.value, size, align).Some?
        invariant best.Some? ==> waste == best.value.size - size
        invariant best.Some? ==> forall b :: b in free - todo && SplitAlloc(b, size, align).Some? ==> best.value.size <= b.size
        decreases todo
      {
        var block :| block in todo;
        todo := todo - {block};
        var cut := SplitAlloc(block, size, align);
        if cut.Some? && (best.None? || cut.value.left + cut.value.right < waste) {
          best, waste := Some(block), cut.value.left + cut.value.right;
          if waste == 0 {
            break;
          }
        }
      }
    }

    /** Adds a range to the free list, merging it with its neighbours. */
    method MergeFree(r0: Range)
      requires Separated(free) && Clear(free, r0)
      modifies `free
      ensures Separated(free) && Plus(free, old(free), r0)
    {
      var r, i := r0, 0;
      while i < 2
        invariant 0 <= i <= 2 && Separated(free) && Clear(free, r) && Sides(free, r) <= 2 - i
        invariant SameBytes(old(free), r0, free, r)
      {
        NoTouchNoSides(free, r);
        if b :| b in free && Touches(b, r) {
          MergeKeepsApart(free, b, r);
          MergeKeepsBytes(free, b, r);
          MergeLowersSides(free, b, r);
          free := free - {b};
          r := Merge(r, b);
        }
        i := i + 1;
      }
      AddSeparated(free, r);
      forall x ensures Held(free + {r}, x) <==> Held(old(free), x) || Holds(r0, x) { HeldAdd(free, r, x); }
      free := free + {r};
    }

    /** The last aligned range of a smallest block that has room, or a failure
        exactly when there is no aligned run of free bytes. */
    method Allocate(size0: int, align: int) returns (r: Option<Range>)
      requires Valid() && PowerOfTwo(align)
      modifies `free, `used
      ensures Valid()
      ensures var size := if size0 == 0 then 4 else size0;
              && (r.Some? <==> size > 0 && RoomFor(old(free), size, align))
              && (r.None? ==> free == old(free) && used == old(used))
              && (r.Some? ==>
                    && r.value.size == size && Aligned(r.value.address, align)
                    && r.value !in old(used) && used == old(used) + {r.value}
                    && FreeRun(old(free), r.value.address, size)
                    && exists b :: b in old(free) && LastFit(b, r.value.address, size, align) && Smallest(old(free), b, size, align))
    {
      var size := if size0 == 0 then 4 else size0;
      if size <= 0 {
        return None;
      }
      RoomIffCut(free, size, align);
      var best := BestFit(size, align);
      if best.None? {
        return None;
      }
      var block := best.value;
      var cut := SplitAlloc(block, size, align).value;
      var taken := Range(block.address + cut.left, size);
      BlockWitness(free, block, taken, size, align);
      Carve(block, cut, taken);
      r := Some(taken);
    }

    /** Takes a range out of a free block and returns the rest. */
    method Carve(block: Range, cut: Cut, taken: Range)
      requires Valid() && block in free && cut.left >= 0 && cut.right >= 0 && taken.size > 0
      requires taken.address == block.address + cut.left && End(taken) + cut.right == End(block)
      modifies `free, `used
      ensures Valid() && taken !in old(used) && used == old(used) + {taken}
    {
      var left, right := Range(block.address, cut.left), Range(End(taken), cut.right);
      BlockGone(free, block);
      ghost var others := free - {block};
      free := free - {block};
      AddCrumb(left);
      ghost var some := free;
      RightIsNew(others, some, block, left, right);
      AddCrumb(right);
      CarvedBytes(old(free), others, some, free, block, left, taken, right);
      used := used + {taken};
      TakeOut(arena, old(free), free, old(used), taken);
    }

    /** What is left over of a block, if anything. */
    method AddCrumb(r: Range)
      requires Separated(free) && r.size >= 0 && NoCommon(free, r)
      modifies `free
      ensures Separated(free) && Plus(free, old(free), r)
    {
      if r.size != 0 {
        ClearByBytes(free, r);
        MergeFree(r);
      }
    }

    /** Returns a range to the free list. */
    method Free(r: Range) returns (ok: bool)
      requires Valid()
      modifies `free, `used
      ensures Valid()
      ensures ok <==> r in old(used)
      ensures ok ==> used == old(used) - {r} && Plus(free, old(free), r)
      ensures !ok ==> free == old(free) && used == old(used)
    {
      ok := r in used;
      if ok {
        UsedClear(arena, free, used, r);
        used := used - {r};
        MergeFree(r);
        PutBack(arena, old(free), free, old(used), r);
      }
    }
  }
}
