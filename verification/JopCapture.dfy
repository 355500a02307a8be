/** TDO capture of a JTAG-over-protocol session: windows scheduled in a short
    queue, captured bits packed into response bytes. */
module JopCapture {
  import opened BitSequences
  import opened Octets

  const FIFO_DEPTH := 2

  /** A window of `duration` TCKs. */
  datatype Window = Window(duration: nat, enable: bool, eop: bool)

  // ----- What should come out ------------------------------------------------------------------

  /** A captured bit, or the end of an enabled window that asks for a byte boundary. */
  datatype Token = Bit(b: bool) | Pad

  /** The response stream, bit by bit. */
  function Packed(bits: Bits, tokens: seq<Token>): Bits
    decreases |tokens|
  {
    if tokens == [] then bits
    else Packed(if tokens[0].Bit? then bits + [tokens[0].b] else bits + Zeros((8 - |bits| % 8) % 8), tokens[1..])
  }

  lemma {:induction false} PackedConcat(bits: Bits, a: seq<Token>, b: seq<Token>)
    ensures Packed(bits, a + b) == Packed(Packed(bits, a), b)
    decreases |a|
  {
    if a == [] {
      assert a + b == b;
    } else {
      assert (a + b)[0] == a[0] && (a + b)[1..] == a[1..] + b;
      PackedConcat(if a[0].Bit? then bits + [a[0].b] else bits + Zeros((8 - |bits| % 8) % 8), a[1..], b);
    }
  }

  /** Whole bytes in front do not matter to what follows. */
  lemma {:induction false} PackedBehind(front: Bits, bits: Bits, tokens: seq<Token>)
    requires |front| % 8 == 0
    ensures Packed(front + bits, tokens) == front + Packed(bits, tokens)
    decreases |tokens|
  {
    if tokens != [] {
      var pad := Zeros((8 - |bits| % 8) % 8);
      assert |front + bits| % 8 == |bits| % 8;
      var more := if tokens[0].Bit? then [tokens[0].b] else pad;
      assert (front + bits) + more == front + (bits + more);
      PackedBehind(front, bits + more, tokens[1..]);
    }
  }

  function BitTokens(bits: Bits): (r: seq<Token>)
    ensures |r| == |bits|
  {
    seq(|bits|, i requires 0 <= i < |bits| => Bit(bits[i]))
  }

  lemma {:induction false} PackedBits(bits: Bits, more: Bits)
    ensures Packed(bits, BitTokens(more)) == bits + more
    decreases |more|
  {
    if more != [] {
      assert BitTokens(more)[1..] == BitTokens(more[1..]);
      PackedBits(bits + [more[0]], more[1..]);
      assert bits + [more[0]] + more[1..] == bits + more;
    } else {
      assert bits + more == bits;
    }
  }

  /** The windows in turn over a stream of TDO bits: the independent picture. */
  function Cut(ws: seq<Window>, tdo: Bits): seq<Token>
    decreases |ws|
  {
    if ws == [] then []
    else
      var d := if |tdo| < ws[0].duration then |tdo| else ws[0].duration;
      (if ws[0].enable then BitTokens(tdo[..d]) else [])
      + (if |tdo| < ws[0].duration then []
         else (if ws[0].enable && ws[0].eop then [Pad] else []) + Cut(ws[1..], tdo[d..]))
  }

  // ----- The queue, TCK by TCK --------------------------------------------------------------------

  /** The queue and what is left of its head's window. */
  datatype Queue = Queue(fifo: seq<Window>, head: nat)

  predicate Sound(q: Queue) {
    (q.head > 0 ==> q.fifo != []) && forall i :: 0 <= i < |q.fifo| ==> q.fifo[i].duration > 0
  }

  function Next(q: Queue): (r: Queue)
    requires Sound(q)
    ensures Sound(r)
  {
    if q.head == 0 then q
    else if q.head > 1 then q.(head := q.head - 1)
    else
      var rest := q.fifo[1..];
      Queue(rest, if rest == [] then 0 else rest[0].duration)
  }

  function Emits(q: Queue, b: bool): seq<Token>
    requires Sound(q)
  {
    if q.head == 0 || !q.fifo[0].enable then []
    else [Bit(b)] + if q.head == 1 && q.fifo[0].eop then [Pad] else []
  }

  datatype Walk = Walk(queue: Queue, tokens: seq<Token>)

  function Clock(q: Queue, tdo: Bits): (w: Walk)
    requires Sound(q)
    ensures Sound(w.queue)
    decreases |tdo|
  {
    if tdo == [] then Walk(q, [])
    else
      var rest := Clock(Next(q), tdo[1..]);
      Walk(rest.queue, Emits(q, tdo[0]) + rest.tokens)
  }

  lemma {:induction false} ClockConcat(q: Queue, a: Bits, b: Bits)
    requires Sound(q)
    ensures Clock(q, a + b).queue == Clock(Clock(q, a).queue, b).queue
    ensures Clock(q, a + b).tokens == Clock(q, a).tokens + Clock(Clock(q, a).queue, b).tokens
    decreases |a|
  {
    if a == [] {
      assert a + b == b;
    } else {
      assert (a + b)[0] == a[0] && (a + b)[1..] == a[1..] + b;
      ClockConcat(Next(q), a[1..], b);
      Assoc(Emits(q, a[0]), Clock(Next(q), a[1..]).tokens, Clock(Clock(Next(q), a[1..]).queue, b).tokens);
    }
  }

  lemma {:induction false} ClockSnoc(q: Queue, a: Bits, b: bool)
    requires Sound(q)
    ensures Clock(q, a + [b]).queue == Next(Clock(q, a).queue)
    ensures Clock(q, a + [b]).tokens == Clock(q, a).tokens + Emits(Clock(q, a).queue, b)
  {
    ClockConcat(q, a, [b]);
    assert [b][1..] == [];
  }

  lemma {:induction false} ClockIdle(q: Queue, tdo: Bits)
    requires Sound(q) && q.head == 0
    ensures Clock(q, tdo) == Walk(q, [])
    decreases |tdo|
  {
    if tdo != [] {
      ClockIdle(q, tdo[1..]);
    }
  }

  /** Within the head's window. */
  lemma {:induction false} ClockInWindow(q: Queue, tdo: Bits)
    requires Sound(q) && |tdo| < q.head
    ensures Clock(q, tdo).queue == q.(head := q.head - |tdo|)
    ensures Clock(q, tdo).tokens == if q.fifo[0].enable then BitTokens(tdo) else []
    decreases |tdo|
  {
    if tdo != [] {
      ClockInWindow(Next(q), tdo[1..]);
      if q.fifo[0].enable {
        assert BitTokens(tdo) == [Bit(tdo[0])] + BitTokens(tdo[1..]);
      }
    }
  }

  /** The windows of a queue, TCK by TCK, are the windows in turn. */
  lemma {:induction false} ClockCuts(ws: seq<Window>, tdo: Bits)
    requires forall i :: 0 <= i < |ws| ==> ws[i].duration > 0
    ensures Clock(Queue(ws, if ws == [] then 0 else ws[0].duration), tdo).tokens == Cut(ws, tdo)
    decreases |ws|
  {
    var q := Queue(ws, if ws == [] then 0 else ws[0].duration);
    if ws == [] {
      ClockIdle(q, tdo);
    } else if |tdo| < ws[0].duration {
      ClockInWindow(q, tdo);
      assert tdo[..|tdo|] == tdo;
    } else {
      ClockWindow(ws, tdo, ws[0].duration);
      ClockCuts(ws[1..], tdo[ws[0].duration..]);
    }
  }

  /** The window of the head, to its end. */
  lemma {:induction false} ClockToEnd(q: Queue, body: Bits, last: bool)
    requires Sound(q) && |body| + 1 == q.head
    ensures var rest := q.fifo[1..];
            Clock(q, body + [last]).queue == Queue(rest, if rest == [] then 0 else rest[0].duration)
    ensures Clock(q, body + [last]).tokens
         == (if q.fifo[0].enable then BitTokens(body + [last]) else []) + (if q.fifo[0].enable && q.fifo[0].eop then [Pad] else [])
  {
    ClockInWindow(q, body);
    ClockSnoc(q, body, last);
    assert BitTokens(body + [last]) == BitTokens(body) + [Bit(last)];
  }

  lemma {:induction false} ClockWindow(ws: seq<Window>, tdo: Bits, d: nat)
    requires ws != [] && (forall i :: 0 <= i < |ws| ==> ws[i].duration > 0) && d == ws[0].duration <= |tdo|
    ensures var rest := ws[1..];
            Clock(Queue(ws, d), tdo).tokens ==
            (if ws[0].enable then BitTokens(tdo[..d]) else []) + ((if ws[0].enable && ws[0].eop then [Pad] else [])
            + Clock(Queue(rest, if rest == [] then 0 else rest[0].duration), tdo[d..]).tokens)
  {
    var q, whole := Queue(ws, d), tdo[..d];
    assert tdo[..d - 1] + [tdo[d - 1]] == whole;
    ClockToEnd(q, tdo[..d - 1], tdo[d - 1]);
    assert whole + tdo[d..] == tdo;
    ClockConcat(q, whole, tdo[d..]);
    Assoc(if ws[0].enable then BitTokens(whole) else [], if ws[0].enable && ws[0].eop then [Pad] else [],
          Clock(Clock(q, whole).queue, tdo[d..]).tokens);
  }

  // ----- Events of a session --------------------------------------------------------------------------

  datatype Event = Push(w: Window) | ResetFifo | Tck(tdo: bool)

  /** A full queue loses its oldest entry; the head's count is kept. */
  function Pushed(q: Queue, w: Window): (r: Queue)
    requires Sound(q) && w.duration > 0
    ensures Sound(r)
  {
    var f := (if |q.fifo| >= FIFO_DEPTH then q.fifo[1..] else q.fifo) + [w];
    Queue(f, if q.head == 0 then f[0].duration else q.head)
  }

  predicate Sane(es: seq<Event>) { forall i :: 0 <= i < |es| ==> es[i].Push? ==> es[i].w.duration > 0 }

  function Replay(es: seq<Event>): (r: Walk)
    requires Sane(es)
    ensures Sound(r.queue)
    decreases |es|
  {
    if es == [] then Walk(Queue([], 0), [])
    else
      var before := Replay(es[..|es| - 1]);
      match es[|es| - 1]
      case Push(w) => Walk(Pushed(before.queue, w), before.tokens)
      case ResetFifo => Walk(Queue([], 0), before.tokens)
      case Tck(b) => Walk(Next(before.queue), before.tokens + Emits(before.queue, b))
  }

  function Tcks(tdo: Bits): (es: seq<Event>)
    ensures |es| == |tdo|
  {
    seq(|tdo|, i requires 0 <= i < |tdo| => Tck(tdo[i]))
  }

  lemma {:induction false} ReplaySnoc(es: seq<Event>, b: bool)
    requires Sane(es)
    ensures Sane(es + [Tck(b)])
    ensures Replay(es + [Tck(b)]) == Walk(Next(Replay(es).queue), Replay(es).tokens + Emits(Replay(es).queue, b))
  {
    var all := es + [Tck(b)];
    assert all[..|all| - 1] == es && all[|all| - 1] == Tck(b);
  }

  lemma {:induction false} ReplayPush(es: seq<Event>, w: Window)
    requires Sane(es) && w.duration > 0
    ensures Sane(es + [Push(w)])
    ensures Replay(es + [Push(w)]) == Walk(Pushed(Replay(es).queue, w), Replay(es).tokens)
  {
    var all := es + [Push(w)];
    assert all[..|all| - 1] == es && all[|all| - 1] == Push(w);
  }

  lemma {:induction false} ReplayTcks(es: seq<Event>, tdo: Bits, all: seq<Event>)
    requires Sane(es) && all == es + Tcks(tdo)
    ensures Sane(all)
    ensures Replay(all).queue == Clock(Replay(es).queue, tdo).queue
    ensures Replay(all).tokens == Replay(es).tokens + Clock(Replay(es).queue, tdo).tokens
    decreases |tdo|
  {
    if tdo == [] {
      assert all == es;
    } else {
      var next := es + [Tck(tdo[0])];
      ReplaySnoc(es, tdo[0]);
      assert all == next + Tcks(tdo[1..]);
      ReplayTcks(next, tdo[1..], all);
      Assoc(Replay(es).tokens, Emits(Replay(es).queue, tdo[0]), Clock(Next(Replay(es).queue), tdo[1..]).tokens);
    }
  }

  // ----- Overflow ----------------------------------------------------------------------------------------

  /** A queue that never overflows. */
  function Appended(q: Queue, w: Window): (r: Queue)
    requires Sound(q) && w.duration > 0
    ensures Sound(r)
  {
    var f := q.fifo + [w];
    Queue(f, if q.head == 0 then f[0].duration else q.head)
  }

  /** The session with room for every window. */
  function Ideal(es: seq<Event>): (r: Walk)
    requires Sane(es)
    ensures Sound(r.queue)
    decreases |es|
  {
    if es == [] then Walk(Queue([], 0), [])
    else
      var before := Ideal(es[..|es| - 1]);
      match es[|es| - 1]
      case Push(w) => Walk(Appended(before.queue, w), before.tokens)
      case ResetFifo => Walk(Queue([], 0), before.tokens)
      case Tck(b) => Walk(Next(before.queue), before.tokens + Emits(before.queue, b))
  }

  predicate SanePrefix(es: seq<Event>, n: nat) { n <= |es| && Sane(es[..n]) }

  /** Some window is pushed while the queue is full. */
  predicate Overflows(es: seq<Event>)
    requires Sane(es)
  {
    exists n :: 0 <= n < |es| && es[n].Push? && SanePrefix(es, n) && |Ideal(es[..n]).queue.fifo| >= FIFO_DEPTH
  }

  /** The session does at every moment what one with room for every window would
      do, if and only if no window is pushed while the queue is full. */
  lemma {:induction false} IdealIffNoOverflow(es: seq<Event>)
    requires Sane(es)
    ensures !Overflows(es) <==> forall n: nat :: SanePrefix(es, n) ==> Replay(es[..n]) == Ideal(es[..n])
    decreases |es|
  {
    if !Overflows(es) {
      forall n: nat | SanePrefix(es, n) ensures Replay(es[..n]) == Ideal(es[..n]) { SameUntilOverflow(es, n); }
    } else {
      var n := FirstOverflow(es);
      OverflowShows(es, n);
    }
  }

  lemma {:induction false} SameUntilOverflow(es: seq<Event>, n: nat)
    requires Sane(es) && SanePrefix(es, n)
    requires forall m :: 0 <= m < n && es[m].Push? && SanePrefix(es, m) ==> |Ideal(es[..m]).queue.fifo| < FIFO_DEPTH
    ensures Replay(es[..n]) == Ideal(es[..n])
    decreases n
  {
    if n > 0 {
      var m := n - 1;
      assert es[..n][..m] == es[..m] && es[..n][m] == es[m] && SanePrefix(es, m);
      SameUntilOverflow(es, m);
    }
  }

  /** The earliest one. */
  lemma {:induction false} FirstOverflow(es: seq<Event>) returns (n: nat)
    requires Sane(es) && Overflows(es)
    ensures n < |es| && es[n].Push? && SanePrefix(es, n) && |Ideal(es[..n]).queue.fifo| >= FIFO_DEPTH
    ensures forall m :: 0 <= m < n && es[m].Push? && SanePrefix(es, m) ==> |Ideal(es[..m]).queue.fifo| < FIFO_DEPTH
  {
    n :| 0 <= n < |es| && es[n].Push? && SanePrefix(es, n) && |Ideal(es[..n]).queue.fifo| >= FIFO_DEPTH;
    while exists m :: 0 <= m < n && es[m].Push? && SanePrefix(es, m) && |Ideal(es[..m]).queue.fifo| >= FIFO_DEPTH
      invariant n < |es| && es[n].Push? && SanePrefix(es, n) && |Ideal(es[..n]).queue.fifo| >= FIFO_DEPTH
      decreases n
    {
      var m :| 0 <= m < n && es[m].Push? && SanePrefix(es, m) && |Ideal(es[..m]).queue.fifo| >= FIFO_DEPTH;
      n := m;
    }
  }

  lemma {:induction false} OverflowShows(es: seq<Event>, n: nat)
    requires Sane(es) && n < |es| && es[n].Push? && SanePrefix(es, n) && |Ideal(es[..n]).queue.fifo| >= FIFO_DEPTH
    requires forall m :: 0 <= m < n && es[m].Push? && SanePrefix(es, m) ==> |Ideal(es[..m]).queue.fifo| < FIFO_DEPTH
    ensures SanePrefix(es, n + 1) && Replay(es[..n + 1]) != Ideal(es[..n + 1])
  {
    SameUntilOverflow(es, n);
    var now := es[..n + 1];
    assert now[..n] == es[..n] && now[n] == es[n];
    assert SanePrefix(es, n + 1);
    assert |Replay(now).queue.fifo| == |Ideal(es[..n]).queue.fifo|;
    assert |Ideal(now).queue.fifo| == |Ideal(es[..n]).queue.fifo| + 1;
  }

  /** With room for every window it does not matter when a window is pushed, as
      long as the queue has not run dry. */
  lemma {:induction false} PushEarlyOrLate(q: Queue, w: Window, tdo: Bits)
    requires Sound(q) && w.duration > 0 && Clock(q, tdo).queue.head > 0
    ensures Clock(Appended(q, w), tdo).tokens == Clock(q, tdo).tokens
    ensures Clock(Appended(q, w), tdo).queue == Appended(Clock(q, tdo).queue, w)
    decreases |tdo|
  {
    if tdo != [] {
      DryStays(q, tdo);
      NextAppended(q, w, tdo[1..]);
      PushEarlyOrLate(Next(q), w, tdo[1..]);
    }
  }

  lemma {:induction false} DryStays(q: Queue, tdo: Bits)
    requires Sound(q) && Clock(q, tdo).queue.head > 0
    ensures q.head > 0
  {
    if q.head == 0 {
      ClockIdle(q, tdo);
    }
  }

  lemma {:induction false} NextAppended(q: Queue, w: Window, rest: Bits)
    requires Sound(q) && w.duration > 0 && q.head > 0 && Clock(Next(q), rest).queue.head > 0
    ensures Next(Appended(q, w)) == Appended(Next(q), w)
    ensures forall b :: Emits(Appended(q, w), b) == Emits(q, b)
  {
    DryStays(Next(q), rest);
    assert (q.fifo + [w])[1..] == q.fifo[1..] + [w];
  }

  lemma {:induction false} QueuedTwo(a: Window, b: Window)
    requires a.duration > 0 && b.duration > 0
    ensures Sane([Push(a), Push(b)]) && Replay([Push(a), Push(b)]).queue == Queue([a, b], a.duration)
  {
    ReplayPush([], a);
    ReplayPush([Push(a)], b);
    assert [] + [Push(a)] == [Push(a)] && [Push(a)] + [Push(b)] == [Push(a), Push(b)];
  }

  lemma {:induction false} QueuedThree(a: Window, b: Window, c: Window)
    requires a.duration > 0 && b.duration > 0 && c.duration > 0
    ensures Sane([Push(a), Push(b), Push(c)]) && Replay([Push(a), Push(b), Push(c)]).queue == Queue([b, c], a.duration)
  {
    QueuedTwo(a, b);
    ReplayPush([Push(a), Push(b)], c);
    assert [Push(a), Push(b)] + [Push(c)] == [Push(a), Push(b), Push(c)];
  }

  /** Two windows are captured as they were asked for. */
  lemma {:induction false} TwoAreKept(a: Window, b: Window, tdo: Bits)
    requires a.duration > 0 && b.duration > 0
    ensures Sane([Push(a), Push(b)]) && Clock(Replay([Push(a), Push(b)]).queue, tdo).tokens == Cut([a, b], tdo)
  {
    QueuedTwo(a, b);
    ClockCuts([a, b], tdo);
  }

  /** A third one costs the first, whose TCKs go to the second. */
  lemma {:induction false} ThirdCostsFirst(a: Window, b: Window, c: Window, tdo: Bits)
    requires a.duration > 0 && b.duration > 0 && c.duration > 0
    ensures Sane([Push(a), Push(b), Push(c)])
    ensures Clock(Replay([Push(a), Push(b), Push(c)]).queue, tdo).tokens == Cut([b.(duration := a.duration), c], tdo)
  {
    var next := b.(duration := a.duration);
    QueuedThree(a, b, c);
    HeadCounts(Queue([b, c], a.duration), Queue([next, c], a.duration), tdo);
    ClockCuts([next, c], tdo);
  }

  /** The count of TCKs left is the head's, not its window's. */
  lemma {:induction false} HeadCounts(x: Queue, y: Queue, tdo: Bits)
    requires Sound(x) && Sound(y) && x.head == y.head > 0 && x.fifo[1..] == y.fifo[1..]
    requires x.fifo[0].enable == y.fifo[0].enable && x.fifo[0].eop == y.fifo[0].eop
    ensures Clock(x, tdo).tokens == Clock(y, tdo).tokens
    decreases |tdo|
  {
    if tdo != [] && x.head > 1 { HeadCounts(Next(x), Next(y), tdo[1..]); }
  }

  /** Overflow shifts a later window into the place of the lost one: a one-TCK
      window then lasts as long as the lost window had left. */
  lemma {:induction false} OverflowMisplaces()
    ensures var lost, short := Window(3, false, false), Window(1, true, false);
            var es := [Push(lost), Push(short), Push(short)];
            Sane(es) && Clock(Replay(es).queue, [true, true]).tokens == [Bit(true), Bit(true)]
  {
    var lost, short := Window(3, false, false), Window(1, true, false);
    QueuedThree(lost, short, short);
    var q := Queue([short, short], 3);
    assert [true, true][1..] == [true] && [true][1..] == [];
    assert Clock(Next(q), [true]).tokens == [Bit(true)];
  }

  // ----- Response bytes ---------------------------------------------------------------------------------

  /** Bytes and fewer than eight held bits are determined by the bit stream. */
  lemma {:induction false} BytesDetermined(a: seq<Octet>, h: Bits, b: seq<Octet>, k: Bits)
    requires |h| < 8 && |k| < 8 && Flat(a) + h == Flat(b) + k
    ensures a == b && h == k
    decreases |a|
  {
    assert |Flat(a) + h| == |Flat(b) + k|;
    assert |a| == |b|;
    if a == [] {
      assert Flat(a) + h == h && Flat(b) + k == k;
    } else {
      var s := Flat(a) + h;
      assert a[0] == s[..8] && b[0] == s[..8];
      assert Flat(a[1..]) + h == s[8..] && Flat(b[1..]) + k == s[8..];
      BytesDetermined(a[1..], h, b[1..], k);
    }
  }
}
