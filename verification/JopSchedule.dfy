/** When the capture windows of a session lie, and how an overflow shows. */
module JopSchedule {
  import opened BitSequences
  import opened JopCapture

  // ----- Placement -------------------------------------------------------------------------

  /** A window and the TCK it starts at. */
  datatype Placement = Placement(start: nat, w: Window)

  function End(p: Placement): nat { p.start + p.w.duration }

  function Tdo(es: seq<Event>): Bits {
    if es == [] then []
    else Tdo(es[..|es| - 1]) + if es[|es| - 1].Tck? then [es[|es| - 1].tdo] else []
  }

  function LastEnd(ps: seq<Placement>): nat { if ps == [] then 0 else End(ps[|ps| - 1]) }

  /** What a reset leaves of the windows: those that have started, the last one cut
      short, without its padding. */
  function CutOff(ps: seq<Placement>, now: nat): seq<Placement>
    decreases |ps|
  {
    if ps == [] || End(ps[|ps| - 1]) <= now then ps
    else
      var before, last := ps[..|ps| - 1], ps[|ps| - 1];
      if now <= last.start then CutOff(before, now)
      else before + [Placement(last.start, Window(now - last.start, last.w.enable, false))]
  }

  /** Every window starts when it is pushed, or when its predecessor ends, and
      a reset ends it. */
  function Schedule(es: seq<Event>): seq<Placement> {
    if es == [] then []
    else
      var before, now := Schedule(es[..|es| - 1]), |Tdo(es[..|es| - 1])|;
      match es[|es| - 1]
      case Push(w) => before + [Placement(if now < LastEnd(before) then LastEnd(before) else now, w)]
      case ResetFifo => CutOff(before, now)
      case Tck(_) => before
  }

  predicate Holds(p: Placement, i: nat) { p.start <= i < End(p) }

  /** What TCK number `i` captures: the bit, if it lies in an enabled window, and
      the padding, if it is the last of one that asks for it. */
  function Captures(ps: seq<Placement>, i: nat, b: bool): seq<Token> {
    if ps == [] then []
    else if Holds(ps[0], i) then
      if ps[0].w.enable then [Bit(b)] + (if i + 1 == End(ps[0]) && ps[0].w.eop then [Pad] else []) else []
    else Captures(ps[1..], i, b)
  }

  function Captured(ps: seq<Placement>, tdo: Bits): seq<Token> {
    if tdo == [] then [] else Captured(ps, tdo[..|tdo| - 1]) + Captures(ps, |tdo| - 1, tdo[|tdo| - 1])
  }

  // ----- The queue follows the schedule ------------------------------------------------------

  predicate Ordered(ps: seq<Placement>) {
    && (forall i :: 0 <= i < |ps| ==> ps[i].w.duration > 0)
    && (forall i, j :: 0 <= i < j < |ps| ==> End(ps[i]) <= ps[j].start)
  }

  /** From the m-th window on the schedule is what the queue holds. */
  predicate Tracks(ps: seq<Placement>, now: nat, q: Queue, m: nat) {
    && m <= |ps| && |q.fifo| == |ps| - m && Ordered(ps)
    && (forall j :: 0 <= j < |q.fifo| ==> q.fifo[j] == ps[m + j].w)
    && (forall j :: 0 <= j < m ==> End(ps[j]) <= now)
    && (m == |ps| ==> q.head == 0)
    && (m < |ps| ==> Holds(ps[m], now) && q.head == End(ps[m]) - now)
    && (forall j :: m < j < |ps| ==> ps[j].start == End(ps[j - 1]))
  }

  lemma {:induction false} HeldBy(ps: seq<Placement>, m: nat, i: nat, b: bool)
    requires Ordered(ps) && m < |ps| && Holds(ps[m], i)
    ensures Captures(ps, i, b) ==
      if ps[m].w.enable then [Bit(b)] + (if i + 1 == End(ps[m]) && ps[m].w.eop then [Pad] else []) else []
    decreases m
  {
    if m > 0 {
      assert End(ps[0]) <= ps[m].start;
      HeldBy(ps[1..], m - 1, i, b);
    }
  }

  lemma {:induction false} HeldByNone(ps: seq<Placement>, i: nat, b: bool)
    requires forall j :: 0 <= j < |ps| ==> !Holds(ps[j], i)
    ensures Captures(ps, i, b) == []
  {
    if ps != [] {
      HeldByNone(ps[1..], i, b);
    }
  }

  lemma {:induction false} TrackTck(ps: seq<Placement>, now: nat, q: Queue, m: nat, b: bool)
    requires Tracks(ps, now, q, m) && Sound(q)
    ensures Emits(q, b) == Captures(ps, now, b)
  {
    if m == |ps| {
      HeldByNone(ps, now, b);
    } else {
      HeldBy(ps, m, now, b);
      assert q.fifo[0] == ps[m].w;
    }
  }

  lemma {:induction false} TrackNext(ps: seq<Placement>, now: nat, q: Queue, m: nat)
    requires Tracks(ps, now, q, m) && Sound(q)
    ensures Tracks(ps, now + 1, Next(q), if q.head == 1 then m + 1 else m)
  {
    if m < |ps| {
      assert q.fifo[0] == ps[m].w;
      if q.head == 1 && m + 1 < |ps| {
        assert q.fifo[1] == ps[m + 1].w;
      }
    }
  }

  lemma {:induction false} TrackPush(ps: seq<Placement>, now: nat, q: Queue, m: nat, w: Window, p: Placement)
    requires Tracks(ps, now, q, m) && Sound(q) && w.duration > 0
    requires p == Placement(if now < LastEnd(ps) then LastEnd(ps) else now, w)
    ensures Tracks(ps + [p], now, Appended(q, w), m)
  {
    var all := ps + [p];
    assert m < |ps| ==> End(ps[m]) <= LastEnd(ps);
    assert forall i :: 0 <= i < |ps| ==> End(ps[i]) <= LastEnd(ps);
    assert Ordered(all);
    if m < |ps| {
      assert q.fifo[0] == ps[m].w;
    }
  }

  lemma {:induction false} LaterWindow(ps: seq<Placement>, p: Placement, i: nat, b: bool)
    requires i < p.start
    ensures Captures(ps + [p], i, b) == Captures(ps, i, b)
    decreases |ps|
  {
    var all := ps + [p];
    if ps == [] {
      assert all[1..] == [];
    } else {
      assert all[1..] == ps[1..] + [p];
      LaterWindow(ps[1..], p, i, b);
    }
  }

  lemma {:induction false} LaterWindowAll(ps: seq<Placement>, p: Placement, tdo: Bits)
    requires |tdo| <= p.start
    ensures Captured(ps + [p], tdo) == Captured(ps, tdo)
    decreases |tdo|
  {
    if tdo != [] {
      LaterWindowAll(ps, p, tdo[..|tdo| - 1]);
      LaterWindow(ps, p, |tdo| - 1, tdo[|tdo| - 1]);
    }
  }

  lemma {:induction false} IdealPush(es: seq<Event>, w: Window)
    requires Sane(es) && w.duration > 0
    ensures Sane(es + [Push(w)]) && Ideal(es + [Push(w)]) == Walk(Appended(Ideal(es).queue, w), Ideal(es).tokens)
    ensures Tdo(es + [Push(w)]) == Tdo(es)
    ensures Schedule(es + [Push(w)]) ==
      Schedule(es) + [Placement(if |Tdo(es)| < LastEnd(Schedule(es)) then LastEnd(Schedule(es)) else |Tdo(es)|, w)]
  {
    var all := es + [Push(w)];
    assert all[..|all| - 1] == es && all[|all| - 1] == Push(w);
    assert Tdo(es) + [] == Tdo(es);
  }

  lemma {:induction false} IdealTck(es: seq<Event>, b: bool)
    requires Sane(es)
    ensures Sane(es + [Tck(b)])
    ensures Ideal(es + [Tck(b)]) == Walk(Next(Ideal(es).queue), Ideal(es).tokens + Emits(Ideal(es).queue, b))
    ensures Tdo(es + [Tck(b)]) == Tdo(es) + [b] && Schedule(es + [Tck(b)]) == Schedule(es)
  {
    var all := es + [Tck(b)];
    assert all[..|all| - 1] == es && all[|all| - 1] == Tck(b);
  }

  /** Queue and response are those of the schedule. */
  predicate OnSchedule(es: seq<Event>, m: nat)
    requires Sane(es)
  {
    Tracks(Schedule(es), |Tdo(es)|, Ideal(es).queue, m) && Ideal(es).tokens == Captured(Schedule(es), Tdo(es))
  }

  lemma {:induction false} PushOnSchedule(es: seq<Event>, w: Window, m: nat)
    requires Sane(es) && w.duration > 0 && OnSchedule(es, m)
    ensures Sane(es + [Push(w)]) && OnSchedule(es + [Push(w)], m)
  {
    var ps, tdo := Schedule(es), Tdo(es);
    var p := Placement(if |tdo| < LastEnd(ps) then LastEnd(ps) else |tdo|, w);
    IdealPush(es, w);
    TrackPush(ps, |tdo|, Ideal(es).queue, m, w, p);
    LaterWindowAll(ps, p, tdo);
  }

  lemma {:induction false} TckOnSchedule(es: seq<Event>, b: bool, m: nat)
    requires Sane(es) && OnSchedule(es, m)
    ensures Sane(es + [Tck(b)]) && OnSchedule(es + [Tck(b)], if Ideal(es).queue.head == 1 then m + 1 else m)
  {
    IdealTck(es, b);
    TrackTck(Schedule(es), |Tdo(es)|, Ideal(es).queue, m, b);
    TrackNext(Schedule(es), |Tdo(es)|, Ideal(es).queue, m);
    assert (Tdo(es) + [b])[..|Tdo(es)|] == Tdo(es);
  }

  /** What is left of the schedule up to the window that is running. */
  lemma {:induction false} CutOffRunning(ps: seq<Placement>, now: nat, m: nat)
    requires Ordered(ps) && m < |ps| && Holds(ps[m], now) && forall j :: 0 <= j < m ==> End(ps[j]) <= now
    ensures CutOff(ps, now) == ps[..m] + Begun(ps[m], now)
    decreases |ps|
  {
    var before, last := ps[..|ps| - 1], ps[|ps| - 1];
    if m < |ps| - 1 {
      assert End(ps[m]) <= last.start;
      CutOffRunning(before, now, m);
      assert before[..m] == ps[..m];
    } else {
      assert before == ps[..m];
      if last.start == now {
        CutOffDone(before, now);
      }
    }
  }

  /** The part of a window before `now`. */
  function Begun(p: Placement, now: nat): seq<Placement> {
    if p.start < now then [Placement(p.start, Window(now - p.start, p.w.enable, false))] else []
  }

  lemma {:induction false} CutOffDone(ps: seq<Placement>, now: nat)
    requires forall j :: 0 <= j < |ps| ==> End(ps[j]) <= now
    ensures CutOff(ps, now) == ps
  {}

  lemma {:induction false} TrackReset(ps: seq<Placement>, now: nat, q: Queue, m: nat, r: seq<Placement>)
    requires Tracks(ps, now, q, m) && r == CutOff(ps, now)
    ensures Tracks(r, now, Queue([], 0), |r|)
    ensures forall i, b :: 0 <= i < now ==> Captures(r, i, b) == Captures(ps, i, b)
  {
    if m == |ps| {
      CutOffDone(ps, now);
    } else {
      CutOffRunning(ps, now, m);
      forall i: nat, b | i < now ensures Captures(r, i, b) == Captures(ps, i, b) { BegunCaptures(ps, now, m, r, i, b); }
    }
  }

  lemma {:induction false} BegunCaptures(ps: seq<Placement>, now: nat, m: nat, r: seq<Placement>, i: nat, b: bool)
    requires Ordered(ps) && m < |ps| && Holds(ps[m], now) && r == ps[..m] + Begun(ps[m], now) && Ordered(r) && i < now
    ensures Captures(r, i, b) == Captures(ps, i, b)
  {
    if j :| 0 <= j < m && Holds(ps[j], i) {
      assert r[j] == ps[j];
      HeldBy(ps, j, i, b);
      HeldBy(r, j, i, b);
    } else if ps[m].start <= i {
      BegunHolds(ps, now, m, r, i, b);
    } else {
      forall j | 0 <= j < |r| ensures !Holds(r[j], i) { assert r[j].start == ps[j].start && (j < m ==> r[j] == ps[j]); }
      forall j | m < j < |ps| ensures !Holds(ps[j], i) { assert End(ps[m]) <= ps[j].start; }
      HeldByNone(ps, i, b);
      HeldByNone(r, i, b);
    }
  }

  /** In the window that is cut short. */
  lemma {:induction false} BegunHolds(ps: seq<Placement>, now: nat, m: nat, r: seq<Placement>, i: nat, b: bool)
    requires Ordered(ps) && m < |ps| && Holds(ps[m], now) && r == ps[..m] + Begun(ps[m], now) && Ordered(r)
    requires ps[m].start <= i < now
    ensures Captures(r, i, b) == Captures(ps, i, b)
  {
    assert r[m] == Begun(ps[m], now)[0];
    HeldBy(ps, m, i, b);
    HeldBy(r, m, i, b);
  }

  lemma {:induction false} CapturedSame(ps: seq<Placement>, r: seq<Placement>, tdo: Bits)
    requires forall i, b :: 0 <= i < |tdo| ==> Captures(r, i, b) == Captures(ps, i, b)
    ensures Captured(r, tdo) == Captured(ps, tdo)
    decreases |tdo|
  {
    if tdo != [] {
      CapturedSame(ps, r, tdo[..|tdo| - 1]);
    }
  }

  lemma {:induction false} IdealReset(es: seq<Event>)
    requires Sane(es)
    ensures Sane(es + [ResetFifo]) && Ideal(es + [ResetFifo]) == Walk(Queue([], 0), Ideal(es).tokens)
    ensures Tdo(es + [ResetFifo]) == Tdo(es) && Schedule(es + [ResetFifo]) == CutOff(Schedule(es), |Tdo(es)|)
  {
    var all := es + [ResetFifo];
    assert all[..|all| - 1] == es && all[|all| - 1] == ResetFifo;
    assert Tdo(es) + [] == Tdo(es);
  }

  lemma {:induction false} ResetOnSchedule(es: seq<Event>, m: nat)
    requires Sane(es) && OnSchedule(es, m)
    ensures Sane(es + [ResetFifo]) && OnSchedule(es + [ResetFifo], |Schedule(es + [ResetFifo])|)
  {
    var ps, r := Schedule(es), CutOff(Schedule(es), |Tdo(es)|);
    IdealReset(es);
    TrackReset(ps, |Tdo(es)|, Ideal(es).queue, m, r);
    CapturedSame(ps, r, Tdo(es));
  }

  lemma {:induction false} TrackSession(es: seq<Event>) returns (m: nat)
    requires Sane(es)
    ensures OnSchedule(es, m)
    decreases |es|
  {
    m := 0;
    if es != [] {
      var before, last := es[..|es| - 1], es[|es| - 1];
      m := TrackSession(before);
      assert es == before + [last];
      match last
      case Push(w) => PushOnSchedule(before, w, m);
      case ResetFifo =>
        ResetOnSchedule(before, m);
        m := |Schedule(es)|;
      case Tck(b) =>
        TckOnSchedule(before, b, m);
        m := if Ideal(before).queue.head == 1 then m + 1 else m;
    }
  }

  /** A session without overflow captures exactly its windows, each placed at the
      later of its push and its predecessor's end, and ended by a reset. */
  lemma {:induction false} SessionCapturesSchedule(es: seq<Event>)
    requires Sane(es) && !Overflows(es)
    ensures Replay(es).tokens == Captured(Schedule(es), Tdo(es))
  {
    var m := TrackSession(es);
    IdealIffNoOverflow(es);
    assert es[..|es|] == es && SanePrefix(es, |es|);
  }

  /** A reset parts a session in two that know nothing of each other. */
  lemma {:induction false} ResetParts(a: seq<Event>, b: seq<Event>, all: seq<Event>)
    requires Sane(a) && Sane(b) && all == a + [ResetFifo] + b
    ensures Sane(all) && Replay(all) == Walk(Replay(b).queue, Replay(a).tokens + Replay(b).tokens)
    decreases |b|
  {
    if b == [] {
      ReplayReset(a);
      assert all == a + [ResetFifo] && Replay(a).tokens + [] == Replay(a).tokens;
    } else {
      var front, mid := b[..|b| - 1], all[..|all| - 1];
      assert mid == a + [ResetFifo] + front && b == front + [b[|b| - 1]] && all == mid + [b[|b| - 1]];
      ResetParts(a, front, mid);
      PartsGoOn(front, mid, b[|b| - 1], Replay(a).tokens);
    }
  }

  lemma {:induction false} PartsGoOn(front: seq<Event>, mid: seq<Event>, e: Event, before: seq<Token>)
    requires Sane(front) && Sane(mid) && Sane(front + [e])
    requires Replay(mid) == Walk(Replay(front).queue, before + Replay(front).tokens)
    ensures Sane(mid + [e])
    ensures Replay(mid + [e]) == Walk(Replay(front + [e]).queue, before + Replay(front + [e]).tokens)
  {
    assert (front + [e])[|front|] == e;
    match e
    case Push(w) =>
      ReplayPush(front, w);
      ReplayPush(mid, w);
    case ResetFifo =>
      ReplayReset(front);
      ReplayReset(mid);
    case Tck(t) =>
      ReplaySnoc(front, t);
      ReplaySnoc(mid, t);
      Assoc(before, Replay(front).tokens, Emits(Replay(front).queue, t));
  }

  lemma {:induction false} ReplayReset(es: seq<Event>)
    requires Sane(es)
    ensures Sane(es + [ResetFifo]) && Replay(es + [ResetFifo]) == Walk(Queue([], 0), Replay(es).tokens)
  {
    var all := es + [ResetFifo];
    assert all[..|all| - 1] == es && all[|all| - 1] == ResetFifo;
  }

  // ----- How an overflow shows ------------------------------------------------------------------

  function BitCount(ts: seq<Token>): nat {
    if ts == [] then 0 else (if ts[0].Bit? then 1 else 0) + BitCount(ts[1..])
  }

  lemma {:induction false} BitCountConcat(a: seq<Token>, b: seq<Token>)
    ensures BitCount(a + b) == BitCount(a) + BitCount(b)
    decreases |a|
  {
    if a == [] {
      assert a + b == b;
    } else {
      assert (a + b)[0] == a[0] && (a + b)[1..] == a[1..] + b;
      BitCountConcat(a[1..], b);
    }
  }

  lemma {:induction false} BitCountBits(bits: Bits)
    ensures BitCount(BitTokens(bits)) == |bits|
    decreases |bits|
  {
    if bits != [] {
      assert BitTokens(bits)[1..] == BitTokens(bits[1..]);
      BitCountBits(bits[1..]);
    }
  }

  /** The queue behind its head. */
  function Behind(q: Queue): Queue
    requires q.fifo != []
  {
    var rest := q.fifo[1..];
    Queue(rest, if rest == [] then 0 else rest[0].duration)
  }

  /** The head's window, to its end. */
  lemma {:induction false} HeadWindow(q: Queue)
    requires Sound(q) && q.head > 0
    ensures Clock(q, Zeros(q.head)).queue == Behind(q)
    ensures BitCount(Clock(q, Zeros(q.head)).tokens) == if q.fifo[0].enable then q.head else 0
    ensures !q.fifo[0].enable ==> Clock(q, Zeros(q.head)).tokens == []
  {
    var zs := Zeros(q.head);
    assert Zeros(q.head - 1) + [false] == zs;
    ClockToEnd(q, Zeros(q.head - 1), false);
    var pad := if q.fifo[0].enable && q.fifo[0].eop then [Pad] else [];
    BitCountConcat(if q.fifo[0].enable then BitTokens(zs) else [], pad);
    BitCountBits(zs);
    assert [Pad][1..] == [] && BitCount([Pad]) == 0;
  }

  /** Zeros for the head's window and `n` more. */
  lemma {:induction false} PastHead(q: Queue, n: nat)
    requires Sound(q) && q.head > 0
    ensures Sound(Behind(q))
    ensures Clock(q, Zeros(q.head + n)).tokens == Clock(q, Zeros(q.head)).tokens + Clock(Behind(q), Zeros(n)).tokens
    ensures BitCount(Clock(q, Zeros(q.head + n)).tokens)
         == (if q.fifo[0].enable then q.head else 0) + BitCount(Clock(Behind(q), Zeros(n)).tokens)
  {
    HeadWindow(q);
    assert Zeros(q.head) + Zeros(n) == Zeros(q.head + n);
    ClockConcat(q, Zeros(q.head), Zeros(n));
    BitCountConcat(Clock(q, Zeros(q.head)).tokens, Clock(Behind(q), Zeros(n)).tokens);
  }

  lemma {:induction false} SilentQueue(q: Queue, tdo: Bits)
    requires Sound(q) && forall i :: 0 <= i < |q.fifo| ==> !q.fifo[i].enable
    ensures Clock(q, tdo).tokens == []
    decreases |tdo|
  {
    if tdo != [] {
      SilentQueue(Next(q), tdo[1..]);
    }
  }

  lemma {:induction false} OneTck(q: Queue, b: bool)
    requires Sound(q)
    ensures Clock(q, [b]).tokens == Emits(q, b)
  {
    assert [b][1..] == [];
  }

  ghost predicate Tells(p: Queue, q: Queue, tdo: Bits)
    requires Sound(p) && Sound(q)
  {
    Clock(p, tdo).tokens != Clock(q, tdo).tokens
  }

  function BitsOf(w: Window): nat { if w.enable then w.duration else 0 }

  /** The last window and idle TCKs after it. */
  lemma {:induction false} CountLast(w: Window, d: nat)
    requires w.duration > 0
    ensures BitCount(Clock(Queue([w], w.duration), Zeros(w.duration + d)).tokens) == BitsOf(w)
  {
    var q := Queue([w], w.duration);
    PastHead(q, d);
    ClockIdle(Behind(q), Zeros(d));
  }

  lemma {:induction false} CountTwo(q: Queue, w: Window, d: nat)
    requires Sound(q) && |q.fifo| == 2 && q.fifo[1] == w && q.head > 0 && q.fifo[0].enable
    ensures BitCount(Clock(q, Zeros(q.head + (w.duration + d))).tokens) == q.head + BitsOf(w)
  {
    PastHead(q, w.duration + d);
    assert Behind(q) == Queue([w], w.duration);
    CountLast(w, d);
  }

  lemma {:induction false} CountThree(q: Queue, a: Window, w: Window)
    requires Sound(q) && |q.fifo| == 3 && q.fifo[1] == a && q.fifo[2] == w && q.head > 0 && q.fifo[0].enable && a.enable
    ensures BitCount(Clock(q, Zeros(q.head + (a.duration + w.duration))).tokens) == q.head + a.duration + BitsOf(w)
  {
    PastHead(q, a.duration + w.duration);
    assert Behind(q) == Queue([a, w], a.duration);
    CountTwo(Behind(q), w, 0);
  }

  /** Three enabled windows: the one that was lost is missing in the count. */
  lemma {:induction false} LostBits(q: Queue, w: Window)
    requires Sound(q) && |q.fifo| == FIFO_DEPTH && q.head > 0 && w.duration > 0 && q.fifo[0].enable && q.fifo[1].enable
    ensures Tells(Pushed(q, w), Appended(q, w), Zeros(q.head + (q.fifo[1].duration + w.duration)))
  {
    var d := q.fifo[1].duration;
    assert d > 0 && w.duration + d == d + w.duration;
    CountTwo(Pushed(q, w), w, d);
    CountThree(Appended(q, w), q.fifo[1], w);
  }

  /** Only the new window is enabled: it comes too early. */
  lemma {:induction false} EarlyBits(q: Queue, w: Window)
    requires Sound(q) && |q.fifo| == FIFO_DEPTH && q.head > 0 && w.duration > 0
    requires !q.fifo[0].enable && !q.fifo[1].enable && w.enable
    ensures Tells(Pushed(q, w), Appended(q, w), Zeros(q.head + 1))
  {
    var p, i := Pushed(q, w), Appended(q, w);
    assert p.fifo == [q.fifo[1], w] && i.fifo == [q.fifo[0], q.fifo[1], w];
    assert Behind(p) == Queue([w], w.duration) && Behind(i).fifo[0] == q.fifo[1];
    EarlyTells(p, i, q.head);
  }

  lemma {:induction false} EarlyTells(p: Queue, i: Queue, n: nat)
    requires Sound(p) && Sound(i) && p.head == i.head == n > 0 && !p.fifo[0].enable && !i.fifo[0].enable
    requires Sound(Behind(p)) && Sound(Behind(i)) && Emits(Behind(p), false) != Emits(Behind(i), false)
    ensures Tells(p, i, Zeros(n + 1))
  {
    SilentHead(p);
    SilentHead(i);
  }

  /** A disabled window says nothing; the TCK behind it is the next window's. */
  lemma {:induction false} SilentHead(q: Queue)
    requires Sound(q) && q.head > 0 && !q.fifo[0].enable
    ensures Sound(Behind(q)) && Clock(q, Zeros(q.head + 1)).tokens == Emits(Behind(q), false)
  {
    PastHead(q, 1);
    HeadWindow(q);
    assert Zeros(1) == [false];
    OneTck(Behind(q), false);
  }

  /** A window pushed onto a full queue changes the response to some TDO if and
      only if one of the three windows is enabled. */
  lemma {:induction false} OverflowTellsIff(q: Queue, w: Window)
    requires Sound(q) && |q.fifo| == FIFO_DEPTH && q.head > 0 && w.duration > 0
    ensures (exists tdo :: Tells(Pushed(q, w), Appended(q, w), tdo)) <==> q.fifo[0].enable || q.fifo[1].enable || w.enable
  {
    var p, i := Pushed(q, w), Appended(q, w);
    assert p.fifo == [q.fifo[1], w] && i.fifo == [q.fifo[0], q.fifo[1], w];
    if q.fifo[0].enable != q.fifo[1].enable {
      OneTck(p, false);
      OneTck(i, false);
      assert Tells(p, i, [false]);
    } else if q.fifo[0].enable {
      LostBits(q, w);
    } else if w.enable {
      EarlyBits(q, w);
    } else {
      forall tdo ensures !Tells(p, i, tdo) {
        SilentQueue(p, tdo);
        SilentQueue(i, tdo);
      }
    }
  }

  // ----- In a session -------------------------------------------------------------------------------

  predicate Running(q: Queue) { Sound(q) && (q.fifo != [] ==> q.head > 0) && |q.fifo| <= FIFO_DEPTH }

  lemma {:induction false} ReplayRunning(es: seq<Event>)
    requires Sane(es)
    ensures Running(Replay(es).queue)
    decreases |es|
  {
    if es != [] {
      ReplayRunning(es[..|es| - 1]);
    }
  }

  lemma {:induction false} IdealTcks(es: seq<Event>, tdo: Bits, all: seq<Event>)
    requires Sane(es) && all == es + Tcks(tdo)
    ensures Sane(all) && Ideal(all).tokens == Ideal(es).tokens + Clock(Ideal(es).queue, tdo).tokens
    decreases |tdo|
  {
    if tdo == [] {
      assert all == es;
    } else {
      var next := es + [Tck(tdo[0])];
      IdealTck(es, tdo[0]);
      assert all == next + Tcks(tdo[1..]);
      IdealTcks(next, tdo[1..], all);
      Assoc(Ideal(es).tokens, Emits(Ideal(es).queue, tdo[0]), Clock(Next(Ideal(es).queue), tdo[1..]).tokens);
    }
  }

  /** From equal states, a push onto a full queue and TCKs that tell. */
  lemma {:induction false} TellsInResponse(es: seq<Event>, w: Window, tdo: Bits, now: seq<Event>, all: seq<Event>)
    requires Sane(es) && w.duration > 0 && Replay(es) == Ideal(es) && now == es + [Push(w)] && all == now + Tcks(tdo)
    ensures Sane(all)
    ensures Tells(Pushed(Ideal(es).queue, w), Appended(Ideal(es).queue, w), tdo) ==> Replay(all).tokens != Ideal(all).tokens
  {
    ReplayPush(es, w);
    IdealPush(es, w);
    ReplayTcks(now, tdo, all);
    IdealTcks(now, tdo, all);
    SamePrefix(Ideal(es).tokens, Clock(Replay(now).queue, tdo).tokens, Clock(Ideal(now).queue, tdo).tokens);
  }

  lemma {:induction false} SamePrefix(a: seq<Token>, b: seq<Token>, c: seq<Token>)
    ensures a + b == a + c ==> b == c
  {
    assert (a + b)[|a|..] == b && (a + c)[|a|..] == c;
  }

  lemma {:induction false} TellingTdo(q: Queue, w: Window) returns (tdo: Bits)
    requires Running(q) && |q.fifo| == FIFO_DEPTH && w.duration > 0
    ensures q.fifo[0].enable || q.fifo[1].enable || w.enable ==> Tells(Pushed(q, w), Appended(q, w), tdo)
  {
    OverflowTellsIff(q, w);
    tdo := [];
    if q.fifo[0].enable || q.fifo[1].enable || w.enable {
      tdo :| Tells(Pushed(q, w), Appended(q, w), tdo);
    }
  }

  lemma {:induction false} OverflowAfter(es: seq<Event>, w: Window, now: seq<Event>) returns (tdo: Bits)
    requires Sane(es) && w.duration > 0 && Replay(es) == Ideal(es) && |Ideal(es).queue.fifo| >= FIFO_DEPTH
    requires now == es + [Push(w)]
    ensures |Ideal(es).queue.fifo| == FIFO_DEPTH && Sane(now + Tcks(tdo))
    ensures var q := Ideal(es).queue;
            q.fifo[0].enable || q.fifo[1].enable || w.enable ==> Replay(now + Tcks(tdo)).tokens != Ideal(now + Tcks(tdo)).tokens
  {
    ReplayRunning(es);
    tdo := TellingTdo(Ideal(es).queue, w);
    TellsInResponse(es, w, tdo, now, now + Tcks(tdo));
  }

  /** The first overflow of a session, if one of the windows it involves is
      enabled, shows in the response to some TCKs that follow it. */
  lemma {:induction false} OverflowShowsInResponse(es: seq<Event>) returns (n: nat, tdo: Bits)
    requires Sane(es) && Overflows(es)
    ensures n < |es| && es[n].Push? && SanePrefix(es, n) && |Ideal(es[..n]).queue.fifo| == FIFO_DEPTH
    ensures var q, all := Ideal(es[..n]).queue, es[..n + 1] + Tcks(tdo);
            Sane(all) && (q.fifo[0].enable || q.fifo[1].enable || es[n].w.enable ==> Replay(all).tokens != Ideal(all).tokens)
  {
    n := FirstOverflow(es);
    SameUntilOverflow(es, n);
    assert es[..n + 1] == es[..n] + [Push(es[n].w)];
    tdo := OverflowAfter(es[..n], es[n].w, es[..n + 1]);
  }
}
