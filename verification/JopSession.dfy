/** The session's capture pipeline: command dispatch, the shift loop and the
    response encoder. */
module JopSession {
  import opened BitSequences
  import opened Octets
  import opened JopCapture

  /** Packs bits LSB first; `byte` holds the `bitPos` bits not sent yet. */
  class Encoder {
    var byte: Octet
    var bitPos: nat

    ghost predicate Valid()
      reads this
    {
      bitPos < 8 && forall i :: bitPos <= i < 8 ==> !byte[i]
    }

    function Held(): (h: Bits)
      requires bitPos < 8
      reads this
      ensures |h| == bitPos
    {
      byte[..bitPos]
    }

    constructor ()
      ensures Valid() && Held() == []
    {
      byte, bitPos := Zeros(8), 0;
    }

    /** Also tells which of the bytes carries the EOP asked for. */
    method EmitWindow(tdo: Bits, eop: bool) returns (out: seq<Octet>, eopAt: seq<nat>)
      requires Valid()
      modifies this
      ensures Valid() && eopAt == if eop && out != [] then [|out| - 1] else []
      ensures Flat(out) + Held() == Packed(old(Held()), BitTokens(tdo) + if eop then [Pad] else [])
    {
      PackedBits(Held(), tdo);
      PackedConcat(Held(), BitTokens(tdo), if eop then [Pad] else []);
      out := PackBits(tdo);
      if eop {
        ghost var held, front := Held(), Flat(out);
        PackedPad(front, held);
        if bitPos > 0 {
          FlatSnoc(out, byte);
          assert byte == held + Zeros(8 - bitPos);
          out := out + [byte];
          byte, bitPos := Zeros(8), 0;
        }
        assert Flat(out) + Held() == Packed(front + held, [Pad]);
      }
      eopAt := if eop && out != [] then [|out| - 1] else [];
    }

    method PackBits(tdo: Bits) returns (out: seq<Octet>)
      requires Valid()
      modifies this
      ensures Valid() && Flat(out) + Held() == old(Held()) + tdo
    {
      out := [];
      var i := 0;
      assert tdo[..0] == [];
      while i < |tdo|
        invariant 0 <= i <= |tdo| && Valid() && Flat(out) + Held() == old(Held()) + tdo[..i]
      {
        assert tdo[..i + 1] == tdo[..i] + [tdo[i]];
        ghost var held := Held();
        var full := PackBit(tdo[i]);
        FlatConcat(out, full);
        Assoc(Flat(out), Flat(full), Held());
        Assoc(Flat(out), held, [tdo[i]]);
        Assoc(old(Held()), tdo[..i], [tdo[i]]);
        out := out + full;
        i := i + 1;
      }
      assert tdo[..|tdo|] == tdo;
    }

    /** One bit; the byte it completes, if any. */
    method PackBit(b: bool) returns (full: seq<Octet>)
      requires Valid()
      modifies this
      ensures Valid() && |full| <= 1 && (|full| == 1 ==> Held() == [])
      ensures Flat(full) + Held() == old(Held()) + [b]
    {
      full := [];
      byte, bitPos := if b then byte[bitPos := true] else byte, bitPos + 1;
      assert byte[..bitPos] == old(Held()) + [b];
      if bitPos == 8 {
        full := [byte];
        assert full[1..] == [] && Flat(full) == byte;
        byte, bitPos := Zeros(8), 0;
      }
    }
  }

  lemma {:induction false} PackedPad(front: Bits, held: Bits)
    requires |front| % 8 == 0 && |held| < 8
    ensures Packed(front + held, [Pad]) == front + held + (if held == [] then [] else Zeros(8 - |held|))
  {
    assert [Pad][1..] == [];
    assert |front + held| % 8 == |held|;
    if held == [] {
      assert (front + held) + Zeros(0) == front + held;
    }
  }

  class Session {
    const encoder: Encoder
    var fifo: seq<Window>
    var headRemaining: nat
    ghost var events: seq<Event>
    ghost var sent: seq<Octet>   // capture bytes of all responses so far

    function State(): Queue
      reads this
    {
      Queue(fifo, headRemaining)
    }

    /** Response bytes and held bits are the captured bits of the session,
        packed; the queue is where the events left it. */
    ghost predicate Valid()
      reads this, encoder
    {
      && encoder.Valid() && Sane(events) && Replay(events).queue == State()
      && Flat(sent) + encoder.Held() == Packed([], Replay(events).tokens)
    }

    constructor ()
      ensures Valid() && events == [] && sent == [] && fresh(encoder)
    {
      encoder := new Encoder();
      fifo, headRemaining, events, sent := [], 0, [], [];
    }

    method ResetTdoFifo()
      requires Valid()
      modifies `fifo, `headRemaining, `events
      ensures Valid() && events == old(events) + [ResetFifo]
    {
      fifo, headRemaining := [], 0;
      events := events + [ResetFifo];
      assert events[..|events| - 1] == old(events);
    }

    method PushTdoCapture(w: Window)
      requires Valid() && w.duration > 0
      modifies `fifo, `headRemaining, `events
      ensures Valid() && events == old(events) + [Push(w)]
    {
      ReplayPush(events, w);
      if |fifo| >= FIFO_DEPTH {
        fifo := fifo[1..];
      }
      fifo := fifo + [w];
      if headRemaining == 0 {
        headRemaining := fifo[0].duration;
      }
      events := events + [Push(w)];
    }

    /** A Shift whose TDO is `tdo`: whatever the cut into Shifts, one event a TCK. */
    method DoShift(tdo: Bits) returns (out: seq<Octet>, anyEop: bool)
      requires Valid()
      modifies this, encoder
      ensures Valid() && events == old(events) + Tcks(tdo) && sent == old(sent) + out
      ensures anyEop <==> EopWithin(old(State()), tdo, |tdo|)
    {
      ghost var tokens := Clock(State(), tdo).tokens;
      ghost var held := encoder.Held();
      out, anyEop := Capture(tdo);
      ReplayTcks(events, tdo, events + Tcks(tdo));
      Sent(sent, out, held, encoder.Held(), Replay(events).tokens, tokens);
      sent := sent + out;
      events := events + Tcks(tdo);
    }

    /** The loop over the TDO bits. */
    method Capture(tdo: Bits) returns (out: seq<Octet>, anyEop: bool)
      requires encoder.Valid() && Sound(State())
      modifies `fifo, `headRemaining, encoder
      ensures encoder.Valid() && State() == Clock(old(State()), tdo).queue
      ensures Flat(out) + encoder.Held() == Packed(old(encoder.Held()), Clock(old(State()), tdo).tokens)
      ensures anyEop <==> EopWithin(old(State()), tdo, |tdo|)
    {
      out, anyEop := [], false;
      var captured: Bits := [];
      var i := 0;
      ghost var q0, held0 := State(), encoder.Held();
      assert tdo[..0] == [];
      while i < |tdo|
        invariant 0 <= i <= |tdo| && encoder.Valid() && Sound(State())
        invariant State() == Clock(q0, tdo[..i]).queue
        invariant Flat(out) + encoder.Held() + captured == Packed(held0, Clock(q0, tdo[..i]).tokens)
        invariant captured != [] ==> headRemaining > 0 && fifo[0].enable
        invariant anyEop <==> EopWithin(q0, tdo, i)
      {
        EopNext(q0, tdo, i);
        ClockSnoc(q0, tdo[..i], tdo[i]);
        assert tdo[..i + 1] == tdo[..i] + [tdo[i]];
        var ended;
        out, captured, ended := CaptureBit(tdo[i], out, captured, held0, Clock(q0, tdo[..i]).tokens);
        anyEop := anyEop || ended;
        i := i + 1;
      }
      assert tdo[..|tdo|] == tdo;
      if captured != [] {
        out := Emit(out, captured, false);
        assert BitTokens(captured) + [] == BitTokens(captured);
      } else {
        assert Flat(out) + encoder.Held() + captured == Flat(out) + encoder.Held();
      }
    }

    /** One TCK of the loop. */
    method CaptureBit(b: bool, sofar: seq<Octet>, held: Bits, ghost held0: Bits, ghost tokens: seq<Token>)
      returns (out: seq<Octet>, captured: Bits, ended: bool)
      requires encoder.Valid() && Sound(State())
      requires Flat(sofar) + encoder.Held() + held == Packed(held0, tokens)
      requires held != [] ==> headRemaining > 0 && fifo[0].enable
      modifies `fifo, `headRemaining, encoder
      ensures encoder.Valid() && Sound(State()) && State() == Next(old(State()))
      ensures Flat(out) + encoder.Held() + captured == Packed(held0, tokens + Emits(old(State()), b))
      ensures captured != [] ==> headRemaining > 0 && fifo[0].enable
      ensures ended <==> EopNow(old(State()))
    {
      out, captured, ended := sofar, held, false;
      ghost var x := Flat(out) + encoder.Held() + held;
      PackedConcat(held0, tokens, Emits(State(), b));
      if headRemaining == 0 {
        return;
      }
      PackedBit(x, b, fifo[0].eop);
      Assoc(Flat(out) + encoder.Held(), held, [b]);
      var head := fifo[0];
      if head.enable {
        captured := captured + [b];
      }
      headRemaining := headRemaining - 1;
      if headRemaining == 0 {
        if captured != [] && head.enable {
          out := Emit(out, captured, head.eop);
          captured := [];
          assert Flat(out) + encoder.Held() + [] == Flat(out) + encoder.Held();
        }
        ended := head.eop;
        fifo := fifo[1..];
        if fifo != [] {
          headRemaining := fifo[0].duration;
        }
      }
    }

    /** Hands captured bits to the encoder. */
    method Emit(sofar: seq<Octet>, captured: Bits, eop: bool) returns (out: seq<Octet>)
      requires encoder.Valid()
      modifies encoder
      ensures encoder.Valid()
      ensures Flat(out) + encoder.Held()
           == Packed(Flat(sofar) + old(encoder.Held()) + captured, if eop then [Pad] else [])
    {
      var chunk, _ := encoder.EmitWindow(captured, eop);
      EmitJoins(sofar, old(encoder.Held()), captured, eop, chunk, encoder.Held());
      out := sofar + chunk;
    }
  }

  /** The next TCK ends a window that asks for EOP. */
  predicate EopNow(q: Queue)
    requires Sound(q)
  {
    q.head == 1 && q.fifo[0].eop
  }

  /** One of the first `n` TCKs ends such a window. */
  predicate EopWithin(q: Queue, tdo: Bits, n: nat)
    requires Sound(q) && n <= |tdo|
  {
    exists i :: 0 <= i < n && EopNow(Clock(q, tdo[..i]).queue)
  }

  lemma {:induction false} EopNext(q: Queue, tdo: Bits, n: nat)
    requires Sound(q) && n < |tdo|
    ensures EopWithin(q, tdo, n + 1) <==> EopWithin(q, tdo, n) || EopNow(Clock(q, tdo[..n]).queue)
  {}

  lemma {:induction false} PackedBit(x: Bits, b: bool, eop: bool)
    ensures Packed(x, []) == x && Packed(x, [Bit(b)] + []) == x + [b]
    ensures Packed(x, [Bit(b)] + if eop then [Pad] else []) == Packed(x + [b], if eop then [Pad] else [])
  {
    var pad := if eop then [Pad] else [];
    assert ([Bit(b)] + pad)[1..] == pad && ([Bit(b)] + [])[1..] == [];
  }

  lemma {:induction false} EmitJoins(sofar: seq<Octet>, held: Bits, captured: Bits, eop: bool, chunk: seq<Octet>, after: Bits)
    requires Flat(chunk) + after == Packed(held, BitTokens(captured) + if eop then [Pad] else [])
    ensures Flat(sofar + chunk) + after == Packed(Flat(sofar) + held + captured, if eop then [Pad] else [])
  {
    var pad := if eop then [Pad] else [];
    FlatConcat(sofar, chunk);
    Assoc(Flat(sofar), Flat(chunk), after);
    PackedConcat(held, BitTokens(captured), pad);
    PackedBits(held, captured);
    PackedBehind(Flat(sofar), held + captured, pad);
    Assoc(Flat(sofar), held, captured);
  }

  lemma {:induction false} Sent(sent: seq<Octet>, out: seq<Octet>, held: Bits, after: Bits, tokens: seq<Token>, more: seq<Token>)
    requires Flat(sent) + held == Packed([], tokens) && Flat(out) + after == Packed(held, more)
    ensures Flat(sent + out) + after == Packed([], tokens + more)
  {
    FlatConcat(sent, out);
    Assoc(Flat(sent), Flat(out), after);
    PackedConcat([], tokens, more);
    PackedBehind(Flat(sent), held, more);
  }

  /** Two sessions that saw the same events, however their TCKs were cut into
      Shifts, have sent the same bytes and hold the same bits. */
  lemma {:induction false} CutsDoNotShow(a: Session, b: Session)
    requires a.Valid() && b.Valid() && a.events == b.events
    ensures a.sent == b.sent && a.encoder.Held() == b.encoder.Held() && a.State() == b.State()
  {
    BytesDetermined(a.sent, a.encoder.Held(), b.sent, b.encoder.Held());
  }
}
