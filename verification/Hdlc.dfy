/** HDLC framing over a byte pipe (section 4.2 of RFC 1662): byte stuffing,
    frame check sequence and the self-synchronising receiver. */
module Hdlc {
  import opened Octets
  import opened Wrappers
  import opened Crc
  import opened CrcResidue

  // Bytes, least significant bit first.
  const FLAG: Octet := [false, true, true, true, true, true, true, false]     // 0x7e
  const ESCAPE: Octet := [true, false, true, true, true, true, true, false]   // 0x7d
  const ETX: Octet := [true, true, false, false, false, false, false, false]  // 0x03
  const XON: Octet := [true, false, false, false, true, false, false, false]  // 0x11
  const XOFF: Octet := [true, true, false, false, true, false, false, false]  // 0x13
  const XON_HIGH: Octet := XON[7 := true]                                     // 0x91
  const XOFF_HIGH: Octet := XOFF[7 := true]                                   // 0x93

  predicate IsEscaped(b: Octet) {
    b == FLAG || b == ESCAPE || b == ETX || b == XON || b == XOFF || b == XON_HIGH || b == XOFF_HIGH
  }

  /** XOR with 0x20. */
  function Mangle(b: Octet): Octet { b[5 := !b[5]] }

  // ----- Sender ---------------------------------------------------------------

  function Escaped(data: seq<Octet>): seq<Octet> {
    if data == [] then []
    else (if IsEscaped(data[0]) then [ESCAPE, Mangle(data[0])] else [data[0]]) + Escaped(data[1..])
  }

  method Escape(data: seq<Octet>) returns (out: seq<Octet>)
    ensures out == Escaped(data)
  {
    out := [];
    var i := 0;
    assert data[0..] == data;
    while i < |data|
      invariant 0 <= i <= |data| && Escaped(data) == out + Escaped(data[i..])
    {
      EscapedCons(out, data, i);
      if IsEscaped(data[i]) {
        out := out + [ESCAPE, Mangle(data[i])];
      } else {
        out := out + [data[i]];
      }
      i := i + 1;
    }
  }

  lemma {:induction false} EscapedCons(out: seq<Octet>, data: seq<Octet>, i: nat)
    requires i < |data|
    ensures out + Escaped(data[i..]) ==
            out + (if IsEscaped(data[i]) then [ESCAPE, Mangle(data[i])] else [data[i]]) + Escaped(data[i + 1..])
  {
    assert data[i..][0] == data[i] && data[i..][1..] == data[i + 1..];
  }

  function Packetize(payload: seq<Octet>): seq<Octet> {
    HdlcParams();
    [FLAG] + Escaped(payload + Calc(Hdlc(), payload)) + [FLAG]
  }

  /** On the wire, a stuffed stretch holds no flag and none of the bytes that
      software flow control would swallow. */
  lemma {:induction false} StuffedIsTransparent(data: seq<Octet>)
    ensures forall b :: b in Escaped(data) ==> b == ESCAPE || !IsEscaped(b)
    decreases |data|
  {
    if data != [] {
      StuffedIsTransparent(data[1..]);
      MangledIsPlain(data[0]);
    }
  }

  lemma {:induction false} MangledIsPlain(b: Octet)
    ensures IsEscaped(b) ==> !IsEscaped(Mangle(b))
    ensures Mangle(Mangle(b)) == b
  {
    var m := Mangle(b);
    assert m[0] == b[0] && m[1] == b[1] && m[2] == b[2] && m[3] == b[3] && m[4] == b[4]
        && m[5] == !b[5] && m[6] == b[6] && m[7] == b[7];
  }

  // ----- Receiver -----------------------------------------------------------------

  datatype Rx = Rx(frame: Option<seq<Octet>>, escaped: bool, frames: seq<seq<Octet>>)

  /** What a finished frame adds to the queue. */
  function Delivered(frame: seq<Octet>): seq<seq<Octet>> {
    HdlcParams();
    if |frame| >= 2 && IsValid(Hdlc(), frame) then [frame[..|frame| - 2]] else []
  }

  function Step(rx: Rx, b: Octet): Rx {
    if b == FLAG then
      Rx(Some([]), false, rx.frames + if rx.frame.Some? && rx.frame.value != [] then Delivered(rx.frame.value) else [])
    else if rx.frame.None? then rx
    else if rx.escaped then Rx(Some(rx.frame.value + [Mangle(b)]), false, rx.frames)
    else if b == ESCAPE then rx.(escaped := true)
    else rx.(frame := Some(rx.frame.value + [b]))
  }

  function Feed(rx: Rx, data: seq<Octet>): Rx
    decreases |data|
  {
    if data == [] then rx else Feed(Step(rx, data[0]), data[1..])
  }

  class Receiver {
    var frame: Option<seq<Octet>>
    var escaped: bool
    var frames: seq<seq<Octet>>

    constructor ()
      ensures State() == Rx(None, false, [])
    {
      frame, escaped, frames := None, false, [];
    }

    function State(): Rx
      reads this
    {
      Rx(frame, escaped, frames)
    }

    method Deliver(f: seq<Octet>)
      modifies `frames
      ensures frames == old(frames) + Delivered(f)
    {
      HdlcParams();
      if |f| < 2 {
        return;
      }
      if !IsValid(Hdlc(), f) {
        return;
      }
      frames := frames + [f[..|f| - 2]];
    }

    method FeedBytes(data: seq<Octet>)
      modifies this
      ensures State() == Feed(old(State()), data)
    {
      var i := 0;
      assert data[0..] == data;
      while i < |data|
        invariant 0 <= i <= |data| && Feed(State(), data[i..]) == Feed(old(State()), data)
      {
        assert data[i..][1..] == data[i + 1..];
        var b := data[i];
        i := i + 1;
        if b == FLAG {
          assert frames + [] == frames;
          if frame.Some? && frame.value != [] {
            Deliver(frame.value);
          }
          frame, escaped := Some([]), false;
          continue;
        }
        if frame.None? {
          continue;
        }
        if escaped {
          frame, escaped := Some(frame.value + [Mangle(b)]), false;
        } else if b == ESCAPE {
          escaped := true;
        } else {
          frame := Some(frame.value + [b]);
        }
      }
    }
  }

  lemma {:induction false} FeedConcat(rx: Rx, a: seq<Octet>, b: seq<Octet>)
    ensures Feed(rx, a + b) == Feed(Feed(rx, a), b)
    decreases |a|
  {
    if a == [] {
      assert a + b == b;
    } else {
      assert (a + b)[0] == a[0] && (a + b)[1..] == a[1..] + b;
      FeedConcat(Step(rx, a[0]), a[1..], b);
    }
  }

  // ----- Chunking -----------------------------------------------------------------

  function Joined(chunks: seq<seq<Octet>>): seq<Octet> {
    if chunks == [] then [] else chunks[0] + Joined(chunks[1..])
  }

  function FeedChunks(rx: Rx, chunks: seq<seq<Octet>>): Rx
    decreases |chunks|
  {
    if chunks == [] then rx else FeedChunks(Feed(rx, chunks[0]), chunks[1..])
  }

  lemma {:induction false} ChunkingIsInvisible(rx: Rx, chunks: seq<seq<Octet>>)
    ensures FeedChunks(rx, chunks) == Feed(rx, Joined(chunks))
    decreases |chunks|
  {
    if chunks != [] {
      FeedConcat(rx, chunks[0], Joined(chunks[1..]));
      ChunkingIsInvisible(Feed(rx, chunks[0]), chunks[1..]);
    }
  }

  // ----- Round trip ----------------------------------------------------------------

  /** Inside a frame, unstuffing undoes stuffing. */
  lemma {:induction false} Unstuff(rx: Rx, data: seq<Octet>)
    requires rx.frame.Some? && !rx.escaped
    ensures Feed(rx, Escaped(data)) == rx.(frame := Some(rx.frame.value + data))
    decreases |data|
  {
    if data == [] {
      assert rx.frame.value + [] == rx.frame.value;
    } else {
      var b, f := data[0], rx.frame.value;
      var head := if IsEscaped(b) then [ESCAPE, Mangle(b)] else [b];
      FeedConcat(rx, head, Escaped(data[1..]));
      var rx1 := rx.(frame := Some(f + [b]));
      UnstuffOne(rx, b);
      Unstuff(rx1, data[1..]);
      assert f + [b] + data[1..] == f + data;
    }
  }

  lemma {:induction false} UnstuffOne(rx: Rx, b: Octet)
    requires rx.frame.Some? && !rx.escaped
    ensures Feed(rx, if IsEscaped(b) then [ESCAPE, Mangle(b)] else [b]) == rx.(frame := Some(rx.frame.value + [b]))
  {
    FeedOne(rx, b);
    if IsEscaped(b) {
      MangledIsPlain(b);
      assert FLAG[0] != ESCAPE[0];
      FeedConcat(rx, [ESCAPE], [Mangle(b)]);
      assert [ESCAPE] + [Mangle(b)] == [ESCAPE, Mangle(b)];
      FeedOne(rx, ESCAPE);
      FeedOne(rx.(escaped := true), Mangle(b));
    }
  }

  lemma {:induction false} GoodFrameDelivers(payload: seq<Octet>)
    ensures Valid(Hdlc()) && Delivered(payload + Calc(Hdlc(), payload)) == [payload]
  {
    HdlcParams();
    var frame := payload + Calc(Hdlc(), payload);
    assert frame[..|frame| - 2] == payload && frame[|frame| - 2..] == Calc(Hdlc(), payload);
    ValidIffTailIsCrc(Hdlc(), frame);
  }

  /** Conversely, only payloads followed by their own check sequence get through. */
  lemma {:induction false} OnlyGoodFramesDeliver(frame: seq<Octet>)
    requires Delivered(frame) != []
    ensures Valid(Hdlc()) && |Delivered(frame)| == 1 && frame == Delivered(frame)[0] + Calc(Hdlc(), Delivered(frame)[0])
  {
    HdlcParams();
    ValidIffTailIsCrc(Hdlc(), frame);
    assert frame == frame[..|frame| - 2] + frame[|frame| - 2..];
  }

  /** What the receiver was holding when a flag arrives. */
  function Stale(rx: Rx): seq<seq<Octet>> {
    if rx.frame.Some? && rx.frame.value != [] then Delivered(rx.frame.value) else []
  }

  lemma {:induction false} OnePacket(rx: Rx, payload: seq<Octet>)
    ensures Feed(rx, Packetize(payload)) == Rx(Some([]), false, rx.frames + Stale(rx) + [payload])
  {
    HdlcParams();
    var body := payload + Calc(Hdlc(), payload);
    var open := Step(rx, FLAG);
    FeedConcat(rx, [FLAG] + Escaped(body), [FLAG]);
    FeedConcat(rx, [FLAG], Escaped(body));
    FeedOne(rx, FLAG);
    Unstuff(open, body);
    assert [] + body == body;
    FeedOne(open.(frame := Some(body)), FLAG);
    GoodFrameDelivers(payload);
  }

  lemma {:induction false} FeedOne(rx: Rx, b: Octet)
    ensures Feed(rx, [b]) == Step(rx, b)
  {
    assert [b][1..] == [];
  }

  function Packets(payloads: seq<seq<Octet>>): seq<Octet> {
    if payloads == [] then [] else Packetize(payloads[0]) + Packets(payloads[1..])
  }

  /** From any receiver state, after any garbage, and however the stream is
      cut, the packets arrive complete, in order and with nothing between
      them, behind at most one stale frame. */
  lemma {:induction false} PacketsArriveInOrder(rx: Rx, payloads: seq<seq<Octet>>, chunks: seq<seq<Octet>>)
    requires payloads != [] && Joined(chunks) == Packets(payloads)
    ensures FeedChunks(rx, chunks) == Rx(Some([]), false, rx.frames + Stale(rx) + payloads)
    ensures |Stale(rx)| <= 1
  {
    ChunkingIsInvisible(rx, chunks);
    PacketsFeed(rx, payloads);
  }

  lemma {:induction false} PacketsFeed(rx: Rx, payloads: seq<seq<Octet>>)
    requires payloads != []
    ensures Feed(rx, Packets(payloads)) == Rx(Some([]), false, rx.frames + Stale(rx) + payloads)
    decreases |payloads|
  {
    var rx1 := Rx(Some([]), false, rx.frames + Stale(rx) + [payloads[0]]);
    OnePacket(rx, payloads[0]);
    FeedConcat(rx, Packetize(payloads[0]), Packets(payloads[1..]));
    if |payloads| > 1 {
      PacketsFeed(rx1, payloads[1..]);
      assert rx1.frames + [] + payloads[1..] == rx.frames + Stale(rx) + payloads;
    } else {
      assert payloads[1..] == [] && payloads == [payloads[0]];
    }
  }
}
