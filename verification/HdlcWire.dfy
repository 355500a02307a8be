/** Frames as numbers on the wire. */
module HdlcWire {
  import opened Octets
  import opened Crc
  import opened CrcResidue
  import opened CrcFlags
  import opened Framing = Hdlc
  import opened Wrappers
  import N = BitStrings

  // ----- The bytes that are escaped -------------------------------------------------------------

  predicate IsSpecial(n: nat) { n == 0x03 || n == 0x11 || n == 0x13 || n == 0x7d || n == 0x7e || n == 0x91 || n == 0x93 }

  lemma {:induction false} SpecialValues()
    ensures N.Value(FLAG) == 0x7e && N.Value(ESCAPE) == 0x7d && N.Value(ETX) == 0x03
    ensures N.Value(XON) == 0x11 && N.Value(XOFF) == 0x13 && N.Value(XON_HIGH) == 0x91 && N.Value(XOFF_HIGH) == 0x93
  {
    ByteValue(FLAG, 0xe, 0x7);
    ByteValue(ESCAPE, 0xd, 0x7);
    ByteValue(ETX, 0x3, 0x0);
    ByteValue(XON, 0x1, 0x1);
    ByteValue(XOFF, 0x3, 0x1);
    ByteValue(XON_HIGH, 0x1, 0x9);
    ByteValue(XOFF_HIGH, 0x3, 0x9);
  }

  lemma {:induction false} ValueInjective(a: Octet, b: Octet)
    requires N.Value(a) == N.Value(b)
    ensures a == b
  {
    N.ValueRoundTrip(a);
    N.ValueRoundTrip(b);
  }

  /** Seven byte values are escaped, and no others. */
  lemma {:induction false} EscapedIff(b: Octet)
    ensures IsEscaped(b) <==> IsSpecial(N.Value(b))
  {
    SpecialValues();
    if N.Value(b) == 0x7e { ValueInjective(b, FLAG); }
    if N.Value(b) == 0x7d { ValueInjective(b, ESCAPE); }
    if N.Value(b) == 0x03 { ValueInjective(b, ETX); }
    if N.Value(b) == 0x11 { ValueInjective(b, XON); }
    if N.Value(b) == 0x13 { ValueInjective(b, XOFF); }
    if N.Value(b) == 0x91 { ValueInjective(b, XON_HIGH); }
    if N.Value(b) == 0x93 { ValueInjective(b, XOFF_HIGH); }
  }

  /** What follows the escape differs by 0x20 from the byte it stands for. */
  lemma {:induction false} MangledValue(b: Octet)
    ensures N.Value(Mangle(b)) == if b[5] then N.Value(b) - 0x20 else N.Value(b) + 0x20
  {
    var low := N.Weight(b[0], 1) + N.Weight(b[1], 2) + N.Weight(b[2], 4) + N.Weight(b[3], 8);
    var high := N.Weight(b[4], 1) + N.Weight(b[5], 2) + N.Weight(b[6], 4) + N.Weight(b[7], 8);
    ByteValue(b, low, high);
    ByteValue(Mangle(b), low, if b[5] then high - 2 else high + 2);
  }

  // ----- Stuffing ---------------------------------------------------------------------------------

  /** What a byte becomes on the wire, as numbers. */
  predicate Spells(wire: seq<Octet>, n: nat) {
    if IsSpecial(n) then
      |wire| == 2 && N.Value(wire[0]) == 0x7d && N.Value(wire[1]) == if n / 0x20 % 2 == 1 then n - 0x20 else n + 0x20
    else |wire| == 1 && N.Value(wire[0]) == n
  }

  /** The wire is cut into one piece for each byte. */
  predicate Spelled(wire: seq<Octet>, data: seq<Octet>) {
    if data == [] then wire == []
    else exists k :: 1 <= k <= 2 && k <= |wire| && Spells(wire[..k], N.Value(data[0])) && Spelled(wire[k..], data[1..])
  }

  lemma {:induction false} Bit5(b: Octet)
    ensures b[5] <==> N.Value(b) / 0x20 % 2 == 1
  {
    assert b[0..] == b;
    N.ValueFrom(b, 0);
    N.ValueFrom(b, 1);
    N.ValueFrom(b, 2);
    N.ValueFrom(b, 3);
    N.ValueFrom(b, 4);
    N.ValueFrom(b, 5);
    FifthHalf(N.Value(b), N.Value(b[1..]), N.Value(b[2..]), N.Value(b[3..]), N.Value(b[4..]), N.Value(b[5..]));
  }

  lemma {:induction false} FifthHalf(v0: nat, v1: nat, v2: nat, v3: nat, v4: nat, v5: nat)
    requires v0 / 2 == v1 && v1 / 2 == v2 && v2 / 2 == v3 && v3 / 2 == v4 && v4 / 2 == v5
    ensures v0 / 0x20 == v5
  {}

  lemma {:induction false} OneSpells(b: Octet)
    ensures Spells(if IsEscaped(b) then [ESCAPE, Mangle(b)] else [b], N.Value(b))
  {
    EscapedIff(b);
    SpecialValues();
    MangledValue(b);
    Bit5(b);
  }

  lemma {:induction false} StuffingSpells(data: seq<Octet>)
    ensures Spelled(Escaped(data), data)
    decreases |data|
  {
    if data != [] {
      var head, rest := if IsEscaped(data[0]) then [ESCAPE, Mangle(data[0])] else [data[0]], Escaped(data[1..]);
      OneSpells(data[0]);
      StuffingSpells(data[1..]);
      assert (head + rest)[..|head|] == head && (head + rest)[|head|..] == rest;
    }
  }

  /** A packet is the payload and its check sequence, stuffed, between two flags. */
  lemma {:induction false} PacketOnWire(payload: seq<Octet>)
    ensures Valid(Hdlc()) && var w := Packetize(payload);
            && |w| >= 2 && N.Value(w[0]) == N.Value(w[|w| - 1]) == 0x7e
            && Spelled(w[1..|w| - 1], payload + Calc(Hdlc(), payload))
  {
    HdlcParams();
    SpecialValues();
    var data := payload + Calc(Hdlc(), payload);
    StuffingSpells(data);
    var w := Packetize(payload);
    assert w == [FLAG] + Escaped(data) + [FLAG] && w[1..|w| - 1] == Escaped(data);
  }

  // ----- Whatever a peer sends -----------------------------------------------------------------------

  /** A peer may escape any byte. */
  function Stuffed(data: seq<Octet>, escape: seq<bool>): seq<Octet>
    requires |escape| == |data|
  {
    if data == [] then []
    else (if escape[0] then [ESCAPE, Mangle(data[0])] else [data[0]]) + Stuffed(data[1..], escape[1..])
  }

  /** As long as no flag and no stray escape is on the wire. */
  predicate Framed(data: seq<Octet>, escape: seq<bool>)
    requires |escape| == |data|
  {
    forall i :: 0 <= i < |data| ==> if escape[i] then Mangle(data[i]) != FLAG else data[i] != FLAG && data[i] != ESCAPE
  }

  lemma {:induction false} AnyStuffing(rx: Rx, data: seq<Octet>, escape: seq<bool>)
    requires rx.frame.Some? && !rx.escaped && |escape| == |data| && Framed(data, escape)
    ensures Feed(rx, Stuffed(data, escape)) == rx.(frame := Some(rx.frame.value + data))
    decreases |data|
  {
    if data == [] {
      assert rx.frame.value + [] == rx.frame.value;
    } else {
      var head := if escape[0] then [ESCAPE, Mangle(data[0])] else [data[0]];
      var next := rx.(frame := Some(rx.frame.value + [data[0]]));
      AnyOne(rx, data[0], escape[0]);
      FeedConcat(rx, head, Stuffed(data[1..], escape[1..]));
      AnyStuffing(next, data[1..], escape[1..]);
      assert rx.frame.value + [data[0]] + data[1..] == rx.frame.value + data;
    }
  }

  lemma {:induction false} AnyOne(rx: Rx, b: Octet, escape: bool)
    requires rx.frame.Some? && !rx.escaped
    requires if escape then Mangle(b) != FLAG else b != FLAG && b != ESCAPE
    ensures Feed(rx, if escape then [ESCAPE, Mangle(b)] else [b]) == rx.(frame := Some(rx.frame.value + [b]))
  {
    if escape {
      MangledIsPlain(b);
      assert FLAG[0] != ESCAPE[0];
      FeedConcat(rx, [ESCAPE], [Mangle(b)]);
      assert [ESCAPE] + [Mangle(b)] == [ESCAPE, Mangle(b)];
      FeedOne(rx, ESCAPE);
      FeedOne(rx.(escaped := true), Mangle(b));
    } else {
      FeedOne(rx, b);
    }
  }

  /** Nothing is heard before the first flag. */
  lemma {:induction false} DeafBeforeFlag(rx: Rx, noise: seq<Octet>)
    requires rx.frame.None? && FLAG !in noise
    ensures Feed(rx, noise) == rx
    decreases |noise|
  {
    if noise != [] { DeafBeforeFlag(rx, noise[1..]); }
  }

  /** The state after a frame that held these bytes. */
  ghost predicate Heard(r: Rx, data: seq<Octet>)
    requires Valid(Hdlc())
  {
    r.frame == Some([]) && !r.escaped && |r.frames| <= 1 && forall p :: r.frames == [p] <==> data == p + Calc(Hdlc(), p)
  }

  /** What a new receiver makes of noise and a frame: the payload if the frame is one
      with its check sequence, and nothing otherwise. */
  lemma {:induction false} FrameMeans(noise: seq<Octet>, data: seq<Octet>, escape: seq<bool>)
    requires FLAG !in noise && |escape| == |data| && Framed(data, escape)
    ensures Valid(Hdlc()) && Heard(Feed(Rx(None, false, []), noise + ([FLAG] + (Stuffed(data, escape) + [FLAG]))), data)
  {
    var rx, open, body := Rx(None, false, []), Rx(Some([]), false, []), Stuffed(data, escape);
    DeafBeforeFlag(rx, noise);
    AnyStuffing(open, data, escape);
    assert [] + data == data;
    FeedThrough(rx, open, Rx(Some(data), false, []), noise, FLAG, body);
    LastFlag(data, Step(Rx(Some(data), false, []), FLAG));
  }

  lemma {:induction false} FeedThrough(rx: Rx, open: Rx, full: Rx, noise: seq<Octet>, flag: Octet, body: seq<Octet>)
    requires Feed(rx, noise) == rx && Step(rx, flag) == open && Feed(open, body) == full
    ensures Feed(rx, noise + ([flag] + (body + [flag]))) == Step(full, flag)
  {
    FeedConcat(rx, noise, [flag] + (body + [flag]));
    FeedConcat(rx, [flag], body + [flag]);
    FeedOne(rx, flag);
    FeedConcat(open, body, [flag]);
    FeedOne(full, flag);
  }

  lemma {:induction false} LastFlag(data: seq<Octet>, r: Rx)
    requires r == Step(Rx(Some(data), false, []), FLAG)
    ensures Valid(Hdlc()) && Heard(r, data)
  {
    FrameDelivers(data);
    assert [] + Delivered(data) == Delivered(data);
  }

  lemma {:induction false} FrameDelivers(data: seq<Octet>)
    ensures Valid(Hdlc()) && |Delivered(data)| <= 1 && forall p :: Delivered(data) == [p] <==> data == p + Calc(Hdlc(), p)
    ensures data == [] ==> Delivered(data) == []
  {
    HdlcParams();
    if Delivered(data) != [] {
      OnlyGoodFramesDeliver(data);
    }
    forall p | data == p + Calc(Hdlc(), p) ensures Delivered(data) == [p] { GoodFrameDelivers(p); }
  }
}
