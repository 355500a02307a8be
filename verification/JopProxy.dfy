/** A JoP session on top of the proxy: the bytes it sends are those a peer would
    have packed that clocked the TAP itself. */
module JopProxy {
  import opened BitSequences
  import opened Octets
  import opened JopCapture
  import opened JopSchedule
  import opened JopSession
  import T = TapController
  import J = JtagOps
  import E = JtagOpEncoder
  import R = EncoderRefinement
  import W = JtagTmsWalker
  import P = JtagProxy
  import X = JtagProxyTdo
  import S = JtagProxySession

  /** What the peer asks for. */
  datatype Command = Capture(w: Window) | ClearFifo | Shift(bits: seq<T.Tck>)

  predicate Decoded(cmds: seq<Command>) { forall i :: 0 <= i < |cmds| ==> cmds[i].Capture? ==> cmds[i].w.duration > 0 }

  /** The streams handed to the walker. */
  function Calls(cmds: seq<Command>): seq<seq<T.Tck>> {
    if cmds == [] then [] else (if cmds[0].Shift? then [cmds[0].bits] else []) + Calls(cmds[1..])
  }

  /** What a session goes through when its Shifts return `tdos`. */
  function EventsOf(cmds: seq<Command>, tdos: seq<Bits>): seq<Event>
    requires |tdos| == |Calls(cmds)|
  {
    if cmds == [] then []
    else match cmds[0]
      case Capture(w) => [Push(w)] + EventsOf(cmds[1..], tdos)
      case ClearFifo => [ResetFifo] + EventsOf(cmds[1..], tdos)
      case Shift(_) => Tcks(tdos[0]) + EventsOf(cmds[1..], tdos[1..])
  }

  /** What it would go through if it clocked the TAP and sampled it itself. */
  function PeerEvents(dev: X.Device, hist: seq<T.Event>, s: T.State, cmds: seq<Command>): seq<Event>
    decreases |cmds|
  {
    if cmds == [] then []
    else match cmds[0]
      case Capture(w) => [Push(w)] + PeerEvents(dev, hist, s, cmds[1..])
      case ClearFifo => [ResetFifo] + PeerEvents(dev, hist, s, cmds[1..])
      case Shift(bits) =>
        Tcks(X.Sampled(dev, hist, s, bits)) + PeerEvents(dev, hist + T.Trace(s, bits), T.Walk(s, bits), cmds[1..])
  }

  // ----- Serving commands -----------------------------------------------------------------

  /** What one command adds, `tdo` being what a Shift returns. */
  function Adds(cmd: Command, tdo: Bits): seq<Event> {
    match cmd
    case Capture(w) => [Push(w)]
    case ClearFifo => [ResetFifo]
    case Shift(_) => Tcks(tdo)
  }

  function At(tdos: seq<Bits>, k: nat): Bits { if k < |tdos| then tdos[k] else [] }

  lemma {:induction false} EventsCons(cmds: seq<Command>, tdos: seq<Bits>, i: nat, k: nat, k': nat)
    requires i < |cmds| && k <= |tdos| && |tdos[k..]| == |Calls(cmds[i..])| && k' == if cmds[i].Shift? then k + 1 else k
    ensures k' <= |tdos| && |tdos[k'..]| == |Calls(cmds[i + 1..])|
    ensures EventsOf(cmds[i..], tdos[k..]) == Adds(cmds[i], At(tdos, k)) + EventsOf(cmds[i + 1..], tdos[k'..])
  {
    assert cmds[i..][0] == cmds[i] && cmds[i..][1..] == cmds[i + 1..];
    CallsCons(cmds[i..]);
    if cmds[i].Shift? {
      assert tdos[k..][0] == tdos[k] && tdos[k..][1..] == tdos[k + 1..];
    }
  }

  /** The dispatch of decoded ops, the walker's results given. */
  method Serve(session: Session, cmds: seq<Command>, tdos: seq<Bits>)
    requires session.Valid() && Decoded(cmds) && |tdos| == |Calls(cmds)|
    modifies session, session.encoder
    ensures session.Valid() && session.events == old(session.events) + EventsOf(cmds, tdos)
  {
    var i, k := 0, 0;
    assert cmds[0..] == cmds && tdos[0..] == tdos;
    while i < |cmds|
      invariant 0 <= i <= |cmds| && 0 <= k <= |tdos| && session.Valid()
      invariant |tdos[k..]| == |Calls(cmds[i..])|
      invariant old(session.events) + EventsOf(cmds, tdos) == session.events + EventsOf(cmds[i..], tdos[k..])
    {
      var k' := if cmds[i].Shift? then k + 1 else k;
      EventsCons(cmds, tdos, i, k, k');
      Assoc(session.events, Adds(cmds[i], At(tdos, k)), EventsOf(cmds[i + 1..], tdos[k'..]));
      Dispatch(session, cmds[i], At(tdos, k));
      i, k := i + 1, k';
    }
    assert cmds[i..] == [] && session.events + [] == session.events;
  }

  method Dispatch(session: Session, cmd: Command, tdo: Bits)
    requires session.Valid() && (cmd.Capture? ==> cmd.w.duration > 0)
    modifies session, session.encoder
    ensures session.Valid() && session.events == old(session.events) + Adds(cmd, tdo)
  {
    match cmd {
      case Capture(w) => session.PushTdoCapture(w);
      case ClearFifo => session.ResetTdoFifo();
      case Shift(_) => var _, _ := session.DoShift(tdo);
    }
  }

  // ----- Through the proxy ------------------------------------------------------------------

  lemma {:induction false} CallsCons(cmds: seq<Command>)
    requires cmds != []
    ensures if cmds[0].Shift? then Calls(cmds) != [] && Calls(cmds)[0] == cmds[0].bits && Calls(cmds)[1..] == Calls(cmds[1..])
            else Calls(cmds) == Calls(cmds[1..])
  {}

  /** Through walker and encoder a session goes through what it would go through
      on the TAP. */
  lemma {:induction false} ProxyEvents(dev: X.Device, hist: seq<T.Event>, l: E.Label, s: T.State, r: J.Rest, w: W.Walk,
                                       cmds: seq<Command>, batches: seq<seq<seq<J.Op>>>, tdos: seq<Bits>)
    requires R.RestsAt(l, s, r) && P.InSync(r, w) && w.seg == [] && w.run == 0
    requires S.Session(dev, hist, l, s, w, Calls(cmds), batches, tdos)
    ensures EventsOf(cmds, tdos) == PeerEvents(dev, hist + P.Owed(r, w), P.TapOf(w), cmds)
    decreases |cmds|
  {
    if cmds != [] {
      CallsCons(cmds);
      if cmds[0].Shift? {
        var bits := cmds[0].bits;
        var r' := J.AfterAll(r, W.CallOps(w, bits));
        X.CallReadsTrueTdo(dev, hist, l, s, r, w, bits, batches[0]);
        S.CallLeaves(hist, l, s, r, w, bits, batches[0], r');
        var enc := E.EncodeAll(l, batches[0], 0).value;
        ProxyEvents(dev, hist + T.Trace(s, enc.wire), enc.at, T.Walk(s, enc.wire), r', W.Call(w, bits),
                    cmds[1..], batches[1..], tdos[1..]);
      } else {
        ProxyEvents(dev, hist, l, s, r, w, cmds[1..], batches, tdos);
      }
    }
  }

  // ----- Where the windows lie ------------------------------------------------------------------

  /** The windows asked for, placed in the peer's own stream of TCKs: `now` were
      clocked before, `ps` are the windows placed so far. */
  function Placements(cmds: seq<Command>, now: nat, ps: seq<Placement>): seq<Placement>
    decreases |cmds|
  {
    if cmds == [] then ps
    else match cmds[0]
      case Capture(w) => Placements(cmds[1..], now, ps + [Placement(if now < LastEnd(ps) then LastEnd(ps) else now, w)])
      case ClearFifo => Placements(cmds[1..], now, CutOff(ps, now))
      case Shift(bits) => Placements(cmds[1..], now + |bits|, ps)
  }

  lemma {:induction false} AfterTcks(es: seq<Event>, tdo: Bits, all: seq<Event>)
    requires all == es + Tcks(tdo)
    ensures Schedule(all) == Schedule(es) && Tdo(all) == Tdo(es) + tdo
    decreases |tdo|
  {
    if tdo == [] {
      assert all == es && Tdo(es) + [] == Tdo(es);
    } else {
      var n := |tdo| - 1;
      var before := es + Tcks(tdo[..n]);
      assert all[..|all| - 1] == before && all[|all| - 1] == Tck(tdo[n]);
      AfterTcks(es, tdo[..n], before);
      Assoc(Tdo(es), tdo[..n], [tdo[n]]);
      assert tdo[..n] + [tdo[n]] == tdo;
    }
  }

  lemma {:induction false} AfterCommand(es: seq<Event>, e: Event)
    requires !e.Tck?
    ensures Tdo(es + [e]) == Tdo(es)
    ensures e.ResetFifo? ==> Schedule(es + [e]) == CutOff(Schedule(es), |Tdo(es)|)
    ensures e.Push? ==> var ps, now := Schedule(es), |Tdo(es)|;
      Schedule(es + [e]) == ps + [Placement(if now < LastEnd(ps) then LastEnd(ps) else now, e.w)]
  {
    var all := es + [e];
    assert all[..|all| - 1] == es && all[|all| - 1] == e;
    assert Tdo(es) + [] == Tdo(es);
  }

  /** The TCKs of a session return what the peer samples. */
  lemma {:induction false} PeerTdo(dev: X.Device, hist: seq<T.Event>, s: T.State, cmds: seq<Command>, before: seq<Event>,
                                   es: seq<Event>, tdo: Bits)
    requires es == before + PeerEvents(dev, hist, s, cmds) && tdo == Tdo(before) + X.Sampled(dev, hist, s, P.Joined(Calls(cmds)))
    ensures Tdo(es) == tdo
    decreases |cmds|
  {
    if cmds == [] {
      assert es == before && Tdo(before) + [] == Tdo(before);
    } else if cmds[0].Shift? {
      var mid := MidShift(dev, hist, s, cmds, before);
      ShiftTdo(dev, hist, s, cmds, Tdo(before), cmds[0].bits);
      PeerTdo(dev, hist + T.Trace(s, cmds[0].bits), T.Walk(s, cmds[0].bits), cmds[1..], mid, es, tdo);
    } else {
      var mid := MidOther(dev, hist, s, cmds, before);
      CallsCons(cmds);
      PeerTdo(dev, hist, s, cmds[1..], mid, es, tdo);
    }
  }

  /** The schedule of a session is the peer's. */
  lemma {:induction false} PeerSchedule(dev: X.Device, hist: seq<T.Event>, s: T.State, cmds: seq<Command>, before: seq<Event>,
                                        es: seq<Event>, ps: seq<Placement>)
    requires es == before + PeerEvents(dev, hist, s, cmds) && ps == Placements(cmds, |Tdo(before)|, Schedule(before))
    ensures Schedule(es) == ps
    decreases |cmds|
  {
    if cmds == [] {
      assert es == before;
    } else if cmds[0].Shift? {
      var mid := MidShift(dev, hist, s, cmds, before);
      PeerSchedule(dev, hist + T.Trace(s, cmds[0].bits), T.Walk(s, cmds[0].bits), cmds[1..], mid, es, ps);
    } else {
      var mid := MidOther(dev, hist, s, cmds, before);
      PeerSchedule(dev, hist, s, cmds[1..], mid, es, ps);
    }
  }

  lemma {:induction false} MidShift(dev: X.Device, hist: seq<T.Event>, s: T.State, cmds: seq<Command>, before: seq<Event>)
    returns (mid: seq<Event>)
    requires cmds != [] && cmds[0].Shift?
    ensures before + PeerEvents(dev, hist, s, cmds)
         == mid + PeerEvents(dev, hist + T.Trace(s, cmds[0].bits), T.Walk(s, cmds[0].bits), cmds[1..])
    ensures Schedule(mid) == Schedule(before) && Tdo(mid) == Tdo(before) + X.Sampled(dev, hist, s, cmds[0].bits)
  {
    var tdo := X.Sampled(dev, hist, s, cmds[0].bits);
    mid := before + Tcks(tdo);
    AfterTcks(before, tdo, mid);
    Assoc(before, Tcks(tdo), PeerEvents(dev, hist + T.Trace(s, cmds[0].bits), T.Walk(s, cmds[0].bits), cmds[1..]));
  }

  lemma {:induction false} MidOther(dev: X.Device, hist: seq<T.Event>, s: T.State, cmds: seq<Command>, before: seq<Event>)
    returns (mid: seq<Event>)
    requires cmds != [] && !cmds[0].Shift?
    ensures before + PeerEvents(dev, hist, s, cmds) == mid + PeerEvents(dev, hist, s, cmds[1..])
    ensures Tdo(mid) == Tdo(before)
    ensures Placements(cmds, |Tdo(before)|, Schedule(before)) == Placements(cmds[1..], |Tdo(mid)|, Schedule(mid))
  {
    var e := if cmds[0].Capture? then Push(cmds[0].w) else ResetFifo;
    mid := before + [e];
    AfterCommand(before, e);
    Assoc(before, [e], PeerEvents(dev, hist, s, cmds[1..]));
  }

  lemma {:induction false} ShiftTdo(dev: X.Device, hist: seq<T.Event>, s: T.State, cmds: seq<Command>, so: Bits, bits: seq<T.Tck>)
    requires cmds != [] && cmds[0] == Shift(bits)
    ensures so + X.Sampled(dev, hist, s, P.Joined(Calls(cmds)))
         == so + X.Sampled(dev, hist, s, bits)
            + X.Sampled(dev, hist + T.Trace(s, bits), T.Walk(s, bits), P.Joined(Calls(cmds[1..])))
  {
    var rest := P.Joined(Calls(cmds[1..]));
    CallsCons(cmds);
    S.SampledConcat(dev, hist, s, bits, rest);
    Assoc(so, X.Sampled(dev, hist, s, bits), X.Sampled(dev, hist + T.Trace(s, bits), T.Walk(s, bits), rest));
  }

  // ----- The bytes sent -----------------------------------------------------------------------------

  lemma {:induction false} PeerEventsFit(dev: X.Device, hist: seq<T.Event>, s: T.State, cmds: seq<Command>)
    ensures Decoded(cmds) ==> Sane(PeerEvents(dev, hist, s, cmds))
    decreases |cmds|
  {
    if cmds != [] {
      if cmds[0].Shift? {
        PeerEventsFit(dev, hist + T.Trace(s, cmds[0].bits), T.Walk(s, cmds[0].bits), cmds[1..]);
      } else {
        PeerEventsFit(dev, hist, s, cmds[1..]);
      }
    }
  }

  /** The whole path: commands served through walker and encoder, cut and batched in
      any way, on any device. The bytes sent are those of a peer on the TAP; and
      when the queue is not overrun they pack what such a peer samples inside the
      windows it asked for, those it cleared cut short. */
  lemma {:induction false} BytesPackTrueTdo(session: Session, dev: X.Device, cmds: seq<Command>,
                                            batches: seq<seq<seq<J.Op>>>, tdos: seq<Bits>)
    requires session.Valid() && Decoded(cmds) && |tdos| == |Calls(cmds)| && session.events == EventsOf(cmds, tdos)
    requires S.Session(dev, [], E.TLR, T.TestLogicReset, W.START, Calls(cmds), batches, tdos)
    ensures var es := PeerEvents(dev, [], T.TestLogicReset, cmds);
            && Sane(es) && Flat(session.sent) + session.encoder.Held() == Packed([], Replay(es).tokens)
            && (!Overflows(es) ==>
                Replay(es).tokens == Captured(Placements(cmds, 0, []), X.Sampled(dev, [], T.TestLogicReset, P.Joined(Calls(cmds)))))
  {
    var es := PeerEvents(dev, [], T.TestLogicReset, cmds);
    ProxyEvents(dev, [], E.TLR, T.TestLogicReset, J.AtReset, W.START, cmds, batches, tdos);
    assert [] + P.Owed(J.AtReset, W.START) == [];
    PeerEventsFit(dev, [], T.TestLogicReset, cmds);
    var tdo := X.Sampled(dev, [], T.TestLogicReset, P.Joined(Calls(cmds)));
    PeerSchedule(dev, [], T.TestLogicReset, cmds, [], es, Placements(cmds, 0, []));
    PeerTdo(dev, [], T.TestLogicReset, cmds, [], es, tdo);
    if !Overflows(es) {
      SessionCapturesSchedule(es);
    }
  }
}
