/** Bit-level JTAG operations and what each of them asks of the TAP,
    independently of how an adapter clocks them out. */
module JtagOps {
  import T = TapController

  datatype Op =
    | Reset(count: int)
    | SwdToJtag
    | Run(cycles: nat)
    | CaptureDr
    | CaptureIr
    | Shift(tdi: seq<bool>, postRun: nat)

  /** Where an op leaves the TAP: in reset, idle, or in the scan column
      entered by the last Capture and not yet left through Update. */
  datatype Rest = AtReset | AtIdle | Open(ir: bool)

  predicate IsCapture(op: Op) { op.CaptureDr? || op.CaptureIr? }

  /** A Shift makes sense only between a Capture and its Update. */
  predicate Legal(r: Rest, op: Op) { op.Shift? ==> r.Open? }

  function After(r: Rest, op: Op): Rest {
    match op
    case Reset(_) => AtReset
    case SwdToJtag => AtReset
    case Run(n) => if r.AtReset? && n == 0 then AtReset else AtIdle
    case CaptureDr => Open(false)
    case CaptureIr => Open(true)
    case Shift(_, n) => if n == 0 then r else AtIdle
  }

  /** Leaving a scan column always updates. */
  function Leave(r: Rest): seq<T.Event> {
    if r.Open? then [T.Updated(r.ir)] else []
  }

  function Shifts(ir: bool, bits: seq<bool>): (e: seq<T.Event>)
    ensures |e| == |bits|
  {
    seq(|bits|, i requires 0 <= i < |bits| => T.Shifted(ir, bits[i]))
  }

  function EnterReset(r: Rest): seq<T.Event> {
    Leave(r) + if r.AtReset? then [] else [T.Reset]
  }

  function Events(r: Rest, op: Op): seq<T.Event>
    requires Legal(r, op)
  {
    match op
    case Reset(_) => EnterReset(r)
    case SwdToJtag =>
      // The 16-bit switch word bounces three times between Run-Test/Idle
      // (two TCKs) and Test-Logic-Reset.
      EnterReset(r) + [T.Idle, T.Idle, T.Reset, T.Idle, T.Idle, T.Reset, T.Idle, T.Idle, T.Reset]
    case Run(n) => Leave(r) + T.Idles(n)
    case CaptureDr => Leave(r) + (if r.AtReset? then [T.Idle] else []) + [T.Captured(false)]
    case CaptureIr => Leave(r) + (if r.AtReset? then [T.Idle] else []) + [T.Captured(true)]
    case Shift(bits, n) =>
      Shifts(r.ir, bits) + if n == 0 then [] else [T.Updated(r.ir)] + T.Idles(n)
  }

  predicate AllLegal(r: Rest, ops: seq<Op>)
    decreases |ops|
  {
    ops == [] || (Legal(r, ops[0]) && AllLegal(After(r, ops[0]), ops[1..]))
  }

  function AfterAll(r: Rest, ops: seq<Op>): Rest
    decreases |ops|
  {
    if ops == [] then r else AfterAll(After(r, ops[0]), ops[1..])
  }

  /** The meaning of a run of ops: the events the TAP must go through. */
  function AllEvents(r: Rest, ops: seq<Op>): seq<T.Event>
    requires AllLegal(r, ops)
    decreases |ops|
  {
    if ops == [] then []
    else Events(r, ops[0]) + AllEvents(After(r, ops[0]), ops[1..])
  }

  lemma {:induction false} AllConcat(r: Rest, a: seq<Op>, b: seq<Op>)
    ensures AllLegal(r, a + b) <==> AllLegal(r, a) && AllLegal(AfterAll(r, a), b)
    ensures AfterAll(r, a + b) == AfterAll(AfterAll(r, a), b)
    ensures AllLegal(r, a + b) ==>
              AllEvents(r, a + b) == AllEvents(r, a) + AllEvents(AfterAll(r, a), b)
    decreases |a|
  {
    if a == [] {
      assert a + b == b;
    } else {
      assert (a + b)[0] == a[0] && (a + b)[1..] == a[1..] + b;
      AllConcat(After(r, a[0]), a[1..], b);
    }
  }
}
