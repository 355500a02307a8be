/** The TAP controller of IEEE Std 1149.1, clause 6.1, and the events it
    exposes to the logic behind it. `ir` tells the two mirrored columns of
    the state diagram apart. */
module TapController {

  datatype State =
    | TestLogicReset
    | RunTestIdle
    | SelectDr
    | SelectIr
    | Capture(ir: bool)
    | Shift(ir: bool)
    | Exit1(ir: bool)
    | Pause(ir: bool)
    | Exit2(ir: bool)
    | Update(ir: bool)

  /** What one TCK does to the device: nothing is observable on the other edges. */
  datatype Event =
    | Reset                          // Test-Logic-Reset is entered
    | Idle                           // a TCK lands in Run-Test/Idle
    | Captured(ir: bool)             // Capture-DR/IR is entered
    | Shifted(ir: bool, tdi: bool)   // a TCK whose pre-edge state is Shift-DR/IR
    | Updated(ir: bool)              // Update-DR/IR is entered

  /** One TCK on the wire. */
  datatype Tck = Tck(tms: bool, tdi: bool)

  function Next(s: State, tms: bool): State {
    match s
    case TestLogicReset => if tms then TestLogicReset else RunTestIdle
    case RunTestIdle => if tms then SelectDr else RunTestIdle
    case SelectDr => if tms then SelectIr else Capture(false)
    case SelectIr => if tms then TestLogicReset else Capture(true)
    case Capture(ir) => if tms then Exit1(ir) else Shift(ir)
    case Shift(ir) => if tms then Exit1(ir) else Shift(ir)
    case Exit1(ir) => if tms then Update(ir) else Pause(ir)
    case Pause(ir) => if tms then Exit2(ir) else Pause(ir)
    case Exit2(ir) => if tms then Update(ir) else Shift(ir)
    case Update(_) => if tms then SelectDr else RunTestIdle
  }

  function EdgeEvents(s: State, t: Tck): seq<Event> {
    var n := Next(s, t.tms);
    if s.Shift? then [Shifted(s.ir, t.tdi)]
    else match n
      case TestLogicReset => if s.TestLogicReset? then [] else [Reset]
      case RunTestIdle => [Idle]
      case Capture(ir) => [Captured(ir)]
      case Update(ir) => [Updated(ir)]
      case _ => []
  }

  function Walk(s: State, w: seq<Tck>): State
    decreases |w|
  {
    if w == [] then s else Walk(Next(s, w[0].tms), w[1..])
  }

  /** The events a device sees when `w` is clocked in from state `s`. */
  function Trace(s: State, w: seq<Tck>): seq<Event>
    decreases |w|
  {
    if w == [] then [] else EdgeEvents(s, w[0]) + Trace(Next(s, w[0].tms), w[1..])
  }

  /** Positions (counted from `base`) of the TCKs whose pre-edge state is Shift. */
  function ShiftPositions(s: State, w: seq<Tck>, base: nat): seq<nat>
    decreases |w|
  {
    if w == [] then []
    else (if s.Shift? then [base] else []) + ShiftPositions(Next(s, w[0].tms), w[1..], base + 1)
  }

  lemma {:induction false} WalkConcat(s: State, a: seq<Tck>, b: seq<Tck>)
    ensures Walk(s, a + b) == Walk(Walk(s, a), b)
    ensures Trace(s, a + b) == Trace(s, a) + Trace(Walk(s, a), b)
    decreases |a|
  {
    if a == [] {
      assert a + b == b;
    } else {
      assert (a + b)[0] == a[0] && (a + b)[1..] == a[1..] + b;
      WalkConcat(Next(s, a[0].tms), a[1..], b);
    }
  }

  lemma {:induction false} ShiftPositionsConcat(s: State, a: seq<Tck>, b: seq<Tck>, base: nat)
    ensures ShiftPositions(s, a + b, base) ==
            ShiftPositions(s, a, base) + ShiftPositions(Walk(s, a), b, base + |a|)
    decreases |a|
  {
    if a == [] {
      assert a + b == b;
    } else {
      assert (a + b)[0] == a[0] && (a + b)[1..] == a[1..] + b;
      ShiftPositionsConcat(Next(s, a[0].tms), a[1..], b, base + 1);
    }
  }

  /** `n` equal TCKs. */
  function Repeat(tms: bool, tdi: bool, n: nat): (w: seq<Tck>)
    ensures |w| == n
  {
    seq(n, _ => Tck(tms, tdi))
  }

  function Idles(n: nat): (e: seq<Event>)
    ensures |e| == n
  {
    seq(n, _ => Idle)
  }

  /** `n` TCKs with TMS low from Test-Logic-Reset, Run-Test/Idle or Update:
      each of them lands in Run-Test/Idle. */
  lemma {:induction false} RunTrace(s: State, n: nat)
    requires s.TestLogicReset? || s.RunTestIdle? || s.Update?
    ensures Trace(s, Repeat(false, false, n)) == Idles(n)
    ensures Walk(s, Repeat(false, false, n)) == if n == 0 then s else RunTestIdle
    decreases n
  {
    if n > 0 {
      var w := Repeat(false, false, n);
      assert w[0] == Tck(false, false) && w[1..] == Repeat(false, false, n - 1);
      RunTrace(RunTestIdle, n - 1);
      LandsIdle(s);
      assert [Idle] + Idles(n - 1) == Idles(n);
    }
  }

  lemma {:induction false} LandsIdle(s: State)
    requires s.TestLogicReset? || s.RunTestIdle? || s.Update?
    ensures Next(s, false) == RunTestIdle && EdgeEvents(s, Tck(false, false)) == [Idle]
  {}

  /** Staying in Test-Logic-Reset is silent. */
  lemma {:induction false} HoldReset(n: nat)
    ensures Trace(TestLogicReset, Repeat(true, false, n)) == []
    ensures Walk(TestLogicReset, Repeat(true, false, n)) == TestLogicReset
  {
    if n > 0 {
      assert Repeat(true, false, n)[1..] == Repeat(true, false, n - 1);
      HoldReset(n - 1);
    }
  }

  lemma {:induction false} OnesStep(s: State, n: nat)
    requires n > 0
    ensures Walk(s, Repeat(true, false, n)) == Walk(Next(s, true), Repeat(true, false, n - 1))
    ensures Trace(s, Repeat(true, false, n)) ==
            EdgeEvents(s, Tck(true, false)) + Trace(Next(s, true), Repeat(true, false, n - 1))
  {
    assert Repeat(true, false, n)[1..] == Repeat(true, false, n - 1);
  }
}
