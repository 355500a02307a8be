/** Which ops the walker posts for a stream: no more than the stream has turns. */
module JtagPosts {
  import T = TapController
  import opened JtagOps
  import opened JtagTmsWalker
  import P = JtagProxy

  /** The TCKs that post an op: those that leave Shift, a stretch of idle TCKs or
      Test-Logic-Reset, and those that enter Capture. */
  predicate Turns(s: T.State, next: T.State, idled: bool) {
    || (s.Shift? && !next.Shift?) || (s.RunTestIdle? && !next.RunTestIdle? && idled)
    || (s.TestLogicReset? && !next.TestLogicReset?) || next.Capture?
  }

  /** How many of these a call has, and one more when it ends in the middle of a
      stretch. `idled` and `shifted` tell whether the stretch has begun. */
  function TurnCount(s: T.State, idled: bool, shifted: bool, bits: seq<T.Tck>): nat
    decreases |bits|
  {
    if bits == [] then (if (s.Shift? && shifted) || (s.RunTestIdle? && idled) then 1 else 0)
    else
      var next := T.Next(s, bits[0].tms);
      (if Turns(s, next, idled) then 1 else 0)
      + TurnCount(next, next.RunTestIdle?, s.Shift? && next.Shift?, bits[1..])
  }

  /** Resets last five TCKs, runs and shifts at least one. */
  predicate AsPosted(op: Op) {
    match op
    case Reset(count) => count == 5
    case SwdToJtag => false
    case Run(cycles) => cycles > 0
    case Shift(tdi, postRun) => tdi != [] && postRun == 0
    case _ => true
  }

  lemma {:induction false} CallPosts(w: Walk, bits: seq<T.Tck>)
    ensures |CallOps(w, bits)| == TurnCount(P.TapOf(w), w.run > 0, w.seg != [], bits)
    ensures forall op :: op in CallOps(w, bits) ==> AsPosted(op)
    decreases |bits|
  {
    if bits != [] {
      P.StepFollowsTap(w, bits[0]);
      StepPosts(w, bits[0]);
      StepMarks(w, bits[0]);
      CallPosts(Step(w, bits[0]), bits[1..]);
    }
  }

  lemma {:induction false} StepPosts(w: Walk, t: T.Tck)
    ensures |StepOps(w, t)| == if Turns(P.TapOf(w), T.Next(P.TapOf(w), t.tms), w.run > 0) then 1 else 0
    ensures forall op :: op in StepOps(w, t) ==> AsPosted(op)
  {}

  lemma {:induction false} StepMarks(w: Walk, t: T.Tck)
    ensures Step(w, t).run > 0 <==> T.Next(P.TapOf(w), t.tms).RunTestIdle?
    ensures Step(w, t).seg != [] <==> P.TapOf(w).Shift? && T.Next(P.TapOf(w), t.tms).Shift?
  {}
}
