/** The hand-off between posting ops and the flush tasks that process them. */
module Batcher {
  import opened Wrappers

  /** A flush task: waiting for the lock, inside `flush_ops` with its batch, or over. */
  datatype Phase<Op> = Waiting | Flushing(batch: seq<Op>) | Over

  /** The batcher, its flush tasks, and the history of ops. */
  datatype State<Op> = State(pending: seq<Op>, flushTask: Option<nat>, tasks: map<nat, Phase<Op>>, lock: Option<nat>,
                             nextTask: nat, posted: seq<Op>, flushed: seq<seq<Op>>)

  /** Atomic steps: between two of them a task may be switched. */
  datatype Step<Op> = Post(op: Op) | Begin(task: nat) | Finish(task: nat)

  function Init<Op>(): State<Op> { State([], None, map[], None, 0, [], []) }

  predicate Enabled<Op>(s: State<Op>, step: Step<Op>) {
    match step
    case Post(_) => true
    case Begin(t) => t in s.tasks && s.tasks[t].Waiting? && s.lock.None?
    case Finish(t) => t in s.tasks && s.tasks[t].Flushing? && s.lock == Some(t)
  }

  /** A task is started unless one is under way. */
  function EnsureFlush<Op>(s: State<Op>): State<Op> {
    if s.flushTask.None? || (s.flushTask.value in s.tasks && s.tasks[s.flushTask.value].Over?)
    then s.(flushTask := Some(s.nextTask), tasks := s.tasks[s.nextTask := Waiting], nextTask := s.nextTask + 1)
    else s
  }

  function Apply<Op>(s: State<Op>, step: Step<Op>): State<Op> {
    match step
    case Post(op) => EnsureFlush(s.(pending := s.pending + [op], posted := s.posted + [op]))
    case Begin(t) =>
      s.(pending := [], flushTask := None, tasks := s.tasks[t := Flushing(s.pending)], lock := Some(t),
         flushed := s.flushed + [s.pending])
    case Finish(t) => s.(tasks := s.tasks[t := Over], lock := None)
  }

  function Concat<Op>(batches: seq<seq<Op>>): seq<Op> {
    if batches == [] then [] else Concat(batches[..|batches| - 1]) + batches[|batches| - 1]
  }

  lemma {:induction false} ConcatSnoc<Op>(batches: seq<seq<Op>>, b: seq<Op>)
    ensures Concat(batches + [b]) == Concat(batches) + b
  {
    assert (batches + [b])[..|batches|] == batches;
  }

  /** What every interleaving keeps. */
  ghost predicate Inv<Op(!new)>(s: State<Op>) {
    // Every op is in one batch, or still pending; in order.
    && s.posted == Concat(s.flushed) + s.pending
    // The lock is held by the one task inside flush_ops.
    && (forall t :: t in s.tasks && s.tasks[t].Flushing? <==> s.lock == Some(t))
    // The one waiting task is the one the batcher knows of.
    && (forall t :: t in s.tasks && s.tasks[t].Waiting? <==> s.flushTask == Some(t))
    && (forall t :: t in s.tasks ==> t < s.nextTask)
    && (s.pending != [] ==> s.flushTask.Some?)
  }

  lemma {:induction false} StepKeepsInv<Op(!new)>(s: State<Op>, step: Step<Op>)
    requires Inv(s) && Enabled(s, step)
    ensures Inv(Apply(s, step))
  {
    match step
    case Post(op) => PostKeepsInv(s, op);
    case Begin(t) =>
      ConcatSnoc(s.flushed, s.pending);
      assert Concat(s.flushed + [s.pending]) + [] == Concat(s.flushed + [s.pending]);
    case Finish(t) =>
  }

  lemma {:induction false} PostKeepsInv<Op(!new)>(s: State<Op>, op: Op)
    requires Inv(s)
    ensures Inv(Apply(s, Post(op)))
  {
    assert Concat(s.flushed) + s.pending + [op] == Concat(s.flushed) + (s.pending + [op]);
    if s.flushTask.Some? {
      assert s.flushTask.value in s.tasks && s.tasks[s.flushTask.value].Waiting?;
    }
  }

  predicate Legal<Op>(s: State<Op>, steps: seq<Step<Op>>)
    decreases |steps|
  {
    steps == [] || (Enabled(s, steps[0]) && Legal(Apply(s, steps[0]), steps[1..]))
  }

  function Run<Op>(s: State<Op>, steps: seq<Step<Op>>): State<Op>
    decreases |steps|
  {
    if steps == [] then s else Run(Apply(s, steps[0]), steps[1..])
  }

  function PostedBy<Op>(steps: seq<Step<Op>>): seq<Op> {
    if steps == [] then []
    else PostedNow(steps[0]) + PostedBy(steps[1..])
  }

  lemma {:induction false} RunKeepsInv<Op(!new)>(s: State<Op>, steps: seq<Step<Op>>)
    requires Inv(s) && Legal(s, steps)
    ensures Inv(Run(s, steps))
    decreases |steps|
  {
    if steps != [] {
      StepKeepsInv(s, steps[0]);
      RunKeepsInv(Apply(s, steps[0]), steps[1..]);
    }
  }

  function PostedNow<Op>(step: Step<Op>): seq<Op> { if step.Post? then [step.op] else [] }

  lemma {:induction false} StepPosts<Op>(s: State<Op>, step: Step<Op>)
    ensures Apply(s, step).posted == s.posted + PostedNow(step)
  {}

  lemma {:induction false} RunPosts<Op>(s: State<Op>, steps: seq<Step<Op>>)
    ensures Run(s, steps).posted == s.posted + PostedBy(steps)
    decreases |steps|
  {
    if steps != [] {
      StepPosts(s, steps[0]);
      RunPosts(Apply(s, steps[0]), steps[1..]);
      assert s.posted + PostedNow(steps[0]) + PostedBy(steps[1..]) == s.posted + (PostedNow(steps[0]) + PostedBy(steps[1..]));
    }
  }

  /** In every interleaving each op reaches flush_ops at most once and in post
      order, with nothing left out before the pending ones; flushes never
      overlap; and pending ops always have a task that will drain them. */
  lemma {:induction false} EveryRun<Op(!new)>(steps: seq<Step<Op>>)
    requires Legal(Init(), steps)
    ensures var s := Run(Init(), steps);
            && PostedBy(steps) == Concat(s.flushed) + s.pending
            && (forall t, u :: t in s.tasks && u in s.tasks && s.tasks[t].Flushing? && s.tasks[u].Flushing? ==> t == u)
            && (s.pending != [] ==> s.flushTask.Some? && s.flushTask.value in s.tasks && s.tasks[s.flushTask.value].Waiting?)
  {
    var s0 := Init<Op>();
    assert Concat(s0.flushed) + s0.pending == [];
    RunKeepsInv(s0, steps);
    RunPosts(s0, steps);
    assert [] + PostedBy(steps) == PostedBy(steps);
    var s := Run(s0, steps);
    if s.pending != [] {
      assert s.flushTask.value in s.tasks;
    }
  }

  /** From any reachable state the pending ops are two steps from flush_ops: the
      task in the way finishes, the waiting one begins. */
  lemma {:induction false} Drains<Op(!new)>(s: State<Op>) returns (steps: seq<Step<Op>>)
    requires Inv(s) && s.pending != []
    ensures |steps| <= 2 && Legal(s, steps) && PostedBy(steps) == []
    ensures Run(s, steps).pending == [] && Concat(Run(s, steps).flushed) == s.posted
  {
    var t := s.flushTask.value;
    assert t in s.tasks && s.tasks[t] == Waiting;
    if s.lock.None? {
      steps := [Begin(t)];
      BeginDrains(s, t);
    } else {
      var u := s.lock.value;
      assert u in s.tasks && s.tasks[u].Flushing?;
      steps := [Finish(u), Begin(t)];
      assert steps[1..] == [Begin(t)];
      BeginDrains(Apply(s, Finish(u)), t);
    }
  }

  lemma {:induction false} BeginDrains<Op(!new)>(s: State<Op>, t: nat)
    requires s.posted == Concat(s.flushed) + s.pending && Enabled(s, Begin(t))
    ensures Legal(s, [Begin(t)]) && PostedBy<Op>([Begin(t)]) == []
    ensures Run(s, [Begin(t)]).pending == [] && Concat(Run(s, [Begin(t)]).flushed) == s.posted
  {
    var steps: seq<Step<Op>> := [Begin(t)];
    assert steps[1..] == [];
    ConcatSnoc(s.flushed, s.pending);
  }

  /** And once nothing is under way, everything posted has been flushed. */
  lemma {:induction false} QuietMeansFlushed<Op(!new)>(s: State<Op>)
    requires Inv(s) && forall t :: t in s.tasks ==> s.tasks[t].Over?
    ensures s.pending == [] && Concat(s.flushed) == s.posted
  {
    assert forall t :: s.flushTask == Some(t) ==> t in s.tasks;
    assert s.pending == [] ==> Concat(s.flushed) + s.pending == Concat(s.flushed);
  }

  /** The batcher object; the event loop owns flush tasks and lock. */
  class Batcher<Op(!new)> {
    var pending: seq<Op>
    var flushTask: Option<nat>
    var tasks: map<nat, Phase<Op>>
    var lock: Option<nat>
    var nextTask: nat
    ghost var posted: seq<Op>
    ghost var flushed: seq<seq<Op>>

    ghost function Abs(): State<Op>
      reads this
    {
      State(pending, flushTask, tasks, lock, nextTask, posted, flushed)
    }

    constructor ()
      ensures Abs() == Init()
    {
      pending, flushTask, tasks, lock, nextTask, posted, flushed := [], None, map[], None, 0, [], [];
    }

    method PostOp(op: Op)
      requires Inv(Abs())
      modifies this
      ensures Abs() == Apply(old(Abs()), Post(op)) && Inv(Abs())
    {
      PostKeepsInv(Abs(), op);
      pending, posted := pending + [op], posted + [op];
      if flushTask.None? || (flushTask.value in tasks && tasks[flushTask.value].Over?) {
        flushTask, tasks, nextTask := Some(nextTask), tasks[nextTask := Waiting], nextTask + 1;
      }
    }

    /** A flush task gets the lock and takes the pending ops, up to `flush_ops`. */
    method BeginFlush(t: nat) returns (batch: seq<Op>)
      requires Inv(Abs()) && Enabled(Abs(), Begin(t))
      modifies this
      ensures Abs() == Apply(old(Abs()), Begin(t)) && Inv(Abs()) && batch == old(pending)
    {
      StepKeepsInv(Abs(), Begin(t));
      lock := Some(t);
      batch, pending := pending, [];
      flushTask := None;
      tasks, flushed := tasks[t := Flushing(batch)], flushed + [batch];
    }

    /** `flush_ops` returned or raised. */
    method FinishFlush(t: nat)
      requires Inv(Abs()) && Enabled(Abs(), Finish(t))
      modifies this
      ensures Abs() == Apply(old(Abs()), Finish(t)) && Inv(Abs())
    {
      StepKeepsInv(Abs(), Finish(t));
      tasks, lock := tasks[t := Over], None;
    }
  }
}
