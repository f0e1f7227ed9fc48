/** Acyclic waiting and its consequence: given earlier-registered dependencies, and conditions and
    bodies that complete, every registered operation finishes. */
module ProgressTheorems {
  import opened Options
  import opened Lifecycle
  import opened LifecycleProofs
  import opened Exclusivity
  import opened Scheduler
  import opened SchedulerProofs

  /** The dependency edges, exclusivity edges included, point to earlier registrations; so the
      graph over registered operations has no cycle. */
  lemma DependenciesAreEarlier(mode: Mode, s: Sys, j: nat, d: OpId)
    requires mode.dependsOnEarlier && Reachable(mode, s)
    requires j < |s.order| && s.order[j] in s.ops && d in s.ops[s.order[j]].dependencies
    ensures exists i :: 0 <= i < j && s.order[i] == d
  {
    ReachableInv(mode, s);
    assert d in s.order[..j];
  }

  /** Sections the system itself owes: everything but new work, cancellation and observers. */
  predicate Owed(op: Op, act: Act) {
    match act
    case CheckReadiness(_) => op.life == Pending && !op.cancelled
    case Cancel => false
    case Attach(_) => false
    case Finish(_) => op.life == Executing
    case _ => true
  }

  predicate Progress(s: Sys, step: Step) {
    match step
    case Submit(id) => id in s.order
    case Local(id, act) => id in s.order && id in s.ops && Owed(s.ops[id], act)
    case _ => false
  }

  // ----- a measure that every progress step decreases

  function Measure(op: Op): nat {
    (match op.stage case Registered => 2 case Submitted => 1 case _ => 0) +
    (if Rank(op.life) < Rank(Evaluating) then 3 * |op.conditions| + 2 else 2 * |op.awaiting| + |op.entered|) +
    (if op.startRequested then 0 else 2) +
    (if op.section in {NotStarted, Refused} then 1 else 0) +
    (if op.life == Finished then 0 else 3) +
    (if op.finishOwed then 2 else 0) +
    |op.queue|
  }

  lemma ConditionJobDecreases(op: Op)
    requires Inv(op) && op.queue != [] && op.queue[0].ConditionJob?
    ensures Measure(RunFirst(op)) < Measure(op)
  {
    assert Due(op.queue[0], op.awaiting, op.entered, op.known);
    assert |op.entered - {op.queue[0].index}| == |op.entered| - 1;
  }

  lemma JobDecreases(op: Op)
    requires Inv(op) && op.queue != []
    ensures Measure(RunFirst(op)) < Measure(op)
  {
    assert op.queue[0] in op.queue;
    match op.queue[0]
    case StartJob =>
    case ConditionJob(_, _) => ConditionJobDecreases(op);
    case EvaluatedJob =>
    case CancelJob =>
    case FinishJob =>
  }

  lemma EvaluationDecreases(op: Op, known: seq<Option<bool>>)
    requires Inv(op) && op.life == Pending && !op.cancelled
    ensures Measure(Evaluate(op, known)) < Measure(op)
  {
    BelowHolds(|op.conditions|);
  }

  lemma FinishDecreases(op: Op, error: Option<Failure>)
    requires Inv(op) && op.life != Finished
    ensures Measure(FinishOp(op, error)) < Measure(op)
  {
    if Rank(op.life) < Rank(Evaluating) {
      assert op.entered == {} && op.awaiting == {};
    }
  }

  lemma ActDecreases(op: Op, act: Act)
    requires Inv(op) && May(op, act) && Owed(op, act)
    ensures Measure(Do(op, act)) < Measure(op)
  {
    match act
    case RunJob => JobDecreases(op);
    case Complete(index, _) => assert |op.awaiting - {index}| == |op.awaiting| - 1;
    case Announce =>
    case CheckReadiness(known) => EvaluationDecreases(op, known);
    case RequestStart =>
    case PostFinish =>
    case Finish(error) => FinishDecreases(op, error);
    case RefusalFinish =>
      if op.life != Finished {
        FinishDecreases(op, Some(CancelledError));
      }
  }

  function Total(ops: Ops, order: seq<OpId>): nat {
    if order == [] then 0
    else (if order[0] in ops then Measure(ops[order[0]]) else 0) + Total(ops, order[1..])
  }

  lemma {:induction false} TotalUnchanged(ops: Ops, order: seq<OpId>, id: OpId, op: Op)
    requires id !in order
    ensures Total(ops[id := op], order) == Total(ops, order)
    decreases |order|
  {
    if order != [] {
      TotalUnchanged(ops, order[1..], id, op);
    }
  }

  lemma {:induction false} TotalDecreases(ops: Ops, order: seq<OpId>, id: OpId, op: Op)
    requires forall i, j :: 0 <= i < j < |order| ==> order[i] != order[j]
    requires id in order && id in ops && Measure(op) < Measure(ops[id])
    ensures Total(ops[id := op], order) < Total(ops, order)
    decreases |order|
  {
    if order[0] == id {
      TotalUnchanged(ops, order[1..], id, op);
    } else {
      TotalDecreases(ops, order[1..], id, op);
    }
  }

  lemma ProgressDecreases(mode: Mode, s: Sys, step: Step)
    requires SysInv(mode, s) && Enabled(mode, s, step) && Progress(s, step)
    ensures Total(Apply(mode, s, step).ops, s.order) < Total(s.ops, s.order)
    ensures Apply(mode, s, step).order == s.order
  {
    var op := s.ops[step.id];
    match step
    case Submit(id) =>
      TotalDecreases(s.ops, s.order, id, op.(stage := Submitted));
    case Local(id, act) =>
      ActDecreases(op, act);
      TotalDecreases(s.ops, s.order, id, Do(op, act));
  }

  ghost predicate ProgressRun(mode: Mode, s: Sys, steps: seq<Step>)
    requires Legal(mode, s, steps)
    decreases |steps|
  {
    steps == [] || (Progress(s, steps[0]) && ProgressRun(mode, Apply(mode, s, steps[0]), steps[1..]))
  }

  /** The system cannot go on by itself for ever. */
  lemma {:induction false} ProgressRunsEnd(mode: Mode, s: Sys, steps: seq<Step>)
    requires SysInv(mode, s) && Legal(mode, s, steps) && ProgressRun(mode, s, steps)
    ensures |steps| <= Total(s.ops, s.order)
    decreases |steps|
  {
    if steps != [] {
      ProgressDecreases(mode, s, steps[0]);
      StepKeepsInv(mode, s, steps[0]);
      ProgressRunsEnd(mode, Apply(mode, s, steps[0]), steps[1..]);
    }
  }

  // ----- no state is stuck

  /** An act an operation with finished dependencies owes until its end has been announced. */
  ghost function NextAct(ops: Ops, id: OpId): Act
    requires id in ops
  {
    var op := ops[id];
    if op.queue != [] then RunJob
    else if op.finishOwed then PostFinish
    else if op.stage == Submitted then Announce
    else if op.section == Refused then RefusalFinish
    else if op.life == Executing then Finish(None)
    else if op.awaiting != {} then
      var index :| index in op.awaiting;
      Complete(index, index < |op.known| && op.known[index] == Some(true))
    else if op.life == Pending && !op.cancelled then
      CheckReadiness(seq(|op.conditions|, i requires 0 <= i < |op.conditions| => Verdict(ops, id, op.conditions[i])))
    else RequestStart
  }

  lemma NextActOwed(ops: Ops, id: OpId)
    requires id in ops && Inv(ops[id]) && ops[id].stage in {Submitted, Announced} && !ops[id].closed
    requires DependenciesFinished(ops, id)
    ensures May(ops[id], NextAct(ops, id)) && Owed(ops[id], NextAct(ops, id))
    ensures NextAct(ops, id).CheckReadiness? ==> Verdicts(ops, id, NextAct(ops, id).known)
    ensures NextAct(ops, id) != Cancel
  {
    var op := ops[id];
    if op.queue == [] && !op.finishOwed && op.awaiting == {} {
      assert forall i :: i in op.entered ==> false;
      assert op.life != Evaluating;
    }
  }

  lemma FirstOpen(s: Sys) returns (j: nat)
    requires exists id :: id in s.order && id in s.ops && !s.ops[id].closed
    ensures j < |s.order| && s.order[j] in s.ops && !s.ops[s.order[j]].closed
    ensures forall i :: 0 <= i < j && s.order[i] in s.ops ==> s.ops[s.order[i]].closed
  {
    var id :| id in s.order && id in s.ops && !s.ops[id].closed;
    j := 0;
    while !(s.order[j] in s.ops && !s.ops[s.order[j]].closed)
      invariant j < |s.order| && id in s.order[j..]
      invariant forall i :: 0 <= i < j && s.order[i] in s.ops ==> s.ops[s.order[i]].closed
      decreases |s.order| - j
    {
      j := j + 1;
    }
  }

  /** While a registered operation has not announced its end, the system owes a step. */
  lemma NeverStuck(mode: Mode, s: Sys) returns (step: Step)
    requires mode.dependsOnEarlier && Reachable(mode, s)
    requires exists id :: id in s.order && id in s.ops && !s.ops[id].closed
    ensures Enabled(mode, s, step) && Progress(s, step)
  {
    ReachableInv(mode, s);
    var j := FirstOpen(s);
    var id := s.order[j];
    forall d | d in s.ops[id].dependencies
      ensures d in s.ops && s.ops[d].life == Finished
    {
      DependenciesAreEarlier(mode, s, j, d);
      ClosedFinished(s.ops, d);
    }
    assert id in s.order;
    if s.ops[id].stage == Registered {
      step := Submit(id);
    } else {
      NextActOwed(s.ops, id);
      step := Local(id, NextAct(s.ops, id));
    }
  }

  lemma ClosedFinished(ops: Ops, id: OpId)
    requires OpsInv(ops) && id in ops && ops[id].closed
    ensures ops[id].life == Finished
  {
    assert Inv(ops[id]);
  }

  ghost predicate AtRest(mode: Mode, s: Sys) {
    forall step :: Enabled(mode, s, step) ==> !Progress(s, step)
  }

  ghost predicate AllFinished(s: Sys) {
    forall id :: id in s.order ==> id in s.ops && s.ops[id].life == Finished && s.ops[id].closed
  }

  /** Whatever the system does by itself, it comes to rest, and then every registered operation has
      finished and told its observers so. */
  lemma EverythingFinishes(mode: Mode, s: Sys, steps: seq<Step>)
    requires mode.dependsOnEarlier && Reachable(mode, s) && Legal(mode, s, steps) && ProgressRun(mode, s, steps)
    ensures |steps| <= Total(s.ops, s.order)
    ensures AtRest(mode, Exec(mode, s, steps)) ==> AllFinished(Exec(mode, s, steps))
  {
    ReachableInv(mode, s);
    ProgressRunsEnd(mode, s, steps);
    var t := Exec(mode, s, steps);
    ReachableRun(mode, s, steps);
    ReachableInv(mode, t);
    if AtRest(mode, t) {
      if exists id :: id in t.order && id in t.ops && !t.ops[id].closed {
        var step := NeverStuck(mode, t);
        assert false;
      }
      forall id | id in t.order
        ensures id in t.ops && t.ops[id].life == Finished && t.ops[id].closed
      {
        ClosedFinished(t.ops, id);
      }
    }
  }
}
