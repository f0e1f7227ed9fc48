/** Observers, the lifecycle and failure propagation, along every run of the scheduler. */
module OperationTheorems {
  import opened Options
  import opened Lifecycle
  import opened LifecycleProofs
  import opened Exclusivity
  import opened Scheduler
  import opened SchedulerProofs

  /** What no run takes back: the lifecycle, a final error, a cancellation, what observers were told. */
  ghost predicate Persists(op: Op, after: Op) {
    && after.conditions == op.conditions && op.dependencies <= after.dependencies
    && Rank(op.life) <= Rank(after.life)
    && (op.life == Finished ==> after.ending == op.ending && (after.section == Entered <==> op.section == Entered))
    && (op.cancelled ==> after.cancelled && (after.section == Entered ==> op.section == Entered))
    && Recalls(op.observers, after.observers)
  }

  ghost predicate Recalls(told: map<ObserverId, seq<Event>>, after: map<ObserverId, seq<Event>>) {
    forall ob :: ob in told ==> ob in after && told[ob] <= after[ob]
  }

  lemma RankFinished(life: Life)
    ensures Rank(life) <= 5 && (Rank(life) == 5 <==> life == Finished)
  {
  }

  lemma TellRecalls(told: map<ObserverId, seq<Event>>, event: Event)
    ensures Recalls(told, Tell(told, event))
  {
  }

  /** The events announced by the first job. */
  function Tidings(op: Op): seq<Event>
    requires op.queue != []
  {
    match op.queue[0]
    case StartJob => [if op.cancelled then DidCancel else DidStart]
    case CancelJob => [DidCancel]
    case FinishJob => [DidFinish]
    case _ => []
  }

  lemma StartTells(op: Op)
    ensures Start(op).observers == Tell(op.observers, if op.cancelled then DidCancel else DidStart)
  {
  }

  lemma ConditionTells(op: Op, index: nat, satisfied: bool)
    ensures Leave(op, index, satisfied).observers == op.observers && DidEvaluate(op).observers == op.observers
  {
  }

  lemma JobTells(op: Op)
    requires op.queue != []
    ensures RunFirst(op).observers == if Tidings(op) == [] then op.observers else Tell(op.observers, Tidings(op)[0])
  {
    var rest := op.(queue := op.queue[1..]);
    match op.queue[0]
    case StartJob => StartTells(rest);
    case ConditionJob(index, satisfied) => ConditionTells(rest, index, satisfied);
    case EvaluatedJob => ConditionTells(rest, 0, false);
    case CancelJob =>
    case FinishJob =>
  }

  lemma JobRecalls(op: Op)
    requires op.queue != []
    ensures Recalls(op.observers, RunFirst(op).observers)
  {
    JobTells(op);
    if Tidings(op) != [] {
      TellRecalls(op.observers, Tidings(op)[0]);
    }
  }

  lemma ActRecalls(op: Op, act: Act)
    requires May(op, act)
    ensures Recalls(op.observers, Do(op, act).observers)
  {
    match act
    case RunJob => JobRecalls(op);
    case Attach(_) =>
    case _ => assert Do(op, act).observers == op.observers;
  }

  lemma ActPersists(op: Op, act: Act)
    requires Inv(op) && May(op, act)
    ensures Persists(op, Do(op, act))
  {
    ActEvolves(op, act);
    SetterIncreases(op, act);
    ActRecalls(op, act);
  }

  lemma PersistsItself(op: Op)
    ensures Persists(op, op)
  {
  }

  lemma BuildPersists(op: Op, stage: Stage, more: set<OpId>)
    ensures Persists(op, op.(stage := stage, dependencies := op.dependencies + more))
  {
    PersistsItself(op);
  }

  /** The operation that a step is about, if it was there before. */
  lemma TargetPersists(mode: Mode, s: Sys, step: Step)
    requires SysInv(mode, s) && Enabled(mode, s, step) && !step.Create?
    ensures step.id in Apply(mode, s, step).ops && Persists(s.ops[step.id], Apply(mode, s, step).ops[step.id])
  {
    var op := s.ops[step.id];
    match step
    case Local(_, act) => ActPersists(op, act);
    case Depend(_, dependency) => BuildPersists(op, Fresh, {dependency});
    case Register(_) => BuildPersists(op, Registered, Tails(s.lists, Categories(op.conditions)));
    case Submit(_) => BuildPersists(op, Submitted, {});
    case Release(_) => PersistsItself(op);
  }

  lemma StepElsewhere(mode: Mode, s: Sys, step: Step, id: OpId)
    requires Enabled(mode, s, step) && id in s.ops && (step.id != id || step.Create?)
    ensures id in Apply(mode, s, step).ops && Apply(mode, s, step).ops[id] == s.ops[id]
  {
  }

  lemma StepPersists(mode: Mode, s: Sys, step: Step, id: OpId)
    requires SysInv(mode, s) && Enabled(mode, s, step) && id in s.ops
    ensures id in Apply(mode, s, step).ops && Persists(s.ops[id], Apply(mode, s, step).ops[id])
  {
    if step.id == id && !step.Create? {
      TargetPersists(mode, s, step);
    } else {
      StepElsewhere(mode, s, step, id);
      PersistsItself(s.ops[id]);
    }
  }

  lemma {:induction false} RunPersists(mode: Mode, s: Sys, steps: seq<Step>, id: OpId)
    requires SysInv(mode, s) && Legal(mode, s, steps) && id in s.ops
    ensures id in Exec(mode, s, steps).ops && Persists(s.ops[id], Exec(mode, s, steps).ops[id])
    decreases |steps|
  {
    if steps != [] {
      var next := Apply(mode, s, steps[0]);
      StepPersists(mode, s, steps[0], id);
      StepKeepsInv(mode, s, steps[0]);
      RunPersists(mode, next, steps[1..], id);
      RankFinished(s.ops[id].life);
      RankFinished(next.ops[id].life);
    }
  }

  /** The assertion in the `state` setter holds at every assignment of every run. */
  lemma StateOnlyIncreases(mode: Mode, s: Sys, id: OpId, act: Act)
    requires Reachable(mode, s) && Enabled(mode, s, Local(id, act)) && Assigns(s.ops[id], act).Some?
    ensures Rank(s.ops[id].life) < Rank(Assigns(s.ops[id], act).value)
    ensures Apply(mode, s, Local(id, act)).ops[id].life == Assigns(s.ops[id], act).value
  {
    ReachableInv(mode, s);
    SetterIncreases(s.ops[id], act);
  }

  /** What an observer has been told is cut from one of the three histories exactly when it was
      attached before `_start` ran or the end has not been announced. */
  lemma ObserversSeeProperHistories(mode: Mode, s: Sys, id: OpId, ob: ObserverId)
    requires Reachable(mode, s) && id in s.ops && ob in s.ops[id].observers
    ensures Proper(s.ops[id].observers[ob]) <==> ob in s.ops[id].early || !s.ops[id].closed
    ensures ob !in s.ops[id].early ==> DidStart !in s.ops[id].observers[ob] && DidCancel !in s.ops[id].observers[ob]
  {
    ReachableInv(mode, s);
    assert Inv(s.ops[id]);
    ObserverHistory(s.ops[id], ob);
  }

  /** An operation without conditions or dependencies that a queue has been given. */
  lemma SubmitAlone(mode: Mode) returns (s: Sys)
    ensures Reachable(mode, s) && 0 in s.ops && s.ops[0] == NewOp([], {}).(stage := Submitted)
  {
    ReachableInitial(mode);
    ReachableStep(mode, INITIAL, Create(0, []));
    s := Apply(mode, INITIAL, Create(0, []));
    ReachableStep(mode, s, Register(0));
    s := Apply(mode, s, Register(0));
    assert s.ops[0].dependencies == {};
    ReachableStep(mode, s, Submit(0));
    s := Apply(mode, s, Submit(0));
  }

  lemma MoveAlone(mode: Mode, s: Sys, act: Act, op: Op) returns (t: Sys)
    requires Reachable(mode, s) && 0 in s.ops && s.ops[0].dependencies == {} && s.ops[0].stage == Submitted
    requires !act.CheckReadiness? && May(s.ops[0], act) && Do(s.ops[0], act) == op
    ensures Reachable(mode, t) && 0 in t.ops && t.ops[0] == op
  {
    ReachableStep(mode, s, Local(0, act));
    t := Apply(mode, s, Local(0, act));
  }

  lemma RefusedAlone(mode: Mode) returns (s: Sys)
    ensures Reachable(mode, s) && 0 in s.ops
    ensures s.ops[0] == NewOp([], {}).(stage := Submitted, cancelled := true, startRequested := true,
                                       section := Refused, cancelTold := true)
  {
    s := SubmitAlone(mode);
    var cancelled := s.ops[0].(cancelled := true);
    s := MoveAlone(mode, s, Cancel, cancelled);
    var requested := cancelled.(startRequested := true, queue := [StartJob]);
    s := MoveAlone(mode, s, RequestStart, requested);
    assert requested.queue[1..] == [] && Tell(map[], DidCancel) == map[];
    s := MoveAlone(mode, s, RunJob, requested.(queue := [], section := Refused, cancelTold := true));
  }

  lemma TellOne(event: Event)
    ensures Tell(map[0 := []], event) == map[0 := [event]]
  {
    var told: map<ObserverId, seq<Event>> := map[0 := []];
    assert told[0] + [event] == [event];
    assert Tell(told, event).Keys == {0};
  }

  lemma AttachLate(mode: Mode) returns (s: Sys)
    ensures Reachable(mode, s) && 0 in s.ops
    ensures s.ops[0].dependencies == {} && s.ops[0].stage == Submitted && s.ops[0].finishOwed
    ensures s.ops[0].queue == [] && s.ops[0].observers == map[0 := []]
  {
    s := RefusedAlone(mode);
    var watched := s.ops[0].(observers := map[0 := []]);
    s := MoveAlone(mode, s, Attach(0), watched);
    var finished := watched.(life := Finished, ending := Ending(Some(CancelledError), true), finishOwed := true, section := Declined);
    s := MoveAlone(mode, s, RefusalFinish, finished);
  }

  /** The exception exists in every mode: an observer attached between the refusal and the end of the
      operation is told of the end and of nothing else. */
  lemma LateObserverSeesOnlyTheEnd(mode: Mode) returns (s: Sys)
    ensures Reachable(mode, s) && 0 in s.ops && 0 in s.ops[0].observers
    ensures s.ops[0].observers[0] == [DidFinish] && !Proper(s.ops[0].observers[0])
  {
    s := AttachLate(mode);
    var posted := s.ops[0].(finishOwed := false, queue := [FinishJob]);
    s := MoveAlone(mode, s, PostFinish, posted);
    TellOne(DidFinish);
    assert posted.queue[1..] == [];
    s := MoveAlone(mode, s, RunJob, posted.(queue := [], observers := map[0 := [DidFinish]], closed := true));
    OnlyTheEndImproper();
  }

  /** An operation cancelled before `_start` ran never runs `main` and never reports a start. */
  lemma CancelledNeverRuns(mode: Mode, s: Sys, steps: seq<Step>, id: OpId)
    requires Reachable(mode, s) && Legal(mode, s, steps)
    requires id in s.ops && s.ops[id].cancelled && s.ops[id].section == NotStarted
    ensures var t := Exec(mode, s, steps);
            id in t.ops && t.ops[id].section != Entered &&
            forall ob :: ob in t.ops[id].observers ==> DidStart !in t.ops[id].observers[ob]
  {
    ReachableInv(mode, s);
    RunPersists(mode, s, steps, id);
    RunKeepsInv(mode, s, steps);
    var op := Exec(mode, s, steps).ops[id];
    assert Inv(op);
    forall ob | ob in op.observers
      ensures DidStart !in op.observers[ob]
    {
      ObserverHistory(op, ob);
    }
  }

  // ----- failure propagation

  /** Each operation depends on the one before it and demands that its dependencies did not fail. */
  ghost predicate Chain(ops: Ops, chain: seq<OpId>) {
    && (forall i :: 0 <= i < |chain| ==> chain[i] in ops)
    && (forall i :: 0 < i < |chain| ==> Linked(ops, chain[i - 1], chain[i]))
  }

  ghost predicate Linked(ops: Ops, first: OpId, second: OpId)
    requires second in ops
  {
    first in ops[second].dependencies && NoFailedDependencies(false) in ops[second].conditions
  }

  /** An operation with the condition runs `main` only after all its dependencies ended cleanly. */
  lemma RunsAfterCleanDependencies(ops: Ops, id: OpId)
    requires OpsInv(ops) && KnownInv(ops) && id in ops && ops[id].section == Entered
    requires NoFailedDependencies(false) in ops[id].conditions
    ensures CleanDependencies(ops, id)
  {
    var op := ops[id];
    assert Inv(op);
    var i :| 0 <= i < |op.conditions| && op.conditions[i] == NoFailedDependencies(false);
    assert op.results[i];
  }

  lemma {:induction false} ChainRunsCleanly(ops: Ops, chain: seq<OpId>, i: nat, j: nat)
    requires OpsInv(ops) && KnownInv(ops) && Chain(ops, chain) && i < j < |chain|
    requires ops[chain[j]].section == Entered
    ensures Clean(ops[chain[i]])
    decreases j
  {
    assert Linked(ops, chain[j - 1], chain[j]);
    RunsAfterCleanDependencies(ops, chain[j]);
    if i < j - 1 {
      ChainRunsCleanly(ops, chain, i, j - 1);
    }
  }

  lemma ChainPersists(mode: Mode, s: Sys, steps: seq<Step>, chain: seq<OpId>)
    requires SysInv(mode, s) && Legal(mode, s, steps) && Chain(s.ops, chain)
    ensures Chain(Exec(mode, s, steps).ops, chain)
  {
    var t := Exec(mode, s, steps);
    forall i | 0 <= i < |chain|
      ensures chain[i] in t.ops && Persists(s.ops[chain[i]], t.ops[chain[i]])
    {
      RunPersists(mode, s, steps, chain[i]);
    }
    forall i | 0 < i < |chain|
      ensures Linked(t.ops, chain[i - 1], chain[i])
    {
      assert Linked(s.ops, chain[i - 1], chain[i]);
    }
  }

  lemma FinishedUnrun(op: Op)
    requires Inv(op) && op.life == Finished && op.section != Entered
    ensures op.cancelled
  {
  }

  /** Once one operation of a chain has failed, no later one ever runs `main`; each that finishes
      does so cancelled. */
  lemma FailureStopsChain(mode: Mode, s: Sys, steps: seq<Step>, chain: seq<OpId>, i: nat, j: nat)
    requires Reachable(mode, s) && Legal(mode, s, steps) && Chain(s.ops, chain) && i < j < |chain|
    requires s.ops[chain[i]].life == Finished && !Clean(s.ops[chain[i]])
    ensures var t := Exec(mode, s, steps);
            chain[j] in t.ops && t.ops[chain[j]].section != Entered &&
            (t.ops[chain[j]].life == Finished ==> t.ops[chain[j]].cancelled)
  {
    ReachableInv(mode, s);
    RunKeepsInv(mode, s, steps);
    ChainPersists(mode, s, steps, chain);
    RunPersists(mode, s, steps, chain[i]);
    var t := Exec(mode, s, steps);
    RankFinished(t.ops[chain[i]].life);
    if t.ops[chain[j]].section == Entered {
      ChainRunsCleanly(t.ops, chain, i, j);
    }
    if t.ops[chain[j]].life == Finished {
      FinishedUnrun(t.ops[chain[j]]);
    }
  }

  // ----- a dependency cancelled at any time, even after its end

  /** The condition has not been asked yet, or has refused. */
  ghost predicate NotPassed(op: Op) {
    op.known == [] ||
    exists i :: 0 <= i < |op.known| == |op.conditions| && op.conditions[i] == NoFailedDependencies(false) && op.known[i] == Some(false)
  }

  ghost predicate Doomed(ops: Ops, first: OpId, second: OpId) {
    first in ops && second in ops && ops[first].cancelled && Linked(ops, first, second) && NotPassed(ops[second])
  }

  /** A cancelled dependency makes the condition refuse. */
  lemma CancelledRefused(ops: Ops, first: OpId, second: OpId, known: seq<Option<bool>>)
    requires Doomed(ops, first, second) && Verdicts(ops, second, known)
    ensures NotPassed(ops[second].(known := known))
  {
    var conditions := ops[second].conditions;
    var i :| 0 <= i < |conditions| && conditions[i] == NoFailedDependencies(false);
    assert !DependencyHolds(ops[first], false);
    assert known[i] == Some(false);
  }

  lemma ActKeepsDoomed(mode: Mode, s: Sys, id: OpId, act: Act, first: OpId, second: OpId)
    requires SysInv(mode, s) && Enabled(mode, s, Local(id, act)) && Doomed(s.ops, first, second)
    ensures Doomed(Apply(mode, s, Local(id, act)).ops, first, second)
  {
    ActEvolves(s.ops[id], act);
    ActCauses(s.ops[id], act);
    if id == second && act.CheckReadiness? {
      CancelledRefused(s.ops, first, second, act.known);
    }
  }

  lemma BuildKeepsKnown(mode: Mode, s: Sys, step: Step, id: OpId)
    requires Enabled(mode, s, step) && !step.Local? && id in s.ops
    ensures id in Apply(mode, s, step).ops && Apply(mode, s, step).ops[id].known == s.ops[id].known
  {
  }

  lemma StepKeepsDoomed(mode: Mode, s: Sys, step: Step, first: OpId, second: OpId)
    requires SysInv(mode, s) && Enabled(mode, s, step) && Doomed(s.ops, first, second)
    ensures Doomed(Apply(mode, s, step).ops, first, second)
  {
    if step.Local? {
      ActKeepsDoomed(mode, s, step.id, step.act, first, second);
    } else {
      StepPersists(mode, s, step, first);
      StepPersists(mode, s, step, second);
      BuildKeepsKnown(mode, s, step, second);
    }
  }

  lemma {:induction false} RunKeepsDoomed(mode: Mode, s: Sys, steps: seq<Step>, first: OpId, second: OpId)
    requires SysInv(mode, s) && Legal(mode, s, steps) && Doomed(s.ops, first, second)
    ensures Doomed(Exec(mode, s, steps).ops, first, second)
    decreases |steps|
  {
    if steps != [] {
      StepKeepsDoomed(mode, s, steps[0], first, second);
      StepKeepsInv(mode, s, steps[0]);
      RunKeepsDoomed(mode, Apply(mode, s, steps[0]), steps[1..], first, second);
    }
  }

  lemma DoomedHasNotRun(op: Op)
    requires Inv(op) && NotPassed(op) && op.conditions != []
    ensures op.section != Entered
  {
  }

  /** A dependency cancelled before the condition is asked, though it may have ended without error
      before that, keeps the operation from ever running `main`. */
  lemma CancelledDependencyStops(mode: Mode, s: Sys, steps: seq<Step>, first: OpId, second: OpId)
    requires Reachable(mode, s) && Legal(mode, s, steps) && first in s.ops && second in s.ops
    requires Linked(s.ops, first, second) && s.ops[first].cancelled && s.ops[second].known == []
    ensures var t := Exec(mode, s, steps); second in t.ops && t.ops[second].section != Entered
  {
    ReachableInv(mode, s);
    RunKeepsInv(mode, s, steps);
    RunKeepsDoomed(mode, s, steps, first, second);
    DoomedHasNotRun(Exec(mode, s, steps).ops[second]);
  }

  // ----- the error of an operation that never ran

  /** An operation that ends without having run `main` ends with the cancellation error. */
  ghost predicate EndsCancelled(op: Op) {
    op.life == Finished && op.section != Entered ==> op.ending.error == Some(CancelledError)
  }

  /** Throughout a run, the body of `id` is the only one to finish it besides `_start` itself. */
  ghost predicate BodyFinishes(mode: Mode, s: Sys, steps: seq<Step>, id: OpId)
    requires Legal(mode, s, steps)
    decreases |steps|
  {
    steps != [] ==>
      && (steps[0].Local? && steps[0].id == id && steps[0].act.Finish? ==> s.ops[id].section == Entered)
      && BodyFinishes(mode, Apply(mode, s, steps[0]), steps[1..], id)
  }

  lemma JobEndsCancelled(op: Op)
    requires Inv(op) && op.queue != [] && EndsCancelled(op)
    ensures EndsCancelled(RunFirst(op))
  {
    assert op.queue[0] in op.queue;
    match op.queue[0]
    case StartJob =>
    case ConditionJob(_, _) =>
    case EvaluatedJob =>
    case CancelJob =>
    case FinishJob =>
  }

  lemma ActEndsCancelled(op: Op, act: Act)
    requires Inv(op) && May(op, act) && EndsCancelled(op) && (act.Finish? ==> op.section == Entered)
    ensures EndsCancelled(Do(op, act))
  {
    match act
    case RunJob => JobEndsCancelled(op);
    case Finish(_) =>
    case RefusalFinish =>
    case _ =>
  }

  lemma StepEndsCancelled(mode: Mode, s: Sys, step: Step, id: OpId)
    requires SysInv(mode, s) && Enabled(mode, s, step) && (id in s.ops ==> EndsCancelled(s.ops[id]))
    requires step.Local? && step.id == id && step.act.Finish? ==> s.ops[id].section == Entered
    ensures id in Apply(mode, s, step).ops ==> EndsCancelled(Apply(mode, s, step).ops[id])
  {
    if step.Local? && step.id == id {
      ActEndsCancelled(s.ops[id], step.act);
    } else if id in s.ops && (step.id != id || step.Create?) {
      StepElsewhere(mode, s, step, id);
    }
  }

  lemma {:induction false} RunEndsCancelled(mode: Mode, s: Sys, steps: seq<Step>, id: OpId)
    requires SysInv(mode, s) && Legal(mode, s, steps) && BodyFinishes(mode, s, steps, id)
    requires id in s.ops ==> EndsCancelled(s.ops[id])
    ensures id in Exec(mode, s, steps).ops ==> EndsCancelled(Exec(mode, s, steps).ops[id])
    decreases |steps|
  {
    if steps != [] {
      StepEndsCancelled(mode, s, steps[0], id);
      StepKeepsInv(mode, s, steps[0]);
      RunEndsCancelled(mode, Apply(mode, s, steps[0]), steps[1..], id);
    }
  }

  /** Over a whole run: after a failure in a chain, a later operation that has finished did so with the
      cancellation error, and none has run `main`. */
  lemma FailureCancelsChain(mode: Mode, steps: seq<Step>, chain: seq<OpId>, i: nat, j: nat)
    requires Legal(mode, INITIAL, steps) && Chain(Exec(mode, INITIAL, steps).ops, chain) && i < j < |chain|
    requires BodyFinishes(mode, INITIAL, steps, chain[j])
    requires var failed := Exec(mode, INITIAL, steps).ops[chain[i]]; failed.life == Finished && !Clean(failed)
    ensures var op := Exec(mode, INITIAL, steps).ops[chain[j]];
      op.section != Entered && (op.life == Finished ==> op.cancelled && op.ending.error == Some(CancelledError))
  {
    var t := Exec(mode, INITIAL, steps);
    ReachableInitial(mode);
    ReachableInv(mode, INITIAL);
    RunEndsCancelled(mode, INITIAL, steps, chain[j]);
    assert Reachable(mode, t);
    assert Legal(mode, t, []) && Exec(mode, t, []) == t;
    FailureStopsChain(mode, t, [], chain, i, j);
  }
}
