/** When an operation runs its body: exactly when every condition is met and nobody cancels it. */
module ConditionTheorems {
  import opened Options
  import opened Lifecycle
  import opened LifecycleProofs
  import opened Scheduler
  import opened SchedulerProofs
  import opened OperationTheorems
  import opened ProgressTheorems

  /** What a condition demands of the dependencies; a block condition demands nothing of them. */
  ghost predicate Passes(ops: Ops, id: OpId, condition: Condition)
    requires id in ops
  {
    match condition
    case MutuallyExclusive(_) => true
    case NoFailedDependencies(ignore) =>
      forall d :: d in ops[id].dependencies ==>
        && d in ops
        && (ops[d].ending.error.Some? ==> !ops[d].ending.error.value.OtherError?)
        && (ignore || (!ops[d].cancelled && ops[d].ending.error != Some(CancelledError)))
    case NoCancelledDependencies => forall d :: d in ops[id].dependencies ==> d in ops && !ops[d].cancelled
    case BlockCondition => true
  }

  ghost predicate AllPass(ops: Ops, id: OpId)
    requires id in ops
  {
    forall condition :: condition in ops[id].conditions ==> Passes(ops, id, condition)
  }

  /** A condition answers at once unless it is a block condition, and then exactly whether it passes. */
  lemma VerdictExactly(ops: Ops, id: OpId, condition: Condition)
    requires id in ops
    ensures Verdict(ops, id, condition).None? <==> condition.BlockCondition?
    ensures Verdict(ops, id, condition).Some? ==> (Verdict(ops, id, condition).value <==> Passes(ops, id, condition))
  {
    if condition.NoFailedDependencies? {
      forall d | d in ops[id].dependencies && d in ops
        ensures DependencyHolds(ops[d], condition.ignoreCancellations) <==>
          && (ops[d].ending.error.Some? ==> !ops[d].ending.error.value.OtherError?)
          && (condition.ignoreCancellations || (!ops[d].cancelled && ops[d].ending.error != Some(CancelledError)))
      {
        if ops[d].ending.error.Some? {
          assert ops[d].ending.error.value.OtherError? || ops[d].ending.error == Some(CancelledError);
        }
      }
    }
  }

  // ----- nothing objects

  /** Not cancelled, and no condition has said no so far. */
  ghost predicate Favoured(op: Op) {
    && !op.cancelled
    && (forall i :: 0 <= i < |op.known| ==> op.known[i] != Some(false))
    && (forall job :: job in op.queue && job.ConditionJob? ==> job.satisfied)
    && (forall i :: 0 <= i < |op.results| && i !in op.entered ==> op.results[i])
  }

  /** A condition has said no. */
  ghost predicate Vetoed(op: Op) {
    || (exists job :: job in op.queue && job.ConditionJob? && !job.satisfied)
    || (exists i :: 0 <= i < |op.results| && i !in op.entered && !op.results[i])
  }

  lemma UnaskedIsFavoured(op: Op)
    requires Inv(op) && op.known == [] && !op.cancelled
    ensures Favoured(op)
  {
  }

  lemma JobFavours(op: Op)
    requires Inv(op) && op.queue != [] && Favoured(op)
    ensures Favoured(RunFirst(op))
  {
    assert op.queue[0] in op.queue;
    JobQueue(op);
    match op.queue[0]
    case StartJob =>
    case ConditionJob(index, satisfied) => assert Due(op.queue[0], op.awaiting, op.entered, op.known);
    case EvaluatedJob => assert AllTrue(op.results);
    case CancelJob =>
    case FinishJob =>
  }

  lemma ActFavours(op: Op, act: Act)
    requires Inv(op) && May(op, act) && Favoured(op) && !act.Cancel?
    requires act.Complete? ==> act.satisfied
    requires act.CheckReadiness? && op.life == Pending ==> forall i :: 0 <= i < |act.known| ==> act.known[i] != Some(false)
    ensures Favoured(Do(op, act))
  {
    if act == RunJob {
      JobFavours(op);
    } else {
      ActQueue(op, act);
      BelowHolds(|op.conditions|);
    }
  }

  lemma StoredNoStays(op: Op, i: nat)
    requires Inv(op) && op.queue != [] && i < |op.results| && i !in op.entered && !op.results[i]
    ensures Vetoed(RunFirst(op))
  {
    var head, after := op.queue[0], RunFirst(op);
    assert head.ConditionJob? ==> head.index in op.entered by {
      PopGroup(op.queue, op.awaiting, op.entered, op.known);
    }
    assert i < |after.results| && i !in after.entered && !after.results[i];
  }

  lemma HeadNoIsStored(op: Op)
    requires Inv(op) && op.queue != [] && op.queue[0].ConditionJob? && !op.queue[0].satisfied
    ensures Vetoed(RunFirst(op))
  {
    var i, after := op.queue[0].index, RunFirst(op);
    assert Due(op.queue[0], op.awaiting, op.entered, op.known);
    assert i < |after.results| && i !in after.entered && !after.results[i];
  }

  lemma QueuedNoStays(op: Op, job: Job)
    requires Inv(op) && op.queue != [] && job in op.queue[1..] && job.ConditionJob? && !job.satisfied
    ensures Vetoed(RunFirst(op))
  {
    JobQueue(op);
    assert job in RunFirst(op).queue;
  }

  lemma JobKeepsVeto(op: Op)
    requires Inv(op) && op.queue != [] && Vetoed(op)
    ensures Vetoed(RunFirst(op))
  {
    if i :| 0 <= i < |op.results| && i !in op.entered && !op.results[i] {
      StoredNoStays(op, i);
    } else {
      var job :| job in op.queue && job.ConditionJob? && !job.satisfied;
      if job == op.queue[0] {
        HeadNoIsStored(op);
      } else {
        assert op.queue == [op.queue[0]] + op.queue[1..];
        QueuedNoStays(op, job);
      }
    }
  }

  lemma ActKeepsVeto(op: Op, act: Act)
    requires Inv(op) && May(op, act)
    requires Vetoed(op) || (act.Complete? && !act.satisfied)
    ensures Vetoed(Do(op, act))
  {
    if act == RunJob {
      JobKeepsVeto(op);
    } else {
      ActQueue(op, act);
      if act.Complete? && !act.satisfied {
        assert ConditionJob(act.index, false) in Do(op, act).queue;
      } else if act.CheckReadiness? && op.life == Pending {
        VetoIsAsked(op);
      } else if job :| job in op.queue && job.ConditionJob? && !job.satisfied {
        assert job in Do(op, act).queue;
      }
    }
  }

  lemma VetoIsAsked(op: Op)
    requires Inv(op) && Vetoed(op)
    ensures op.known != []
  {
    if job :| job in op.queue && job.ConditionJob? && !job.satisfied {
      var k :| 0 <= k < |op.queue| && op.queue[k] == job;
      assert Due(op.queue[k], op.awaiting, op.entered, op.known);
    }
  }

  lemma VetoedHasNotRun(op: Op)
    requires Inv(op) && Vetoed(op)
    ensures op.section != Entered
  {
    if job :| job in op.queue && job.ConditionJob? && !job.satisfied {
      var k :| 0 <= k < |op.queue| && op.queue[k] == job;
      assert Due(op.queue[k], op.awaiting, op.entered, op.known);
    }
  }

  // ----- along a run

  /** A condition of `id` answers no. */
  predicate SaysNo(step: Step, id: OpId) {
    step.Local? && step.id == id && step.act.Complete? && !step.act.satisfied
  }

  ghost predicate AnswersYes(steps: seq<Step>, id: OpId) {
    forall k :: 0 <= k < |steps| ==> !SaysNo(steps[k], id)
  }

  lemma NoLater(steps: seq<Step>, id: OpId)
    requires !AnswersYes(steps, id) && !SaysNo(steps[0], id)
    ensures !AnswersYes(steps[1..], id)
  {
    var k :| 0 <= k < |steps| && SaysNo(steps[k], id);
    assert steps[1..][k - 1] == steps[k];
  }

  ghost predicate NobodyCancels(steps: seq<Step>, id: OpId) {
    forall k :: 0 <= k < |steps| ==> steps[k] != Local(id, Cancel)
  }

  /** What passes in the end passed when the dependencies had finished. */
  lemma PassedBefore(mode: Mode, s: Sys, steps: seq<Step>, id: OpId, condition: Condition)
    requires SysInv(mode, s) && Legal(mode, s, steps) && id in s.ops && DependenciesFinished(s.ops, id)
    requires var t := Exec(mode, s, steps); id in t.ops && Passes(t.ops, id, condition)
    ensures Verdict(s.ops, id, condition) != Some(false)
  {
    var t := Exec(mode, s, steps);
    VerdictExactly(s.ops, id, condition);
    RunPersists(mode, s, steps, id);
    forall d | d in s.ops[id].dependencies
      ensures d in t.ops && Persists(s.ops[d], t.ops[d]) && d in t.ops[id].dependencies
    {
      RunPersists(mode, s, steps, d);
    }
  }

  lemma ReadyVerdicts(mode: Mode, s: Sys, steps: seq<Step>, id: OpId, known: seq<Option<bool>>)
    requires SysInv(mode, s) && Legal(mode, s, steps) && id in s.ops && !s.ops[id].cancelled
    requires Enabled(mode, s, Local(id, CheckReadiness(known)))
    requires var t := Exec(mode, s, steps); id in t.ops && AllPass(t.ops, id)
    ensures forall i :: 0 <= i < |known| ==> known[i] != Some(false)
  {
    var t := Exec(mode, s, steps);
    RunPersists(mode, s, steps, id);
    forall i | 0 <= i < |known|
      ensures known[i] != Some(false)
    {
      var condition := s.ops[id].conditions[i];
      assert condition in t.ops[id].conditions;
      PassedBefore(mode, s, steps, id, condition);
    }
  }

  lemma StepFavours(mode: Mode, s: Sys, steps: seq<Step>, id: OpId)
    requires SysInv(mode, s) && Legal(mode, s, steps) && steps != [] && id in s.ops && Favoured(s.ops[id])
    requires NobodyCancels(steps, id) && AnswersYes(steps, id)
    requires var t := Exec(mode, s, steps); id in t.ops && AllPass(t.ops, id)
    ensures id in Apply(mode, s, steps[0]).ops && Favoured(Apply(mode, s, steps[0]).ops[id])
  {
    var step := steps[0];
    if step.Local? && step.id == id {
      assert Inv(s.ops[id]);
      if step.act.CheckReadiness? {
        ReadyVerdicts(mode, s, steps, id, step.act.known);
      }
      ActFavours(s.ops[id], step.act);
    } else if step.id != id || step.Create? {
      StepElsewhere(mode, s, step, id);
    }
  }

  lemma {:induction false} RunFavours(mode: Mode, s: Sys, steps: seq<Step>, id: OpId)
    requires SysInv(mode, s) && Legal(mode, s, steps) && id in s.ops && Favoured(s.ops[id])
    requires NobodyCancels(steps, id) && AnswersYes(steps, id)
    requires var t := Exec(mode, s, steps); id in t.ops && AllPass(t.ops, id)
    ensures Favoured(Exec(mode, s, steps).ops[id])
    decreases |steps|
  {
    if steps != [] {
      StepFavours(mode, s, steps, id);
      StepKeepsInv(mode, s, steps[0]);
      RunFavours(mode, Apply(mode, s, steps[0]), steps[1..], id);
    }
  }

  /** An operation whose conditions are met, and that nobody cancels, is never cancelled; so when it has
      finished, it has run `main`. */
  lemma RunsWhenNothingObjects(mode: Mode, s: Sys, steps: seq<Step>, id: OpId)
    requires Reachable(mode, s) && Legal(mode, s, steps)
    requires id in s.ops && s.ops[id].known == [] && !s.ops[id].cancelled
    requires NobodyCancels(steps, id) && AnswersYes(steps, id)
    requires var t := Exec(mode, s, steps); id in t.ops && AllPass(t.ops, id)
    ensures var op := Exec(mode, s, steps).ops[id];
      !op.cancelled && (op.life == Finished ==> op.section == Entered && !op.ending.cancelled)
  {
    ReachableInv(mode, s);
    UnaskedIsFavoured(s.ops[id]);
    RunFavours(mode, s, steps, id);
    RunKeepsInv(mode, s, steps);
    assert Inv(Exec(mode, s, steps).ops[id]);
  }

  lemma StepKeepsVeto(mode: Mode, s: Sys, step: Step, id: OpId)
    requires SysInv(mode, s) && Enabled(mode, s, step) && id in s.ops
    requires Vetoed(s.ops[id]) || SaysNo(step, id)
    ensures id in Apply(mode, s, step).ops && Vetoed(Apply(mode, s, step).ops[id])
  {
    if step.Local? && step.id == id {
      ActKeepsVeto(s.ops[id], step.act);
    } else if step.id != id || step.Create? {
      StepElsewhere(mode, s, step, id);
    }
  }

  lemma {:induction false} RunKeepsVeto(mode: Mode, s: Sys, steps: seq<Step>, id: OpId)
    requires SysInv(mode, s) && Legal(mode, s, steps) && id in s.ops
    requires Vetoed(s.ops[id]) || !AnswersYes(steps, id)
    ensures id in Exec(mode, s, steps).ops && Vetoed(Exec(mode, s, steps).ops[id])
    decreases |steps|
  {
    if steps != [] {
      var step, next := steps[0], Apply(mode, s, steps[0]);
      StepPersists(mode, s, step, id);
      StepKeepsInv(mode, s, step);
      if Vetoed(s.ops[id]) || SaysNo(step, id) {
        StepKeepsVeto(mode, s, step, id);
      } else {
        NoLater(steps, id);
      }
      RunKeepsVeto(mode, next, steps[1..], id);
    }
  }

  /** One no is enough: the operation never runs `main`. */
  lemma OneNoStops(mode: Mode, s: Sys, steps: seq<Step>, id: OpId)
    requires Reachable(mode, s) && Legal(mode, s, steps) && id in s.ops && !AnswersYes(steps, id)
    ensures id in Exec(mode, s, steps).ops && Exec(mode, s, steps).ops[id].section != Entered
  {
    ReachableInv(mode, s);
    RunKeepsVeto(mode, s, steps, id);
    RunKeepsInv(mode, s, steps);
    VetoedHasNotRun(Exec(mode, s, steps).ops[id]);
  }

  // ----- exactly when the body runs

  /** Conditions found to hold still pass. */
  ghost predicate StillPass(ops: Ops, id: OpId)
    requires id in ops
  {
    ops[id].known != [] ==>
      && |ops[id].known| == |ops[id].conditions| && DependenciesFinished(ops, id)
      && forall i :: 0 <= i < |ops[id].known| && ops[id].known[i] != Some(false) ==> Passes(ops, id, ops[id].conditions[i])
  }

  lemma AskedPass(ops: Ops, id: OpId, known: seq<Option<bool>>)
    requires id in ops && Verdicts(ops, id, known)
    ensures forall i :: 0 <= i < |known| && known[i] != Some(false) ==> Passes(ops, id, ops[id].conditions[i])
  {
    forall i | 0 <= i < |known| && known[i] != Some(false)
      ensures Passes(ops, id, ops[id].conditions[i])
    {
      VerdictExactly(ops, id, ops[id].conditions[i]);
    }
  }

  /** A finished operation is not cancelled by what the system does by itself. */
  lemma FinishedStaysAsItIs(op: Op, act: Act)
    requires Inv(op) && May(op, act) && Owed(op, act) && op.life == Finished
    ensures Do(op, act).life == Finished && Do(op, act).ending == op.ending && Do(op, act).cancelled == op.cancelled
  {
    ActEvolves(op, act);
    if act == RunJob {
      assert op.queue[0] in op.queue;
    }
  }

  /** The dependencies of `id` look the same. */
  ghost predicate SameDependencies(ops: Ops, after: Ops, id: OpId)
    requires id in ops && id in after
  {
    && after[id].dependencies == ops[id].dependencies && after[id].conditions == ops[id].conditions
    && forall d :: d in ops[id].dependencies && d in ops ==>
         d in after && after[d].ending == ops[d].ending && after[d].cancelled == ops[d].cancelled && (ops[d].life == Finished ==> after[d].life == Finished)
  }

  lemma SamePasses(ops: Ops, after: Ops, id: OpId, condition: Condition)
    requires id in ops && id in after && SameDependencies(ops, after, id) && DependenciesFinished(ops, id)
    requires Passes(ops, id, condition)
    ensures Passes(after, id, condition)
  {
  }

  /** What the system's own steps leave alone. */
  ghost predicate Settled(op: Op, after: Op) {
    && after.dependencies == op.dependencies && after.conditions == op.conditions
    && (op.life == Finished ==> after.life == Finished && after.ending == op.ending && after.cancelled == op.cancelled)
  }

  lemma ProgressOnOne(mode: Mode, s: Sys, step: Step) returns (after: Op)
    requires SysInv(mode, s) && Enabled(mode, s, step) && Progress(s, step)
    ensures step.id in s.ops && Settled(s.ops[step.id], after)
    ensures Apply(mode, s, step) == s.(ops := s.ops[step.id := after])
  {
    var op := s.ops[step.id];
    after := Apply(mode, s, step).ops[step.id];
    if step.Local? {
      ActEvolves(op, step.act);
      if op.life == Finished {
        FinishedStaysAsItIs(op, step.act);
      }
    }
  }

  lemma SettledKeepsDependencies(ops: Ops, changed: OpId, after: Op, id: OpId)
    requires changed in ops && Settled(ops[changed], after) && id in ops && DependenciesFinished(ops, id)
    ensures SameDependencies(ops, ops[changed := after], id) && DependenciesFinished(ops[changed := after], id)
  {
  }

  lemma ProgressStillPasses(mode: Mode, s: Sys, step: Step, id: OpId)
    requires SysInv(mode, s) && Enabled(mode, s, step) && Progress(s, step) && id in s.ops && DependenciesFinished(s.ops, id)
    ensures id in Apply(mode, s, step).ops && DependenciesFinished(Apply(mode, s, step).ops, id)
    ensures forall condition :: Passes(s.ops, id, condition) ==> Passes(Apply(mode, s, step).ops, id, condition)
  {
    var changed := ProgressOnOne(mode, s, step);
    var after := s.ops[step.id := changed];
    SettledKeepsDependencies(s.ops, step.id, changed, id);
    forall condition | Passes(s.ops, id, condition)
      ensures Passes(after, id, condition)
    {
      SamePasses(s.ops, after, id, condition);
    }
  }

  /** Only a step of its own changes the verdicts of an operation, and then to what they are now. */
  lemma AskedNow(mode: Mode, s: Sys, step: Step, id: OpId)
    requires SysInv(mode, s) && Enabled(mode, s, step) && Progress(s, step) && id in s.ops
    ensures id in Apply(mode, s, step).ops && Apply(mode, s, step).ops[id].conditions == s.ops[id].conditions
    ensures var known := Apply(mode, s, step).ops[id].known;
      known != s.ops[id].known ==> DependenciesFinished(s.ops, id) && Verdicts(s.ops, id, known)
  {
    if step.Local? && step.id == id {
      ActEvolves(s.ops[id], step.act);
      ActCauses(s.ops[id], step.act);
    }
  }

  lemma StepStillPasses(mode: Mode, s: Sys, step: Step, id: OpId)
    requires SysInv(mode, s) && Enabled(mode, s, step) && Progress(s, step) && id in s.ops && StillPass(s.ops, id)
    ensures id in Apply(mode, s, step).ops && StillPass(Apply(mode, s, step).ops, id)
  {
    AskedNow(mode, s, step, id);
    var known := Apply(mode, s, step).ops[id].known;
    if known != [] {
      ProgressStillPasses(mode, s, step, id);
      if known != s.ops[id].known {
        AskedPass(s.ops, id, known);
      }
    }
  }

  lemma {:induction false} RunStillPasses(mode: Mode, s: Sys, steps: seq<Step>, id: OpId)
    requires SysInv(mode, s) && Legal(mode, s, steps) && ProgressRun(mode, s, steps) && id in s.ops && StillPass(s.ops, id)
    ensures id in Exec(mode, s, steps).ops && StillPass(Exec(mode, s, steps).ops, id)
    decreases |steps|
  {
    if steps != [] {
      StepStillPasses(mode, s, steps[0], id);
      StepKeepsInv(mode, s, steps[0]);
      RunStillPasses(mode, Apply(mode, s, steps[0]), steps[1..], id);
    }
  }

  lemma EnteredPasses(ops: Ops, id: OpId)
    requires OpsInv(ops) && id in ops && ops[id].section == Entered && StillPass(ops, id)
    ensures AllPass(ops, id)
  {
    var op := ops[id];
    assert Inv(op);
    forall condition | condition in op.conditions
      ensures Passes(ops, id, condition)
    {
      var i :| 0 <= i < |op.conditions| && op.conditions[i] == condition;
      assert op.results[i];
    }
  }

  lemma {:induction false} ProgressCancelsNobody(mode: Mode, s: Sys, steps: seq<Step>, id: OpId)
    requires Legal(mode, s, steps) && ProgressRun(mode, s, steps)
    ensures NobodyCancels(steps, id)
    decreases |steps|
  {
    if steps != [] {
      ProgressCancelsNobody(mode, Apply(mode, s, steps[0]), steps[1..], id);
      forall k | 0 <= k < |steps|
        ensures steps[k] != Local(id, Cancel)
      {
        if k > 0 {
          assert steps[1..][k - 1] == steps[k];
        }
      }
    }
  }

  /** Left to itself, the system comes to rest, and then an operation that had not been asked nor cancelled
      has run `main` exactly when all its conditions pass and none of them has answered no. */
  lemma RunsExactly(mode: Mode, s: Sys, steps: seq<Step>, id: OpId)
    requires mode.dependsOnEarlier && Reachable(mode, s) && Legal(mode, s, steps) && ProgressRun(mode, s, steps)
    requires AtRest(mode, Exec(mode, s, steps))
    requires id in s.order && id in s.ops && s.ops[id].known == [] && !s.ops[id].cancelled
    ensures var t := Exec(mode, s, steps);
      id in t.ops && (t.ops[id].section == Entered <==> AllPass(t.ops, id) && AnswersYes(steps, id))
  {
    var t := Exec(mode, s, steps);
    ReachableInv(mode, s);
    RunKeepsInv(mode, s, steps);
    RunPersists(mode, s, steps, id);
    if AllPass(t.ops, id) && AnswersYes(steps, id) {
      ProgressCancelsNobody(mode, s, steps, id);
      RunsWhenNothingObjects(mode, s, steps, id);
      FinishesAtRest(mode, s, steps, id);
    } else if t.ops[id].section == Entered {
      RunStillPasses(mode, s, steps, id);
      EnteredPasses(t.ops, id);
      OneNoStops(mode, s, steps, id);
    }
  }

  lemma FinishesAtRest(mode: Mode, s: Sys, steps: seq<Step>, id: OpId)
    requires mode.dependsOnEarlier && Reachable(mode, s) && Legal(mode, s, steps) && ProgressRun(mode, s, steps)
    requires AtRest(mode, Exec(mode, s, steps)) && id in s.order
    ensures var t := Exec(mode, s, steps); id in t.ops && t.ops[id].life == Finished
  {
    EverythingFinishes(mode, s, steps);
    OrderStays(mode, s, steps);
  }

  lemma {:induction false} OrderStays(mode: Mode, s: Sys, steps: seq<Step>)
    requires Legal(mode, s, steps) && ProgressRun(mode, s, steps)
    ensures Exec(mode, s, steps).order == s.order
    decreases |steps|
  {
    if steps != [] {
      OrderStays(mode, Apply(mode, s, steps[0]), steps[1..]);
    }
  }
}
