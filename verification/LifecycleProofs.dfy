/** Every critical section keeps the invariant of the operation it runs on. */
module LifecycleProofs {
  import opened Options
  import opened Lifecycle

  lemma NewOpInv(conditions: seq<Condition>, dependencies: set<OpId>)
    ensures Inv(NewOp(conditions, dependencies))
  {
  }

  // ----- queues

  lemma PushOrderly(queue: seq<Job>, job: Job)
    requires Orderly(queue)
    requires job in queue ==> job.ConditionJob? || job == EvaluatedJob
    requires job == CancelJob ==> FinishJob !in queue
    ensures Orderly(queue + [job])
    ensures forall other :: other in queue + [job] <==> other in queue || other == job
  {
  }

  lemma PopOrderly(queue: seq<Job>)
    requires Orderly(queue) && queue != []
    ensures Orderly(queue[1..])
    ensures forall job :: job in queue <==> job == queue[0] || job in queue[1..]
    ensures queue[0] in queue[1..] ==> queue[0].ConditionJob? || queue[0] == EvaluatedJob
    ensures queue[0] == FinishJob ==> CancelJob !in queue[1..]
  {
    assert queue == [queue[0]] + queue[1..];
    assert forall k :: 0 <= k < |queue[1..]| ==> queue[1..][k] == queue[k + 1];
  }

  lemma PushGroup(queue: seq<Job>, job: Job, awaiting: set<nat>, entered: set<nat>, known: seq<Option<bool>>)
    requires GroupInv(queue, awaiting, entered, known)
    requires !job.ConditionJob? && (job == EvaluatedJob ==> entered == {})
    ensures GroupInv(queue + [job], awaiting, entered, known)
  {
  }

  lemma PushResult(queue: seq<Job>, index: nat, satisfied: bool,
                   awaiting: set<nat>, entered: set<nat>, known: seq<Option<bool>>)
    requires GroupInv(queue, awaiting, entered, known) && index in awaiting
    requires known[index].Some? ==> known[index].value == satisfied
    ensures GroupInv(queue + [ConditionJob(index, satisfied)], awaiting - {index}, entered, known)
  {
    var after := queue + [ConditionJob(index, satisfied)];
    assert ConditionJob(index, satisfied) in after;
    assert forall job :: job in queue ==> job in after;
  }

  lemma PopGroup(queue: seq<Job>, awaiting: set<nat>, entered: set<nat>, known: seq<Option<bool>>)
    requires GroupInv(queue, awaiting, entered, known) && queue != []
    ensures !queue[0].ConditionJob? ==> GroupInv(queue[1..], awaiting, entered, known)
    ensures queue[0].ConditionJob? ==> queue[0].index in entered
    ensures queue[0].ConditionJob? ==> GroupInv(queue[1..], awaiting, entered - {queue[0].index}, known)
  {
    var head, tail := queue[0], queue[1..];
    assert queue == [head] + tail;
    assert forall k :: 0 <= k < |tail| ==> tail[k] == queue[k + 1];
    assert Due(head, awaiting, entered, known);
  }

  /** The queue lemmas an act calls for. */
  lemma ActQueue(op: Op, act: Act)
    requires Inv(op) && May(op, act) && act != RunJob
    ensures Orderly(Do(op, act).queue)
    ensures forall job :: job in Do(op, act).queue ==> job in op.queue || Pushed(op, act) == Some(job)
    ensures forall job :: job in op.queue || Pushed(op, act) == Some(job) ==> job in Do(op, act).queue
    ensures GroupInv(Do(op, act).queue, Do(op, act).awaiting, Do(op, act).entered, Do(op, act).known)
  {
    match act
    case Complete(index, satisfied) =>
      PushOrderly(op.queue, ConditionJob(index, satisfied));
      PushResult(op.queue, index, satisfied, op.awaiting, op.entered, op.known);
    case Cancel =>
      if Pushed(op, act).Some? {
        PushOrderly(op.queue, CancelJob);
        PushGroup(op.queue, CancelJob, op.awaiting, op.entered, op.known);
      }
    case RequestStart =>
      PushOrderly(op.queue, StartJob);
      PushGroup(op.queue, StartJob, op.awaiting, op.entered, op.known);
    case PostFinish =>
      PushOrderly(op.queue, FinishJob);
      PushGroup(op.queue, FinishJob, op.awaiting, op.entered, op.known);
    case CheckReadiness(_) =>
      BelowHolds(|op.conditions|);
      if op.life == Pending {
        assert forall k :: 0 <= k < |op.queue| ==> Due(op.queue[k], op.awaiting, op.entered, op.known);
      }
    case _ =>
  }

  function Pushed(op: Op, act: Act): Option<Job> {
    match act
    case Complete(index, satisfied) => Some(ConditionJob(index, satisfied))
    case Cancel => if !op.cancelled && op.life == Executing then Some(CancelJob) else None
    case RequestStart => Some(StartJob)
    case PostFinish => Some(FinishJob)
    case _ => None
  }

  lemma ActKeepsStartInv(op: Op, act: Act)
    requires Inv(op) && May(op, act) && act != RunJob
    ensures StartInv(Do(op, act))
  {
    ActQueue(op, act);
  }

  lemma ActKeepsFinishInv(op: Op, act: Act)
    requires Inv(op) && May(op, act) && act != RunJob
    ensures FinishInv(Do(op, act))
  {
    ActQueue(op, act);
  }

  lemma ActKeepsConditionInv(op: Op, act: Act)
    requires Inv(op) && May(op, act) && act != RunJob
    ensures ConditionInv(Do(op, act))
  {
    ActQueue(op, act);
    BelowHolds(|op.conditions|);
  }

  lemma ActKeepsObserverInv(op: Op, act: Act)
    requires Inv(op) && May(op, act) && act != RunJob
    ensures ObserverInv(Do(op, act))
  {
  }

  lemma EvaluatedLeaves(op: Op)
    ensures var after := DidEvaluate(op);
      after.awaiting == op.awaiting && after.known == op.known && after.entered == op.entered && after.queue == op.queue
  {
  }

  lemma LeaveLeaves(op: Op, index: nat, satisfied: bool)
    ensures var after := Leave(op, index, satisfied);
      && after.awaiting == op.awaiting && after.known == op.known && after.entered == op.entered - {index}
      && after.queue == if after.entered == {} then op.queue + [EvaluatedJob] else op.queue
  {
  }

  /** A block only ever adds the verdict to the queue, and only a result leaves the group. */
  lemma JobLeaves(op: Op, job: Job)
    ensures var after := Perform(op, job);
      && after.awaiting == op.awaiting && after.known == op.known
      && after.entered == (if job.ConditionJob? then op.entered - {job.index} else op.entered)
      && after.queue == if job.ConditionJob? && after.entered == {} then op.queue + [EvaluatedJob] else op.queue
  {
    match job
    case StartJob => assert Perform(op, job) == Start(op);
    case ConditionJob(index, satisfied) => LeaveLeaves(op, index, satisfied);
    case EvaluatedJob => EvaluatedLeaves(op);
    case CancelJob =>
    case FinishJob =>
  }

  lemma JobQueue(op: Op)
    requires Inv(op) && op.queue != []
    ensures Orderly(RunFirst(op).queue)
    ensures GroupInv(RunFirst(op).queue, RunFirst(op).awaiting, RunFirst(op).entered, RunFirst(op).known)
    ensures forall job :: job in RunFirst(op).queue ==>
              job in op.queue[1..] || (job == EvaluatedJob && op.queue[0].ConditionJob? && RunFirst(op).entered == {})
    ensures forall job :: job in op.queue[1..] ==> job in RunFirst(op).queue
    ensures forall job :: job in op.queue <==> job == op.queue[0] || job in op.queue[1..]
    ensures op.queue[0] in op.queue[1..] ==> op.queue[0].ConditionJob? || op.queue[0] == EvaluatedJob
    ensures op.queue[0] == FinishJob ==> CancelJob !in op.queue[1..]
    ensures op.queue[0].ConditionJob? && RunFirst(op).entered == {} ==> EvaluatedJob in RunFirst(op).queue
  {
    PopOrderly(op.queue);
    PopGroup(op.queue, op.awaiting, op.entered, op.known);
    JobLeaves(op.(queue := op.queue[1..]), op.queue[0]);
    if op.queue[0].ConditionJob? && RunFirst(op).entered == {} {
      PushOrderly(op.queue[1..], EvaluatedJob);
      PushGroup(op.queue[1..], EvaluatedJob, op.awaiting, {}, op.known);
    }
  }

  lemma StartJobKeepsStartInv(op: Op)
    requires Inv(op) && op.queue != [] && op.queue[0] == StartJob
    ensures StartInv(RunFirst(op))
  {
    JobQueue(op);
  }

  lemma OtherJobKeepsStartInv(op: Op)
    requires Inv(op) && op.queue != [] && op.queue[0] != StartJob
    ensures StartInv(RunFirst(op))
  {
    JobQueue(op);
  }

  lemma JobKeepsStartInv(op: Op)
    requires Inv(op) && op.queue != []
    ensures StartInv(RunFirst(op))
  {
    if op.queue[0] == StartJob {
      StartJobKeepsStartInv(op);
    } else {
      OtherJobKeepsStartInv(op);
    }
  }

  lemma JobKeepsFinishInv(op: Op)
    requires Inv(op) && op.queue != []
    ensures FinishInv(RunFirst(op))
  {
    JobQueue(op);
  }

  lemma ConditionJobKeepsConditionInv(op: Op)
    requires Inv(op) && op.queue != [] && op.queue[0].ConditionJob?
    ensures ConditionInv(RunFirst(op))
  {
    JobQueue(op);
    assert Due(op.queue[0], op.awaiting, op.entered, op.known);
  }

  lemma OtherJobKeepsConditionInv(op: Op)
    requires Inv(op) && op.queue != [] && !op.queue[0].ConditionJob?
    ensures ConditionInv(RunFirst(op))
  {
    JobQueue(op);
    if op.queue[0] == EvaluatedJob {
      assert EvaluatedJob in op.queue;
    }
  }

  lemma SilentJobKeepsObserverInv(op: Op)
    requires StartInv(op) && FinishInv(op) && ObserverInv(op) && op.queue != []
    requires op.queue[0].ConditionJob? || op.queue[0] == EvaluatedJob
    ensures ObserverInv(RunFirst(op))
  {
    assert Word(RunFirst(op)) == Word(op);
  }

  lemma StartJobKeepsObserverInv(op: Op)
    requires StartInv(op) && FinishInv(op) && ObserverInv(op) && op.queue != [] && op.queue[0] == StartJob
    ensures ObserverInv(RunFirst(op))
  {
    assert StartJob in op.queue;
    assert Word(op) == [];
  }

  lemma TellingJobKeepsObserverInv(op: Op)
    requires StartInv(op) && FinishInv(op) && ObserverInv(op) && op.queue != []
    requires op.queue[0] == CancelJob || op.queue[0] == FinishJob
    ensures ObserverInv(RunFirst(op))
  {
    assert op.queue[0] in op.queue;
  }

  /** Every section keeps the invariant. */
  lemma ActKeepsInv(op: Op, act: Act)
    requires Inv(op) && May(op, act)
    ensures Inv(Do(op, act))
  {
    if act == RunJob {
      JobKeepsStartInv(op);
      JobKeepsFinishInv(op);
      match op.queue[0] {
        case StartJob => StartJobKeepsObserverInv(op);
        case CancelJob => TellingJobKeepsObserverInv(op);
        case FinishJob => TellingJobKeepsObserverInv(op);
        case _ => SilentJobKeepsObserverInv(op);
      }
      if op.queue[0].ConditionJob? {
        ConditionJobKeepsConditionInv(op);
      } else {
        OtherJobKeepsConditionInv(op);
      }
    } else {
      ActKeepsStartInv(op, act);
      ActKeepsFinishInv(op, act);
      ActKeepsConditionInv(op, act);
      ActKeepsObserverInv(op, act);
    }
  }

  // ----- what the invariant gives for one operation

  /** The `assert(_state < newState)` in the setter never fails, and `life` changes in no other way. */
  lemma SetterIncreases(op: Op, act: Act)
    requires Inv(op) && May(op, act)
    ensures match Assigns(op, act)
            case Some(life) => Rank(op.life) < Rank(life) && Do(op, act).life == life
            case None => Do(op, act).life == op.life
  {
    if act == RunJob {
      assert op.queue[0] in op.queue;
    }
  }

  /** What no section ever takes back. */
  ghost predicate Evolves(op: Op, after: Op) {
    && after.conditions == op.conditions && after.dependencies == op.dependencies
    && (op.stage == Fresh <==> after.stage == Fresh)
    && (op.life == Finished ==> after.life == Finished && after.ending == op.ending)
    && (op.life == Finished ==> (after.section == Entered <==> op.section == Entered))
    && (op.cancelled ==> after.cancelled && (after.section == Entered ==> op.section == Entered))
    && (op.startRequested ==> after.startRequested)
    && (op.known != [] ==> after.known == op.known)
    && (op.closed ==> after.closed)
  }

  lemma ActEvolves(op: Op, act: Act)
    requires Inv(op) && May(op, act)
    ensures Evolves(op, Do(op, act))
  {
    match act
    case RunJob => JobEvolves(op);
    case Complete(_, _) =>
    case CheckReadiness(_) =>
    case Finish(_) =>
    case RefusalFinish =>
    case _ =>
  }

  lemma JobEvolves(op: Op)
    requires Inv(op) && op.queue != []
    ensures Evolves(op, RunFirst(op))
  {
    assert op.queue[0] in op.queue;
    match op.queue[0]
    case StartJob =>
    case ConditionJob(_, _) =>
    case EvaluatedJob =>
    case CancelJob =>
    case FinishJob =>
  }

  /** The three histories an observer may see, complete or cut short. */
  ghost predicate Proper(events: seq<Event>) {
    events <= [DidStart, DidFinish] || events <= [DidStart, DidCancel, DidFinish] || events <= [DidCancel, DidFinish]
  }

  lemma OnlyTheEndImproper()
    ensures !Proper([DidFinish])
  {
    assert [DidFinish][0] == DidFinish;
  }

  /** An observer's history is proper exactly when it was attached before `_start` ran, or has not
      been told of the end yet. */
  lemma ObserverHistory(op: Op, ob: ObserverId)
    requires Inv(op) && ob in op.observers
    ensures Proper(op.observers[ob]) <==> ob in op.early || !op.closed
    ensures ob !in op.early ==> op.observers[ob] == if op.closed then [DidFinish] else []
    ensures ob in op.early ==> (DidStart in op.observers[ob] <==> op.section == Entered)
  {
    if ob in op.early {
      assert op.closed ==> op.life == Finished && op.section != NotStarted;
      assert Proper(Word(op));
    } else {
      OnlyTheEndImproper();
    }
  }
}
