/**
 The life of one asynchronous operation (ios/Operations/AsyncOperation.swift).

 Every critical section of the source is one function on the record `Op`; `Act` names them and
 `Do` applies one of them.  The functions are the specification of the class `AsyncOperation` in
 AsyncOperation.dfy and the local half of the transition system in Scheduler.dfy.
 */
module Lifecycle {
  import opened Options

  type OpId = nat
  type ObserverId = nat

  datatype Life = Initialized | Pending | Evaluating | Ready | Executing | Finished

  function Rank(life: Life): nat {
    match life
    case Initialized => 0
    case Pending => 1
    case Evaluating => 2
    case Ready => 3
    case Executing => 4
    case Finished => 5
  }

  datatype Failure = CancelledError | OtherError(code: int)

  datatype Condition =
    | MutuallyExclusive(category: string)
    | NoFailedDependencies(ignoreCancellations: bool)
    | NoCancelledDependencies
    | BlockCondition

  /** What an observer is told. */
  datatype Event = DidStart | DidCancel | DidFinish

  /** Blocks waiting on the operation's serial dispatch queue. */
  datatype Job =
    | StartJob
    | ConditionJob(index: nat, satisfied: bool)
    | EvaluatedJob
    | CancelJob
    | FinishJob

  /** How far `AsyncOperationQueue.addOperation` has come. */
  datatype Stage = Fresh | Registered | Submitted | Announced

  /** What became of `_start`: not run, ran `main`, or found the operation cancelled; in the last
      case its own call of `finish` is still to come (`Refused`) or made (`Declined`). */
  datatype Section = NotStarted | Entered | Refused | Declined

  /** How it finished: the error, and whether it was cancelled by then. */
  datatype Ending = Ending(error: Option<Failure>, cancelled: bool)

  datatype Op = Op(
    life: Life,
    cancelled: bool,
    ending: Ending,
    conditions: seq<Condition>,
    dependencies: set<OpId>,
    queue: seq<Job>,
    stage: Stage,
    startRequested: bool,
    section: Section,
    // Condition evaluation: the verdicts already fixed when evaluation began, the completions
    // still owed by the conditions, the members of the dispatch group, the results array.
    known: seq<Option<bool>>,
    awaiting: set<nat>,
    entered: set<nat>,
    results: seq<bool>,
    finishOwed: bool,
    // Observers with everything they were told; `early` are those attached before `_start` ran.
    observers: map<ObserverId, seq<Event>>,
    early: set<ObserverId>,
    cancelTold: bool,
    closed: bool)

  function NewOp(conditions: seq<Condition>, dependencies: set<OpId>): Op {
    Op(Initialized, false, Ending(None, false), conditions, dependencies, [], Fresh, false, NotStarted,
       [], {}, {}, [], false, map[], {}, false, false)
  }

  // ----- critical sections

  datatype Act =
    | Announce
    | CheckReadiness(known: seq<Option<bool>>)
    | Complete(index: nat, satisfied: bool)
    | RunJob
    | Cancel
    | RequestStart
    | Finish(error: Option<Failure>)
    | RefusalFinish
    | PostFinish
    | Attach(observer: ObserverId)

  function Below(n: nat): set<nat> {
    if n == 0 then {} else Below(n - 1) + {n - 1}
  }

  lemma BelowHolds(n: nat)
    ensures forall i: nat :: i in Below(n) <==> i < n
    ensures |Below(n)| == n
  {
  }

  function Blank(n: nat): seq<bool> {
    seq(n, _ => false)
  }

  function Tell(observers: map<ObserverId, seq<Event>>, event: Event): map<ObserverId, seq<Event>> {
    map ob | ob in observers :: observers[ob] + [event]
  }

  /** `didEnqueue` */
  function DidEnqueue(op: Op): Op {
    op.(stage := Announced, life := if op.life == Initialized then Pending else op.life)
  }

  /** Every condition enters the group and is evaluated. */
  function BeginEvaluation(op: Op, known: seq<Option<bool>>): Op {
    var all := Below(|op.conditions|);
    op.(life := Evaluating, known := known, awaiting := all, entered := all, results := Blank(|op.conditions|))
  }

  /** `evaluateConditions`, entered from `checkReadiness` once the dependencies are satisfied. */
  function Evaluate(op: Op, known: seq<Option<bool>>): Op {
    if op.life != Pending || op.cancelled then op
    else if op.conditions == [] then op.(life := Ready)
    else BeginEvaluation(op, known)
  }

  /** A condition calls its completion. */
  function CompleteCondition(op: Op, index: nat, satisfied: bool): Op {
    op.(awaiting := op.awaiting - {index}, queue := op.queue + [ConditionJob(index, satisfied)])
  }

  function CancelOp(op: Op): Op {
    if op.cancelled then op
    else op.(cancelled := true, queue := if op.life == Executing then op.queue + [CancelJob] else op.queue)
  }

  /** `tryFinish` */
  function FinishOp(op: Op, error: Option<Failure>): Op {
    if op.life == Finished then op
    else op.(life := Finished, ending := Ending(error, op.cancelled), finishOwed := true)
  }

  function AttachObserver(op: Op, ob: ObserverId): Op {
    op.(observers := op.observers[ob := []],
        early := if op.section == NotStarted then op.early + {ob} else op.early)
  }

  /** `_start` */
  function Start(op: Op): Op {
    if op.cancelled then
      op.(section := Refused, observers := Tell(op.observers, DidCancel), cancelTold := true)
    else
      op.(section := Entered, life := Executing, observers := Tell(op.observers, DidStart))
  }

  /** A condition's result is stored and the dispatch group left; the last to leave posts the verdict. */
  function Leave(op: Op, index: nat, satisfied: bool): Op {
    var entered := op.entered - {index};
    op.(entered := entered,
        results := if index < |op.results| then op.results[index := satisfied] else op.results,
        queue := if entered == {} then op.queue + [EvaluatedJob] else op.queue)
  }

  predicate AllTrue(results: seq<bool>) {
    forall i :: 0 <= i < |results| ==> results[i]
  }

  /** `didEvaluateConditions` */
  function DidEvaluate(op: Op): Op {
    if Rank(op.life) >= Rank(Ready) then op
    else (if AllTrue(op.results) then op else CancelOp(op)).(life := Ready)
  }

  /** A block of the dispatch queue */
  function Perform(op: Op, job: Job): Op {
    match job
    case StartJob => Start(op)
    case ConditionJob(index, satisfied) => Leave(op, index, satisfied)
    case EvaluatedJob => DidEvaluate(op)
    case CancelJob => op.(observers := Tell(op.observers, DidCancel), cancelTold := true)
    case FinishJob => op.(observers := Tell(op.observers, DidFinish), closed := true)
  }

  function RunFirst(op: Op): Op
    requires op.queue != []
  {
    Perform(op.(queue := op.queue[1..]), op.queue[0])
  }

  /** The part of `isReady` that concerns the operation itself. */
  predicate LocallyReady(op: Op) {
    op.cancelled || Rank(op.life) >= Rank(Ready)
  }

  /** When a section may run, as far as the operation itself decides. */
  predicate May(op: Op, act: Act) {
    match act
    case Announce => op.stage == Submitted
    case CheckReadiness(known) => op.stage == Announced && |known| == |op.conditions|
    case Complete(index, satisfied) =>
      index in op.awaiting && index < |op.known| && (op.known[index].Some? ==> op.known[index].value == satisfied)
    case RunJob => op.queue != []
    case Cancel => true
    case RequestStart => op.stage in {Submitted, Announced} && !op.startRequested && LocallyReady(op)
    case Finish(error) => op.section != NotStarted
    case RefusalFinish => op.section == Refused
    case PostFinish => op.finishOwed
    case Attach(ob) => Rank(op.life) < Rank(Executing) && ob !in op.observers
  }

  function Do(op: Op, act: Act): Op
    requires May(op, act)
  {
    match act
    case Announce => DidEnqueue(op)
    case CheckReadiness(known) => Evaluate(op, known)
    case Complete(index, satisfied) => CompleteCondition(op, index, satisfied)
    case RunJob => RunFirst(op)
    case Cancel => CancelOp(op)
    case RequestStart => op.(startRequested := true, queue := op.queue + [StartJob])
    case Finish(error) => FinishOp(op, error)
    case RefusalFinish => FinishOp(op, Some(CancelledError)).(section := Declined)
    case PostFinish => op.(finishOwed := false, queue := op.queue + [FinishJob])
    case Attach(ob) => AttachObserver(op, ob)
  }

  /** The value handed to the `state` setter by a section, if it calls the setter. */
  function Assigns(op: Op, act: Act): Option<Life>
    requires May(op, act)
  {
    match act
    case Announce => if op.life == Initialized then Some(Pending) else None
    case CheckReadiness(_) =>
      if op.life != Pending || op.cancelled then None
      else if op.conditions == [] then Some(Ready) else Some(Evaluating)
    case RunJob =>
      (match op.queue[0]
       case StartJob => if op.cancelled then None else Some(Executing)
       case EvaluatedJob => if Rank(op.life) < Rank(Ready) then Some(Ready) else None
       case _ => None)
    case Finish(_) => if op.life == Finished then None else Some(Finished)
    case RefusalFinish => if op.life == Finished then None else Some(Finished)
    case _ => None
  }

  // ----- the invariant of one operation

  /** Start, cancel and finish blocks are posted at most once, and cancellation never after finish. */
  ghost predicate Orderly(queue: seq<Job>) {
    forall i, j :: 0 <= i < j < |queue| ==>
      && (queue[i] == queue[j] ==> queue[i].ConditionJob? || queue[i] == EvaluatedJob)
      && (queue[i] == FinishJob ==> queue[j] != CancelJob)
  }

  /** A delivered result belongs to a condition still in the group, and honours a fixed verdict. */
  ghost predicate Due(job: Job, awaiting: set<nat>, entered: set<nat>, known: seq<Option<bool>>) {
    job.ConditionJob? ==>
      && job.index in entered && job.index !in awaiting && job.index < |known|
      && (known[job.index].Some? ==> known[job.index].value == job.satisfied)
  }

  /** The dispatch group: each member still owes its completion or has exactly one result queued. */
  ghost predicate GroupInv(queue: seq<Job>, awaiting: set<nat>, entered: set<nat>, known: seq<Option<bool>>) {
    && awaiting <= entered
    && (forall i :: i in entered ==> i < |known|)
    && (forall k :: 0 <= k < |queue| ==> Due(queue[k], awaiting, entered, known))
    && (forall i, j :: 0 <= i < j < |queue| && queue[i].ConditionJob? && queue[j].ConditionJob?
          ==> queue[i].index != queue[j].index)
    && (forall i :: i in entered && i !in awaiting ==>
          ConditionJob(i, true) in queue || ConditionJob(i, false) in queue)
    && (EvaluatedJob in queue ==> entered == {})
  }

  /** Results that have been stored agree with the verdicts fixed beforehand. */
  ghost predicate ResultsInv(results: seq<bool>, entered: set<nat>, known: seq<Option<bool>>) {
    |results| == |known| &&
    forall i :: 0 <= i < |results| && i !in entered && known[i].Some? ==> results[i] == known[i].value
  }

  ghost predicate StartInv(op: Op) {
    && Orderly(op.queue)
    && (StartJob in op.queue <==> op.startRequested && op.section == NotStarted)
    && (op.startRequested ==> LocallyReady(op) && op.stage in {Submitted, Announced})
    && (op.section != NotStarted ==> op.startRequested)
    && (op.section == NotStarted ==> Rank(op.life) <= Rank(Ready) && op.ending.error == None)
    && (op.section == Entered ==> op.life in {Executing, Finished})
    && (op.section in {Refused, Declined} ==> op.cancelled && op.life != Executing && op.cancelTold)
    && (op.section == Declined ==> op.life == Finished)
    && (op.stage in {Fresh, Registered} ==> op.life == Initialized)
    && (op.stage == Announced ==> op.life != Initialized)
    && (op.life in {Evaluating, Ready, Executing} ==> op.stage == Announced)
  }

  ghost predicate FinishInv(op: Op) {
    && (op.life == Finished <==> op.finishOwed || FinishJob in op.queue || op.closed)
    && (op.finishOwed ==> FinishJob !in op.queue && !op.closed)
    && (op.closed ==> FinishJob !in op.queue && CancelJob !in op.queue)
    && (CancelJob in op.queue ==> op.section == Entered && op.cancelled && !op.cancelTold)
    && (op.cancelTold ==> op.cancelled && op.section != NotStarted)
    && (op.ending.cancelled ==> op.cancelled && op.life == Finished)
  }

  ghost predicate ConditionInv(op: Op) {
    && GroupInv(op.queue, op.awaiting, op.entered, op.known)
    && ResultsInv(op.results, op.entered, op.known)
    && (op.known == [] || |op.known| == |op.conditions|)
    && (op.life in {Initialized, Pending} ==> op.known == [])
    && (EvaluatedJob in op.queue ==> op.known != [])
    && (op.life == Evaluating ==> op.known != [] && (op.entered == {} ==> EvaluatedJob in op.queue))
    && (op.life == Ready ==> op.cancelled || Satisfied(op))
    && (op.section == Entered ==> Satisfied(op))
  }

  /** Every condition was evaluated and held. */
  ghost predicate Satisfied(op: Op) {
    |op.results| == |op.conditions| && AllTrue(op.results) && op.entered == {}
  }

  /** Everything an operation has announced so far, in order. */
  function Word(op: Op): seq<Event> {
    (if op.section == Entered then [DidStart] else []) +
    (if op.cancelTold then [DidCancel] else []) +
    (if op.closed then [DidFinish] else [])
  }

  ghost predicate ObserverInv(op: Op) {
    && op.early <= op.observers.Keys
    && (forall ob :: ob in op.early ==> op.observers[ob] == Word(op))
    && (forall ob :: ob in op.observers && ob !in op.early ==>
          op.observers[ob] == if op.closed then [DidFinish] else [])
    && (op.section in {NotStarted, Entered} ==> op.early == op.observers.Keys)
  }

  ghost predicate Inv(op: Op) {
    StartInv(op) && FinishInv(op) && ConditionInv(op) && ObserverInv(op)
  }
}
