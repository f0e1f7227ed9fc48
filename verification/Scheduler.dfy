/**
 All operations together: the transition system whose steps are the critical sections of
 AsyncOperation, the two halves of `AsyncOperationQueue.addOperation` and the finish callback of
 the exclusivity manager, in any interleaving.
 */
module Scheduler {
  import opened Options
  import opened Lifecycle
  import opened LifecycleProofs
  import opened Exclusivity

  type Ops = map<OpId, Op>

  /** `order` records the registrations, oldest first. */
  datatype Sys = Sys(ops: Ops, lists: Lists, order: seq<OpId>)

  /** How the world around the operations behaves.
      - `dropsOnCancel`: the base class forgets the dependencies of a cancelled operation
      - `cancelsWaiting`: clients cancel operations whose dependencies are unfinished
      - `dependsOnEarlier`: clients only depend on operations already given to a queue */
  datatype Mode = Mode(dropsOnCancel: bool, cancelsWaiting: bool, dependsOnEarlier: bool)

  datatype Step =
    | Create(id: OpId, conditions: seq<Condition>)
    | Depend(id: OpId, dependency: OpId)
    | Register(id: OpId)
    | Submit(id: OpId)
    | Local(id: OpId, act: Act)
    | Release(id: OpId)

  const INITIAL := Sys(map[], map[], [])

  predicate DependenciesFinished(ops: Ops, id: OpId)
    requires id in ops
  {
    forall d :: d in ops[id].dependencies ==> d in ops && ops[d].life == Finished
  }

  /** `super.isReady` */
  predicate SuperReady(mode: Mode, ops: Ops, id: OpId)
    requires id in ops
  {
    DependenciesFinished(ops, id) || (mode.dropsOnCancel && ops[id].cancelled)
  }

  /** The closure of `NoFailedDependenciesCondition.evaluate`. */
  predicate DependencyHolds(dependency: Op, ignoreCancellations: bool) {
    var isCancellationError := dependency.ending.error == Some(CancelledError);
    if dependency.ending.error.Some? && !isCancellationError then false
    else if (dependency.cancelled || isCancellationError) && !ignoreCancellations then false
    else true
  }

  /** The verdict of a condition that answers at once; a block condition answers whenever it likes. */
  function Verdict(ops: Ops, id: OpId, condition: Condition): Option<bool>
    requires id in ops
  {
    var dependencies := ops[id].dependencies;
    match condition
    case MutuallyExclusive(_) => Some(true)
    case NoFailedDependencies(ignore) =>
      Some(forall d :: d in dependencies ==> d in ops && DependencyHolds(ops[d], ignore))
    case NoCancelledDependencies => Some(forall d :: d in dependencies ==> d in ops && !ops[d].cancelled)
    case BlockCondition => None
  }

  predicate Verdicts(ops: Ops, id: OpId, known: seq<Option<bool>>)
    requires id in ops
  {
    |known| == |ops[id].conditions| &&
    forall i :: 0 <= i < |known| ==> known[i] == Verdict(ops, id, ops[id].conditions[i])
  }

  predicate Enabled(mode: Mode, s: Sys, step: Step) {
    match step
    case Create(id, conditions) => id !in s.ops
    case Depend(id, dependency) =>
      id in s.ops && dependency in s.ops && s.ops[id].stage == Fresh
    case Register(id) =>
      id in s.ops && s.ops[id].stage == Fresh &&
      (mode.dependsOnEarlier ==> forall d :: d in s.ops[id].dependencies ==> d in s.order)
    case Submit(id) => id in s.ops && s.ops[id].stage == Registered
    case Release(id) => id in s.ops && s.ops[id].closed
    case Local(id, act) =>
      id in s.ops && May(s.ops[id], act) &&
      match act
      case CheckReadiness(known) => SuperReady(mode, s.ops, id) && Verdicts(s.ops, id, known)
      case RequestStart => SuperReady(mode, s.ops, id)
      case Cancel => mode.cancelsWaiting || (s.ops[id].stage != Fresh && DependenciesFinished(s.ops, id))
      case _ => true
  }

  function Apply(mode: Mode, s: Sys, step: Step): Sys
    requires Enabled(mode, s, step)
  {
    match step
    case Create(id, conditions) => s.(ops := s.ops[id := NewOp(conditions, {})])
    case Depend(id, dependency) =>
      s.(ops := s.ops[id := s.ops[id].(dependencies := s.ops[id].dependencies + {dependency})])
    case Register(id) =>
      var op := s.ops[id];
      var categories := Categories(op.conditions);
      Sys(s.ops[id := op.(stage := Registered, dependencies := op.dependencies + Tails(s.lists, categories))],
          Added(s.lists, id, categories), s.order + [id])
    case Submit(id) => s.(ops := s.ops[id := s.ops[id].(stage := Submitted)])
    case Release(id) => s.(lists := Removed(s.lists, id, Categories(s.ops[id].conditions)))
    case Local(id, act) => s.(ops := s.ops[id := Do(s.ops[id], act)])
  }

  // ----- runs

  ghost predicate Legal(mode: Mode, s: Sys, steps: seq<Step>)
    decreases |steps|
  {
    steps == [] ||
    (Enabled(mode, s, steps[0]) && Legal(mode, Apply(mode, s, steps[0]), steps[1..]))
  }

  ghost function Exec(mode: Mode, s: Sys, steps: seq<Step>): Sys
    requires Legal(mode, s, steps)
    decreases |steps|
  {
    if steps == [] then s else Exec(mode, Apply(mode, s, steps[0]), steps[1..])
  }

  ghost predicate Reachable(mode: Mode, s: Sys) {
    exists steps :: Legal(mode, INITIAL, steps) && Exec(mode, INITIAL, steps) == s
  }

  // ----- the invariant

  /** Modes in which `super.isReady` implies finished dependencies. */
  predicate Safe(mode: Mode) {
    !mode.dropsOnCancel || !mode.cancelsWaiting
  }

  ghost predicate Has(ops: Ops, id: OpId, category: string) {
    id in ops && category in Categories(ops[id].conditions)
  }

  ghost predicate OpsInv(ops: Ops) {
    forall id :: id in ops ==> Inv(ops[id]) && ops[id].dependencies <= ops.Keys
  }

  ghost predicate OrderInv(ops: Ops, order: seq<OpId>) {
    && (forall i, j :: 0 <= i < j < |order| ==> order[i] != order[j])
    && (forall id :: id in order <==> id in ops && ops[id].stage != Fresh)
  }

  /** `ids` follow the order of registration. */
  ghost predicate Sorted(order: seq<OpId>, ids: seq<OpId>) {
    forall k, m, i, j ::
      (0 <= k < m < |ids| && 0 <= i < |order| && 0 <= j < |order| && order[i] == ids[k] && order[j] == ids[m]) ==> i < j
  }

  ghost predicate ListInv(ops: Ops, order: seq<OpId>, lists: Lists) {
    && (forall c, id :: id in Queued(lists, c) ==> id in order && Has(ops, id, c))
    && (forall c, id :: id in order && Has(ops, id, c) ==> id in Queued(lists, c) || ops[id].life == Finished)
    && (forall c :: Sorted(order, Queued(lists, c)))
  }

  /** The j-th operation waits for the i-th, directly or through one registered between them. */
  ghost predicate Waits(ops: Ops, order: seq<OpId>, i: nat, j: nat, c: string)
    requires i < j < |order| && order[i] in ops && order[j] in ops
  {
    ops[order[i]].life == Finished ||
    exists k :: i <= k < j && order[k] in ops[order[j]].dependencies && Has(ops, order[k], c)
  }

  ghost predicate WaitInv(ops: Ops, order: seq<OpId>) {
    forall i, j, c :: 0 <= i < j < |order| && Has(ops, order[i], c) && Has(ops, order[j], c) ==>
      Waits(ops, order, i, j, c)
  }

  /** Ended by itself, without error, and not cancelled by then. */
  ghost predicate Clean(op: Op) {
    op.life == Finished && op.ending == Ending(None, false) && op.section == Entered
  }

  ghost predicate CleanDependencies(ops: Ops, id: OpId)
    requires id in ops
  {
    forall d :: d in ops[id].dependencies ==> d in ops && Clean(ops[d])
  }

  ghost predicate KnownInv(ops: Ops)
    requires OpsInv(ops)
  {
    forall id :: id in ops && ops[id].known != [] ==>
      && DependenciesFinished(ops, id)
      && (forall i :: 0 <= i < |ops[id].known| && ops[id].conditions[i] == NoFailedDependencies(false) ==>
           ops[id].known[i] == Some(false) || (ops[id].known[i] == Some(true) && CleanDependencies(ops, id)))
  }

  ghost predicate StartedInv(mode: Mode, ops: Ops) {
    Safe(mode) ==>
    forall id :: id in ops ==>
      && (ops[id].startRequested ==> DependenciesFinished(ops, id))
      && (mode.dropsOnCancel && ops[id].cancelled ==> ops[id].stage != Fresh && DependenciesFinished(ops, id))
  }

  ghost predicate EarlierInv(mode: Mode, ops: Ops, order: seq<OpId>) {
    mode.dependsOnEarlier ==>
    forall j, d :: 0 <= j < |order| && order[j] in ops && d in ops[order[j]].dependencies ==> d in order[..j]
  }

  ghost predicate SysInv(mode: Mode, s: Sys) {
    && OpsInv(s.ops) && KnownInv(s.ops) && StartedInv(mode, s.ops)
    && OrderInv(s.ops, s.order) && WaitInv(s.ops, s.order) && EarlierInv(mode, s.ops, s.order)
    && ListInv(s.ops, s.order, s.lists)
  }
}
