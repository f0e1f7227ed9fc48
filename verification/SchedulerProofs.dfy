/** Every step of the transition system keeps its invariant. */
module SchedulerProofs {
  import opened Options
  import opened Lifecycle
  import opened LifecycleProofs
  import opened Exclusivity
  import opened Scheduler

  // ----- one operation evolves

  /** What the new state of `id` must justify beyond its own invariant. */
  ghost predicate Justified(mode: Mode, ops: Ops, id: OpId, op: Op)
    requires id in ops
  {
    var was := ops[id];
    && (was.known == [] && op.known != [] ==> DependenciesFinished(ops, id) && Verdicts(ops, id, op.known))
    && (Safe(mode) && !was.startRequested && op.startRequested ==> DependenciesFinished(ops, id))
    && (Safe(mode) && mode.dropsOnCancel && !was.cancelled && op.cancelled ==>
          was.stage != Fresh && DependenciesFinished(ops, id))
  }

  lemma EvolveKeepsOrder(mode: Mode, ops: Ops, order: seq<OpId>, id: OpId, op: Op)
    requires OrderInv(ops, order) && EarlierInv(mode, ops, order) && id in ops && Evolves(ops[id], op)
    ensures OrderInv(ops[id := op], order) && EarlierInv(mode, ops[id := op], order)
  {
  }

  lemma EvolveKeepsLists(ops: Ops, order: seq<OpId>, lists: Lists, id: OpId, op: Op)
    requires ListInv(ops, order, lists) && WaitInv(ops, order) && id in ops && Evolves(ops[id], op)
    ensures ListInv(ops[id := op], order, lists) && WaitInv(ops[id := op], order)
  {
    var after := ops[id := op];
    assert forall other, c :: Has(after, other, c) <==> Has(ops, other, c);
    forall i, j, c | 0 <= i < j < |order| && Has(after, order[i], c) && Has(after, order[j], c)
      ensures Waits(after, order, i, j, c)
    {
      assert Waits(ops, order, i, j, c);
      if ops[order[i]].life != Finished {
        var k :| i <= k < j && order[k] in ops[order[j]].dependencies && Has(ops, order[k], c);
        assert Has(after, order[k], c);
      }
    }
  }

  lemma EvolveKeepsFinished(ops: Ops, id: OpId, op: Op, other: OpId)
    requires id in ops && Evolves(ops[id], op) && other in ops
    ensures DependenciesFinished(ops, other) ==> DependenciesFinished(ops[id := op], other)
    ensures CleanDependencies(ops, other) ==> CleanDependencies(ops[id := op], other)
  {
  }

  /** A `NoFailedDependencies(false)` verdict says whether all dependencies ended cleanly. */
  lemma VerdictsClean(ops: Ops, id: OpId, known: seq<Option<bool>>)
    requires OpsInv(ops) && id in ops && DependenciesFinished(ops, id) && Verdicts(ops, id, known)
    ensures forall i :: 0 <= i < |known| && ops[id].conditions[i] == NoFailedDependencies(false) ==>
              known[i] == Some(false) || (known[i] == Some(true) && CleanDependencies(ops, id))
  {
  }

  lemma EvolveKeepsKnown(mode: Mode, ops: Ops, id: OpId, op: Op)
    requires OpsInv(ops) && KnownInv(ops) && id in ops && Inv(op) && Evolves(ops[id], op) && Justified(mode, ops, id, op)
    ensures OpsInv(ops[id := op]) && KnownInv(ops[id := op])
  {
    var after := ops[id := op];
    if ops[id].known == [] && op.known != [] {
      VerdictsClean(ops, id, op.known);
    }
    forall other | other in after && after[other].known != []
      ensures DependenciesFinished(after, other)
      ensures CleanDependencies(ops, other) ==> CleanDependencies(after, other)
    {
      EvolveKeepsFinished(ops, id, op, other);
    }
  }

  lemma EvolveKeepsStarted(mode: Mode, ops: Ops, id: OpId, op: Op)
    requires StartedInv(mode, ops) && id in ops && Evolves(ops[id], op) && Justified(mode, ops, id, op)
    ensures StartedInv(mode, ops[id := op])
  {
    forall other | other in ops
      ensures DependenciesFinished(ops, other) ==> DependenciesFinished(ops[id := op], other)
    {
      EvolveKeepsFinished(ops, id, op, other);
    }
  }

  lemma EvolveKeepsInv(mode: Mode, s: Sys, id: OpId, op: Op)
    requires SysInv(mode, s) && id in s.ops && Inv(op) && Evolves(s.ops[id], op) && Justified(mode, s.ops, id, op)
    ensures SysInv(mode, s.(ops := s.ops[id := op]))
  {
    EvolveKeepsOrder(mode, s.ops, s.order, id, op);
    EvolveKeepsLists(s.ops, s.order, s.lists, id, op);
    EvolveKeepsKnown(mode, s.ops, id, op);
    EvolveKeepsStarted(mode, s.ops, id, op);
  }

  /** Which sections begin an evaluation, request a start, or cancel. */
  lemma ActCauses(op: Op, act: Act)
    requires Inv(op) && May(op, act)
    ensures Do(op, act).known != op.known ==> act.CheckReadiness? && !op.cancelled && Do(op, act).known == act.known
    ensures Do(op, act).startRequested != op.startRequested ==> act == RequestStart
    ensures Do(op, act).cancelled != op.cancelled ==>
              act == Cancel || (act == RunJob && op.known != [] && op.stage == Announced)
  {
    if act == RunJob {
      assert op.queue[0] in op.queue;
    }
  }

  lemma SafelyReady(mode: Mode, ops: Ops, id: OpId)
    requires StartedInv(mode, ops) && id in ops && SuperReady(mode, ops, id)
    ensures Safe(mode) || !ops[id].cancelled ==> DependenciesFinished(ops, id)
  {
  }

  lemma LocalKeepsInv(mode: Mode, s: Sys, id: OpId, act: Act)
    requires SysInv(mode, s) && Enabled(mode, s, Local(id, act))
    ensures SysInv(mode, Apply(mode, s, Local(id, act)))
  {
    ActCauses(s.ops[id], act);
    if act.CheckReadiness? || act == RequestStart {
      SafelyReady(mode, s.ops, id);
    }
    ActKeepsInv(s.ops[id], act);
    ActEvolves(s.ops[id], act);
    EvolveKeepsInv(mode, s, id, Do(s.ops[id], act));
  }

  lemma SubmitKeepsInv(mode: Mode, s: Sys, id: OpId)
    requires SysInv(mode, s) && Enabled(mode, s, Submit(id))
    ensures SysInv(mode, Apply(mode, s, Submit(id)))
  {
    assert Inv(s.ops[id]);
    EvolveKeepsInv(mode, s, id, s.ops[id].(stage := Submitted));
  }

  // ----- an operation is built

  /** `op` is a new or edited operation that no queue has seen. */
  ghost predicate Draft(ops: Ops, order: seq<OpId>, id: OpId, op: Op) {
    && id !in order && (id in ops ==> ops[id].life == Initialized)
    && op.stage == Fresh && Inv(op) && op.dependencies <= ops.Keys + {id}
    && !op.startRequested && op.known == [] && op.life == Initialized
  }

  lemma DraftKeepsOrder(mode: Mode, ops: Ops, order: seq<OpId>, id: OpId, op: Op)
    requires OrderInv(ops, order) && EarlierInv(mode, ops, order) && Draft(ops, order, id, op)
    ensures OrderInv(ops[id := op], order) && EarlierInv(mode, ops[id := op], order)
  {
  }

  lemma DraftKeepsLists(ops: Ops, order: seq<OpId>, lists: Lists, id: OpId, op: Op)
    requires OrderInv(ops, order) && ListInv(ops, order, lists) && WaitInv(ops, order) && Draft(ops, order, id, op)
    ensures ListInv(ops[id := op], order, lists) && WaitInv(ops[id := op], order)
  {
    var after := ops[id := op];
    assert forall other, c :: other in order ==> (Has(after, other, c) <==> Has(ops, other, c));
    forall i, j, c | 0 <= i < j < |order| && Has(after, order[i], c) && Has(after, order[j], c)
      ensures Waits(after, order, i, j, c)
    {
      assert order[i] in order && order[j] in order;
      assert Waits(ops, order, i, j, c);
    }
  }

  lemma DraftKeepsFinished(ops: Ops, order: seq<OpId>, id: OpId, op: Op, other: OpId)
    requires Draft(ops, order, id, op) && other in ops && other != id
    ensures DependenciesFinished(ops, other) ==> DependenciesFinished(ops[id := op], other)
    ensures CleanDependencies(ops, other) ==> CleanDependencies(ops[id := op], other)
  {
  }

  lemma DraftKeepsKnown(ops: Ops, order: seq<OpId>, id: OpId, op: Op)
    requires OpsInv(ops) && KnownInv(ops) && Draft(ops, order, id, op)
    ensures OpsInv(ops[id := op]) && KnownInv(ops[id := op])
  {
    var after := ops[id := op];
    forall other | other in after && after[other].known != []
      ensures DependenciesFinished(after, other)
      ensures CleanDependencies(ops, other) ==> CleanDependencies(after, other)
    {
      DraftKeepsFinished(ops, order, id, op, other);
    }
  }

  lemma DraftKeepsStarted(mode: Mode, ops: Ops, order: seq<OpId>, id: OpId, op: Op)
    requires StartedInv(mode, ops) && Draft(ops, order, id, op)
    requires Safe(mode) && mode.dropsOnCancel ==> !op.cancelled
    ensures StartedInv(mode, ops[id := op])
  {
    forall other | other in ops && other != id
      ensures DependenciesFinished(ops, other) ==> DependenciesFinished(ops[id := op], other)
    {
      DraftKeepsFinished(ops, order, id, op, other);
    }
  }

  lemma DraftKeepsInv(mode: Mode, s: Sys, id: OpId, op: Op)
    requires SysInv(mode, s) && Draft(s.ops, s.order, id, op)
    requires Safe(mode) && mode.dropsOnCancel ==> !op.cancelled
    ensures SysInv(mode, s.(ops := s.ops[id := op]))
  {
    DraftKeepsOrder(mode, s.ops, s.order, id, op);
    DraftKeepsLists(s.ops, s.order, s.lists, id, op);
    DraftKeepsKnown(s.ops, s.order, id, op);
    DraftKeepsStarted(mode, s.ops, s.order, id, op);
  }

  lemma CreateKeepsInv(mode: Mode, s: Sys, id: OpId, conditions: seq<Condition>)
    requires SysInv(mode, s) && Enabled(mode, s, Create(id, conditions))
    ensures SysInv(mode, Apply(mode, s, Create(id, conditions)))
  {
    NewOpInv(conditions, {});
    DraftKeepsInv(mode, s, id, NewOp(conditions, {}));
  }

  lemma DependKeepsInv(mode: Mode, s: Sys, id: OpId, dependency: OpId)
    requires SysInv(mode, s) && Enabled(mode, s, Depend(id, dependency))
    ensures SysInv(mode, Apply(mode, s, Depend(id, dependency)))
  {
    var op := s.ops[id].(dependencies := s.ops[id].dependencies + {dependency});
    assert Inv(s.ops[id]);
    DraftKeepsInv(mode, s, id, op);
  }

  // ----- an operation leaves the lists

  lemma FirstIndex(ids: seq<OpId>, id: OpId) returns (k: nat)
    requires id in ids
    ensures k < |ids| && ids[k] == id && id !in ids[..k]
  {
    k := 0;
    while ids[k] != id
      invariant k < |ids| && id !in ids[..k] && id in ids[k..]
      decreases |ids| - k
    {
      k := k + 1;
    }
  }

  /** What `Without` leaves at each place. */
  lemma WithoutPlaces(ids: seq<OpId>, id: OpId, k: nat)
    requires k < |ids| && ids[k] == id && id !in ids[..k]
    ensures |Without(ids, id)| == |ids| - 1
    ensures forall p :: 0 <= p < |ids| - 1 ==> Without(ids, id)[p] == ids[if p < k then p else p + 1]
  {
    WithoutAt(ids, id, k);
  }

  lemma WithoutKeeps(ids: seq<OpId>, id: OpId, order: seq<OpId>)
    requires Sorted(order, ids)
    ensures Sorted(order, Without(ids, id))
    ensures forall other :: other in Without(ids, id) ==> other in ids
    ensures forall other :: other in ids && other != id ==> other in Without(ids, id)
  {
    if id in ids {
      var k := FirstIndex(ids, id);
      WithoutPlaces(ids, id, k);
      forall other | other in ids && other != id
        ensures other in Without(ids, id)
      {
        var p :| 0 <= p < |ids| && ids[p] == other;
        assert Without(ids, id)[if p < k then p else p - 1] == other;
      }
    } else {
      WithoutAbsent(ids, id);
    }
  }

  lemma RemovedQueue(lists: Lists, id: OpId, categories: set<string>, c: string)
    ensures Queued(Removed(lists, id, categories), c) ==
              if c in categories then Without(Queued(lists, c), id) else Queued(lists, c)
  {
  }

  /** A finished operation leaves its lists. */
  lemma ReleaseKeepsLists(ops: Ops, order: seq<OpId>, lists: Lists, id: OpId)
    requires ListInv(ops, order, lists) && id in ops && ops[id].life == Finished
    ensures ListInv(ops, order, Removed(lists, id, Categories(ops[id].conditions)))
  {
    var categories := Categories(ops[id].conditions);
    forall c
      ensures Sorted(order, Queued(Removed(lists, id, categories), c))
      ensures forall other :: other in Queued(Removed(lists, id, categories), c) ==> other in Queued(lists, c)
      ensures forall other :: other in Queued(lists, c) && other != id ==> other in Queued(Removed(lists, id, categories), c)
    {
      RemovedQueue(lists, id, categories, c);
      WithoutKeeps(Queued(lists, c), id, order);
    }
  }

  lemma ReleaseKeepsInv(mode: Mode, s: Sys, id: OpId)
    requires SysInv(mode, s) && Enabled(mode, s, Release(id))
    ensures SysInv(mode, Apply(mode, s, Release(id)))
  {
    assert Inv(s.ops[id]);
    ReleaseKeepsLists(s.ops, s.order, s.lists, id);
  }

  // ----- an operation is registered

  function Registering(ops: Ops, lists: Lists, id: OpId): Op
    requires id in ops
  {
    var op := ops[id];
    op.(stage := Registered, dependencies := op.dependencies + Tails(lists, Categories(op.conditions)))
  }

  /** `id` is about to be registered. */
  ghost predicate Candidate(ops: Ops, order: seq<OpId>, lists: Lists, id: OpId) {
    && id in ops && id !in order && ops[id].stage == Fresh
    && OrderInv(ops, order) && ListInv(ops, order, lists)
  }

  lemma TailsRegistered(ops: Ops, order: seq<OpId>, lists: Lists, categories: set<string>)
    requires ListInv(ops, order, lists)
    ensures forall d :: d in Tails(lists, categories) ==> d in order
  {
    forall d | d in Tails(lists, categories)
      ensures d in order
    {
      var c :| c in categories && Queued(lists, c) != [] && d == Queued(lists, c)[|Queued(lists, c)| - 1];
      assert d in Queued(lists, c);
    }
  }

  lemma RegisterKeepsOrder(mode: Mode, ops: Ops, order: seq<OpId>, lists: Lists, id: OpId)
    requires Candidate(ops, order, lists, id) && EarlierInv(mode, ops, order)
    requires mode.dependsOnEarlier ==> forall d :: d in ops[id].dependencies ==> d in order
    ensures OrderInv(ops[id := Registering(ops, lists, id)], order + [id])
    ensures EarlierInv(mode, ops[id := Registering(ops, lists, id)], order + [id])
  {
    TailsRegistered(ops, order, lists, Categories(ops[id].conditions));
    var longer := order + [id];
    assert longer[..|order|] == order;
    assert forall j :: 0 <= j < |order| ==> longer[j] == order[j] && longer[..j] == order[..j];
    assert forall other :: other in longer <==> other in order || other == id;
  }

  lemma PushSorted(order: seq<OpId>, ids: seq<OpId>, id: OpId)
    requires Sorted(order, ids) && id !in order && id !in ids
    ensures Sorted(order + [id], ids + [id]) && Sorted(order + [id], ids)
  {
  }

  lemma AddedQueued(ops: Ops, lists: Lists, id: OpId, c: string)
    requires id in ops
    ensures Queued(Added(lists, id, Categories(ops[id].conditions)), c) ==
      if Has(ops, id, c) then Queued(lists, c) + [id] else Queued(lists, c)
  {
  }

  lemma RegisteringHas(ops: Ops, lists: Lists, id: OpId, other: OpId, c: string)
    requires id in ops
    ensures Has(ops[id := Registering(ops, lists, id)], other, c) <==> Has(ops, other, c)
  {
  }

  lemma QueuedRegistered(ops: Ops, order: seq<OpId>, lists: Lists, id: OpId, c: string, other: OpId)
    requires Candidate(ops, order, lists, id) && other in Queued(Added(lists, id, Categories(ops[id].conditions)), c)
    ensures other in order + [id] && Has(ops, other, c)
  {
    AddedQueued(ops, lists, id, c);
    if other != id {
      assert other in Queued(lists, c);
    }
  }

  lemma RegisteredQueued(ops: Ops, order: seq<OpId>, lists: Lists, id: OpId, c: string, other: OpId)
    requires Candidate(ops, order, lists, id) && other in order + [id] && Has(ops, other, c)
    ensures other in Queued(Added(lists, id, Categories(ops[id].conditions)), c) || (other != id && ops[other].life == Finished)
  {
    AddedQueued(ops, lists, id, c);
    if other != id {
      assert other in order;
    }
  }

  lemma QueuedSorted(ops: Ops, order: seq<OpId>, lists: Lists, id: OpId, c: string)
    requires Candidate(ops, order, lists, id)
    ensures Sorted(order + [id], Queued(Added(lists, id, Categories(ops[id].conditions)), c))
  {
    AddedQueued(ops, lists, id, c);
    assert id !in Queued(lists, c);
    PushSorted(order, Queued(lists, c), id);
  }

  lemma RegisterKeepsLists(ops: Ops, order: seq<OpId>, lists: Lists, id: OpId)
    requires Candidate(ops, order, lists, id)
    ensures ListInv(ops[id := Registering(ops, lists, id)], order + [id], Added(lists, id, Categories(ops[id].conditions)))
  {
    var after, longer := ops[id := Registering(ops, lists, id)], order + [id];
    var added := Added(lists, id, Categories(ops[id].conditions));
    forall c, other | other in Queued(added, c)
      ensures other in longer && Has(after, other, c)
    {
      QueuedRegistered(ops, order, lists, id, c, other);
      RegisteringHas(ops, lists, id, other, c);
    }
    forall c, other | other in longer && Has(after, other, c)
      ensures other in Queued(added, c) || after[other].life == Finished
    {
      RegisteringHas(ops, lists, id, other, c);
      RegisteredQueued(ops, order, lists, id, c, other);
    }
    forall c
      ensures Sorted(longer, Queued(added, c))
    {
      QueuedSorted(ops, order, lists, id, c);
    }
  }

  /** The last in a category's list was registered no earlier than any unfinished operation of it. */
  lemma LastQueued(ops: Ops, order: seq<OpId>, lists: Lists, i: nat, c: string) returns (k: nat)
    requires OrderInv(ops, order) && ListInv(ops, order, lists)
    requires i < |order| && Has(ops, order[i], c) && ops[order[i]].life != Finished
    ensures i <= k < |order| && Has(ops, order[k], c)
    ensures Queued(lists, c) != [] && Queued(lists, c)[|Queued(lists, c)| - 1] == order[k]
  {
    var queued := Queued(lists, c);
    assert order[i] in order && order[i] in queued;
    var last := queued[|queued| - 1];
    assert last in queued && last in order;
    k :| 0 <= k < |order| && order[k] == last;
    var m :| 0 <= m < |queued| && queued[m] == order[i];
    assert Sorted(order, queued);
  }

  /** The newcomer waits for every unfinished operation of its categories. */
  lemma NewcomerWaits(ops: Ops, order: seq<OpId>, lists: Lists, id: OpId, i: nat, c: string)
    requires Candidate(ops, order, lists, id)
    requires i < |order| && Has(ops, order[i], c) && Has(ops, id, c)
    ensures Waits(ops[id := Registering(ops, lists, id)], order + [id], i, |order|, c)
  {
    assert order[i] in order;
    if ops[order[i]].life != Finished {
      var k := LastQueued(ops, order, lists, i, c);
      assert order[k] in order;
      assert order[k] in Tails(lists, Categories(ops[id].conditions));
      var after, longer := ops[id := Registering(ops, lists, id)], order + [id];
      assert longer[k] in after[id].dependencies && Has(after, longer[k], c);
    }
  }

  lemma RegisterKeepsWaits(ops: Ops, order: seq<OpId>, lists: Lists, id: OpId)
    requires Candidate(ops, order, lists, id) && WaitInv(ops, order)
    ensures WaitInv(ops[id := Registering(ops, lists, id)], order + [id])
  {
    var after, longer := ops[id := Registering(ops, lists, id)], order + [id];
    forall i, j, c | 0 <= i < j < |longer| && Has(after, longer[i], c) && Has(after, longer[j], c)
      ensures Waits(after, longer, i, j, c)
    {
      assert Has(ops, order[i], c);
      if j == |order| {
        NewcomerWaits(ops, order, lists, id, i, c);
      } else {
        assert Has(ops, order[j], c);
        assert Waits(ops, order, i, j, c);
        assert order[i] in order && order[j] in order;
        if ops[order[i]].life != Finished {
          var k :| i <= k < j && order[k] in ops[order[j]].dependencies && Has(ops, order[k], c);
          assert longer[k] in after[longer[j]].dependencies && Has(after, longer[k], c);
        }
      }
    }
  }

  lemma RegisterKeepsFinished(ops: Ops, lists: Lists, id: OpId, other: OpId)
    requires id in ops && other in ops && other != id
    ensures DependenciesFinished(ops, other) ==> DependenciesFinished(ops[id := Registering(ops, lists, id)], other)
    ensures CleanDependencies(ops, other) ==> CleanDependencies(ops[id := Registering(ops, lists, id)], other)
  {
  }

  lemma RegisterKeepsOps(mode: Mode, ops: Ops, order: seq<OpId>, lists: Lists, id: OpId)
    requires OpsInv(ops) && KnownInv(ops) && StartedInv(mode, ops) && Candidate(ops, order, lists, id)
    ensures var after := ops[id := Registering(ops, lists, id)];
            OpsInv(after) && KnownInv(after) && StartedInv(mode, after)
  {
    var after := ops[id := Registering(ops, lists, id)];
    TailsRegistered(ops, order, lists, Categories(ops[id].conditions));
    assert Inv(ops[id]);
    assert Inv(after[id]);
    assert after[id].known == [] && !after[id].startRequested;
    forall other | other in ops && other != id
      ensures DependenciesFinished(ops, other) ==> DependenciesFinished(after, other)
      ensures CleanDependencies(ops, other) ==> CleanDependencies(after, other)
    {
      RegisterKeepsFinished(ops, lists, id, other);
    }
  }

  lemma RegisterKeepsInv(mode: Mode, s: Sys, id: OpId)
    requires SysInv(mode, s) && Enabled(mode, s, Register(id))
    ensures SysInv(mode, Apply(mode, s, Register(id)))
  {
    RegisterKeepsOrder(mode, s.ops, s.order, s.lists, id);
    RegisterKeepsLists(s.ops, s.order, s.lists, id);
    RegisterKeepsWaits(s.ops, s.order, s.lists, id);
    RegisterKeepsOps(mode, s.ops, s.order, s.lists, id);
  }

  // ----- all steps, all runs

  lemma StepKeepsInv(mode: Mode, s: Sys, step: Step)
    requires SysInv(mode, s) && Enabled(mode, s, step)
    ensures SysInv(mode, Apply(mode, s, step))
  {
    match step
    case Create(id, conditions) => CreateKeepsInv(mode, s, id, conditions);
    case Depend(id, dependency) => DependKeepsInv(mode, s, id, dependency);
    case Register(id) => RegisterKeepsInv(mode, s, id);
    case Submit(id) => SubmitKeepsInv(mode, s, id);
    case Local(id, act) => LocalKeepsInv(mode, s, id, act);
    case Release(id) => ReleaseKeepsInv(mode, s, id);
  }

  lemma {:induction false} RunKeepsInv(mode: Mode, s: Sys, steps: seq<Step>)
    requires SysInv(mode, s) && Legal(mode, s, steps)
    ensures SysInv(mode, Exec(mode, s, steps))
    decreases |steps|
  {
    if steps != [] {
      StepKeepsInv(mode, s, steps[0]);
      RunKeepsInv(mode, Apply(mode, s, steps[0]), steps[1..]);
    }
  }

  lemma ReachableInv(mode: Mode, s: Sys)
    requires Reachable(mode, s)
    ensures SysInv(mode, s)
  {
    var steps :| Legal(mode, INITIAL, steps) && Exec(mode, INITIAL, steps) == s;
    RunKeepsInv(mode, INITIAL, steps);
  }

  lemma {:induction false} RunAppend(mode: Mode, s: Sys, steps: seq<Step>, step: Step)
    requires Legal(mode, s, steps) && Enabled(mode, Exec(mode, s, steps), step)
    ensures Legal(mode, s, steps + [step])
    ensures Exec(mode, s, steps + [step]) == Apply(mode, Exec(mode, s, steps), step)
    decreases |steps|
  {
    var all := steps + [step];
    if steps == [] {
      assert all[1..] == [];
    } else {
      assert all[1..] == steps[1..] + [step];
      RunAppend(mode, Apply(mode, s, steps[0]), steps[1..], step);
    }
  }

  lemma ReachableStep(mode: Mode, s: Sys, step: Step)
    requires Reachable(mode, s) && Enabled(mode, s, step)
    ensures Reachable(mode, Apply(mode, s, step))
  {
    var steps :| Legal(mode, INITIAL, steps) && Exec(mode, INITIAL, steps) == s;
    RunAppend(mode, INITIAL, steps, step);
  }

  lemma ReachableInitial(mode: Mode)
    ensures Reachable(mode, INITIAL)
  {
    assert Legal(mode, INITIAL, []) && Exec(mode, INITIAL, []) == INITIAL;
  }

  lemma {:induction false} ReachableRun(mode: Mode, s: Sys, steps: seq<Step>)
    requires Reachable(mode, s) && Legal(mode, s, steps)
    ensures Reachable(mode, Exec(mode, s, steps))
    decreases |steps|
  {
    if steps != [] {
      ReachableStep(mode, s, steps[0]);
      ReachableRun(mode, Apply(mode, s, steps[0]), steps[1..]);
    }
  }
}
