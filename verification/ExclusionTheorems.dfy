/** When operations that share a category exclude each other, and when they do not. */
module ExclusionTheorems {
  import opened Options
  import opened Lifecycle
  import opened LifecycleProofs
  import opened Exclusivity
  import opened Scheduler
  import opened SchedulerProofs

  // ----- mutual exclusion

  /** No two operations that share a category execute together. */
  ghost predicate Exclusive(s: Sys) {
    forall a, b, c :: a in s.ops && b in s.ops && a != b && Has(s.ops, a, c) && Has(s.ops, b, c) ==>
      !(s.ops[a].life == Executing && s.ops[b].life == Executing)
  }

  /** Operations of a category start only after their dependencies. */
  ghost predicate StartsAfter(ops: Ops, c: string) {
    forall id :: Has(ops, id, c) && ops[id].startRequested ==> DependenciesFinished(ops, id)
  }

  lemma {:induction false} WaitsInOrder(ops: Ops, order: seq<OpId>, i: nat, j: nat, c: string)
    requires WaitInv(ops, order) && StartsAfter(ops, c)
    requires forall id :: id in ops && ops[id].life == Finished ==> ops[id].startRequested
    requires i < j < |order| && Has(ops, order[i], c) && Has(ops, order[j], c)
    requires ops[order[j]].startRequested
    ensures ops[order[i]].life == Finished
    decreases j
  {
    assert Waits(ops, order, i, j, c);
    if ops[order[i]].life != Finished {
      var k :| i <= k < j && order[k] in ops[order[j]].dependencies && Has(ops, order[k], c);
      WaitsInOrder(ops, order, i, k, c);
    }
  }

  lemma FinishedStarted(ops: Ops)
    requires OpsInv(ops)
    ensures forall id :: id in ops && ops[id].life == Finished ==> ops[id].startRequested
  {
    forall id | id in ops && ops[id].life == Finished
      ensures ops[id].startRequested
    {
      assert Inv(ops[id]);
    }
  }

  /** Once an operation of a category has started, those registered before it have finished. */
  lemma StartsInOrder(mode: Mode, s: Sys, i: nat, j: nat, c: string)
    requires Safe(mode) && Reachable(mode, s)
    requires i < j < |s.order| && Has(s.ops, s.order[i], c) && Has(s.ops, s.order[j], c)
    requires s.ops[s.order[j]].startRequested
    ensures s.ops[s.order[i]].life == Finished
  {
    ReachableInv(mode, s);
    FinishedStarted(s.ops);
    WaitsInOrder(s.ops, s.order, i, j, c);
  }

  lemma PlaceOf(mode: Mode, s: Sys, id: OpId) returns (i: nat)
    requires SysInv(mode, s) && id in s.ops && s.ops[id].life == Executing
    ensures i < |s.order| && s.order[i] == id && s.ops[id].startRequested
  {
    assert Inv(s.ops[id]);
    assert id in s.order;
    i :| 0 <= i < |s.order| && s.order[i] == id;
  }

  lemma NotTogether(mode: Mode, s: Sys, a: OpId, b: OpId, c: string)
    requires Safe(mode) && Reachable(mode, s) && a in s.ops && b in s.ops && a != b
    requires Has(s.ops, a, c) && Has(s.ops, b, c) && s.ops[a].life == Executing
    ensures s.ops[b].life != Executing
  {
    ReachableInv(mode, s);
    if s.ops[b].life == Executing {
      var i := PlaceOf(mode, s, a);
      var j := PlaceOf(mode, s, b);
      if i < j {
        StartsInOrder(mode, s, i, j, c);
      } else {
        StartsInOrder(mode, s, j, i, c);
      }
    }
  }

  lemma SafeModesExclude(mode: Mode, s: Sys)
    requires Safe(mode) && Reachable(mode, s)
    ensures Exclusive(s)
  {
    forall a, b, c | a in s.ops && b in s.ops && a != b && Has(s.ops, a, c) && Has(s.ops, b, c)
      ensures !(s.ops[a].life == Executing && s.ops[b].life == Executing)
    {
      if s.ops[a].life == Executing {
        NotTogether(mode, s, a, b, c);
      }
    }
  }

  /** `t` is `s` except for operation `id`, whose dependencies are still finished. */
  ghost predicate Moved(s: Sys, t: Sys, id: OpId) {
    && id in s.ops && id in t.ops && t == s.(ops := s.ops[id := t.ops[id]])
    && t.ops[id].conditions == s.ops[id].conditions && DependenciesFinished(t.ops, id)
  }

  lemma DoKeepsStatic(op: Op, act: Act)
    requires May(op, act)
    ensures Do(op, act).dependencies == op.dependencies && Do(op, act).conditions == op.conditions
  {
    match act
    case RunJob => JobKeepsStatic(op);
    case Finish(_) =>
    case RefusalFinish =>
    case Complete(_, _) =>
    case CheckReadiness(_) =>
    case _ =>
  }

  lemma JobKeepsStatic(op: Op)
    requires op.queue != []
    ensures RunFirst(op).dependencies == op.dependencies && RunFirst(op).conditions == op.conditions
  {
    match op.queue[0]
    case StartJob =>
    case ConditionJob(_, _) =>
    case EvaluatedJob =>
    case CancelJob =>
    case FinishJob =>
  }

  lemma PutMoves(s: Sys, id: OpId, op: Op)
    requires id in s.ops && DependenciesFinished(s.ops, id) && s.ops[id].life != Finished
    requires op.dependencies == s.ops[id].dependencies && op.conditions == s.ops[id].conditions
    ensures Moved(s, s.(ops := s.ops[id := op]), id)
  {
  }

  lemma Advance(mode: Mode, s: Sys, id: OpId, act: Act) returns (t: Sys)
    requires Reachable(mode, s) && Enabled(mode, s, Local(id, act))
    requires DependenciesFinished(s.ops, id) && s.ops[id].life != Finished
    ensures Reachable(mode, t) && Moved(s, t, id) && t.ops[id] == Do(s.ops[id], act)
  {
    ReachableStep(mode, s, Local(id, act));
    t := Apply(mode, s, Local(id, act));
    DoKeepsStatic(s.ops[id], act);
    PutMoves(s, id, Do(s.ops[id], act));
  }

  ghost predicate Idle(op: Op) {
    op.stage == Announced && op.life == Pending && !op.cancelled && !op.startRequested && op.queue == []
  }

  /** One condition, whose positive answer is queued. */
  ghost predicate Answered(op: Op) {
    && op.stage == Announced && op.life == Evaluating && !op.cancelled && !op.startRequested
    && op.queue == [ConditionJob(0, true)] && op.entered == {0} && op.results == [false]
  }

  ghost predicate AtReady(op: Op) {
    op.stage == Announced && op.life == Ready && !op.cancelled && !op.startRequested && op.queue == []
  }

  lemma ToAnswered(mode: Mode, s: Sys, id: OpId, c: string) returns (t: Sys)
    requires Reachable(mode, s) && id in s.ops && DependenciesFinished(s.ops, id) && Idle(s.ops[id])
    requires s.ops[id].conditions == [MutuallyExclusive(c)]
    ensures Reachable(mode, t) && Moved(s, t, id) && Answered(t.ops[id])
  {
    var known := [Some(true)];
    assert Verdicts(s.ops, id, known);
    t := Advance(mode, s, id, CheckReadiness(known));
    assert t.ops[id].awaiting == Below(1) == {0};
    t := Advance(mode, t, id, Complete(0, true));
    assert t.ops[id].entered == {0};
  }

  lemma ToReady(mode: Mode, s: Sys, id: OpId) returns (t: Sys)
    requires Reachable(mode, s) && id in s.ops && DependenciesFinished(s.ops, id) && Answered(s.ops[id])
    ensures Reachable(mode, t) && Moved(s, t, id) && AtReady(t.ops[id])
  {
    var t0 := Advance(mode, s, id, RunJob);
    assert t0.ops[id].queue == [EvaluatedJob] && t0.ops[id].results == [true];
    var op := RunFirst(t0.ops[id]);
    assert AtReady(op);
    t := Advance(mode, t0, id, RunJob);
  }

  lemma ToExecuting(mode: Mode, s: Sys, id: OpId) returns (t: Sys)
    requires Reachable(mode, s) && id in s.ops && DependenciesFinished(s.ops, id) && AtReady(s.ops[id])
    ensures Reachable(mode, t) && Moved(s, t, id) && t.ops[id].life == Executing
  {
    t := Advance(mode, s, id, RequestStart);
    assert t.ops[id].queue == [StartJob];
    t := Advance(mode, t, id, RunJob);
  }

  lemma ToIdle(mode: Mode, s: Sys, id: OpId) returns (t: Sys)
    requires Reachable(mode, s) && id in s.ops && DependenciesFinished(s.ops, id)
    requires s.ops[id] == NewOp(s.ops[id].conditions, s.ops[id].dependencies).(stage := Registered)
    ensures Reachable(mode, t) && Moved(s, t, id) && Idle(t.ops[id])
  {
    ReachableStep(mode, s, Submit(id));
    var op := s.ops[id].(stage := Submitted);
    PutMoves(s, id, op);
    t := Advance(mode, s.(ops := s.ops[id := op]), id, Announce);
  }

  /** A registered operation of one category with finished dependencies can be brought to execution. */
  lemma Launch(mode: Mode, s: Sys, id: OpId, c: string) returns (t: Sys)
    requires Reachable(mode, s) && id in s.ops && DependenciesFinished(s.ops, id)
    requires s.ops[id] == NewOp([MutuallyExclusive(c)], s.ops[id].dependencies).(stage := Registered)
    ensures Reachable(mode, t) && Moved(s, t, id) && t.ops[id].life == Executing
  {
    var t1 := ToIdle(mode, s, id);
    var t2 := ToAnswered(mode, t1, id, c);
    var t3 := ToReady(mode, t2, id);
    t := ToExecuting(mode, t3, id);
  }

  /** A new operation of one category arrives. */
  lemma Introduce(mode: Mode, s: Sys, id: OpId, c: string) returns (t: Sys)
    requires Reachable(mode, s) && id !in s.ops
    ensures Reachable(mode, t) && t.lists == Added(s.lists, id, {c})
    ensures t.ops == s.ops[id := NewOp([MutuallyExclusive(c)], Tails(s.lists, {c})).(stage := Registered)]
  {
    var conditions := [MutuallyExclusive(c)];
    assert MutuallyExclusive(c) in conditions;
    assert Categories(conditions) == {c};
    ReachableStep(mode, s, Create(id, conditions));
    var t0 := Apply(mode, s, Create(id, conditions));
    ReachableStep(mode, t0, Register(id));
    t := Apply(mode, t0, Register(id));
    assert {} + Tails(s.lists, {c}) == Tails(s.lists, {c});
  }

  /** Where the base class forgets the dependencies of cancelled operations, a waiting operation
      that is cancelled finishes before what it waited for. */
  lemma CancelWaiting(mode: Mode, s: Sys, id: OpId) returns (t: Sys)
    requires mode.dropsOnCancel && mode.cancelsWaiting && Reachable(mode, s) && id in s.ops
    requires s.ops[id] == NewOp(s.ops[id].conditions, s.ops[id].dependencies).(stage := Registered)
    ensures Reachable(mode, t) && id in t.ops && t == s.(ops := s.ops[id := t.ops[id]])
    ensures t.ops[id].life == Finished && t.ops[id].conditions == s.ops[id].conditions
  {
    ReachableStep(mode, s, Submit(id));
    t := Apply(mode, s, Submit(id));
    ReachableStep(mode, t, Local(id, Cancel));
    t := Apply(mode, t, Local(id, Cancel));
    ReachableStep(mode, t, Local(id, RequestStart));
    t := Apply(mode, t, Local(id, RequestStart));
    assert t.ops[id].queue == [StartJob];
    t := RefuseCancelled(mode, t, id);
  }

  lemma RefuseCancelled(mode: Mode, s: Sys, id: OpId) returns (t: Sys)
    requires Reachable(mode, s) && id in s.ops && s.ops[id].queue == [StartJob] && s.ops[id].cancelled
    requires s.ops[id].life != Finished
    ensures Reachable(mode, t) && id in t.ops && t == s.(ops := s.ops[id := t.ops[id]])
    ensures t.ops[id].life == Finished && t.ops[id].conditions == s.ops[id].conditions
  {
    ReachableStep(mode, s, Local(id, RunJob));
    t := Apply(mode, s, Local(id, RunJob));
    ReachableStep(mode, t, Local(id, RefusalFinish));
    t := Apply(mode, t, Local(id, RefusalFinish));
  }

  /** The first operation executes and the second has been cancelled while it waited. */
  lemma FirstTwo(mode: Mode, c: string) returns (s: Sys)
    requires !Safe(mode)
    ensures Reachable(mode, s) && s.ops.Keys == {0, 1} && Queued(s.lists, c) == [0, 1]
    ensures s.ops[0].conditions == [MutuallyExclusive(c)] && s.ops[0].life == Executing && s.ops[1].life == Finished
  {
    ReachableInitial(mode);
    var s1 := Introduce(mode, INITIAL, 0, c);
    assert DependenciesFinished(s1.ops, 0);
    var s2 := Launch(mode, s1, 0, c);
    assert Queued(s2.lists, c) == [0];
    var s3 := Introduce(mode, s2, 1, c);
    s := CancelWaiting(mode, s3, 1);
  }

  /** Three operations of one category: the first executes, the second is cancelled while it waits,
      and the third, waiting only for the second, executes beside the first. */
  lemma UnsafeModesFail(mode: Mode) returns (s: Sys)
    requires !Safe(mode)
    ensures Reachable(mode, s) && !Exclusive(s)
  {
    var c := "category";
    var s4 := FirstTwo(mode, c);
    var s5 := Introduce(mode, s4, 2, c);
    assert s5.ops[2].dependencies == {1};
    assert DependenciesFinished(s5.ops, 2);
    s := Launch(mode, s5, 2, c);
    assert MutuallyExclusive(c) in s.ops[0].conditions && MutuallyExclusive(c) in s.ops[2].conditions;
    assert Has(s.ops, 0, c) && Has(s.ops, 2, c);
  }

  /** Exclusion holds in every reachable state exactly when cancelling cannot let a waiting
      operation overtake its dependencies. */
  lemma ExclusionExactly(mode: Mode)
    ensures (forall s :: Reachable(mode, s) ==> Exclusive(s)) <==> Safe(mode)
  {
    if Safe(mode) {
      forall s | Reachable(mode, s)
        ensures Exclusive(s)
      {
        SafeModesExclude(mode, s);
      }
    } else {
      var s := UnsafeModesFail(mode);
    }
  }

  // ----- the lists are cleaned up

  lemma OncePerList(order: seq<OpId>, ids: seq<OpId>, k: nat, m: nat)
    requires Sorted(order, ids) && k < m < |ids| && ids[k] in order
    ensures ids[k] != ids[m]
  {
    var i :| 0 <= i < |order| && order[i] == ids[k];
  }

  lemma WithoutRemoves(order: seq<OpId>, ids: seq<OpId>, id: OpId)
    requires Sorted(order, ids) && forall other :: other in ids ==> other in order
    ensures forall other :: other in Without(ids, id) <==> other in ids && other != id
  {
    WithoutKeeps(ids, id, order);
    if id in ids {
      var k := FirstIndex(ids, id);
      WithoutPlaces(ids, id, k);
      forall p | 0 <= p < |ids| - 1
        ensures Without(ids, id)[p] != id
      {
        assert ids[k] in order;
        if p >= k {
          OncePerList(order, ids, k, p + 1);
        }
      }
    } else {
      WithoutAbsent(ids, id);
    }
  }

  /** A finish callback takes its operation, and no other, out of every list. */
  lemma ReleaseExactly(mode: Mode, s: Sys, id: OpId, c: string)
    requires Reachable(mode, s) && Enabled(mode, s, Release(id))
    ensures var after := Apply(mode, s, Release(id)).lists;
      forall other :: other in Queued(after, c) <==> other in Queued(s.lists, c) && other != id
  {
    ReachableInv(mode, s);
    RemovedQueue(s.lists, id, Categories(s.ops[id].conditions), c);
    WithoutRemoves(s.order, Queued(s.lists, c), id);
  }

  ghost predicate NoEmptyList(lists: Lists) {
    forall c :: c in lists ==> lists[c] != []
  }

  lemma {:induction false} RunNoEmptyList(mode: Mode, s: Sys, steps: seq<Step>)
    requires NoEmptyList(s.lists) && Legal(mode, s, steps)
    ensures NoEmptyList(Exec(mode, s, steps).lists)
    decreases |steps|
  {
    if steps != [] {
      RunNoEmptyList(mode, Apply(mode, s, steps[0]), steps[1..]);
    }
  }

  /** No reachable state keeps an empty list, so when every operation is out of the lists there is none. */
  lemma NothingLeftBehind(mode: Mode, s: Sys)
    requires Reachable(mode, s)
    ensures NoEmptyList(s.lists)
    ensures (forall c, id :: id !in Queued(s.lists, c)) <==> s.lists == map[]
  {
    var steps :| Legal(mode, INITIAL, steps) && Exec(mode, INITIAL, steps) == s;
    RunNoEmptyList(mode, INITIAL, steps);
    if s.lists != map[] {
      var c :| c in s.lists;
      assert s.lists[c][0] in Queued(s.lists, c);
    }
  }
}
