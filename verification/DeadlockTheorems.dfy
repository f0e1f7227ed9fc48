/** Where clients may depend on operations that no queue has yet, exclusivity can close a cycle; so
    the system always finishes exactly in the other modes. */
module DeadlockTheorems {
  import opened Lifecycle
  import opened Exclusivity
  import opened Scheduler
  import opened SchedulerProofs
  import opened ProgressTheorems

  /** Nothing left to do for `op` by itself: pending, and waiting for its dependencies. */
  ghost predicate Blocked(op: Op) {
    op == NewOp(op.conditions, op.dependencies).(stage := Announced, life := Pending)
  }

  /** A registered operation without any other step yet is given to the base class and announced. */
  lemma ToBlocked(mode: Mode, s: Sys, id: OpId) returns (t: Sys)
    requires Reachable(mode, s) && id in s.ops
    requires s.ops[id] == NewOp(s.ops[id].conditions, s.ops[id].dependencies).(stage := Registered)
    ensures Reachable(mode, t) && id in t.ops && Blocked(t.ops[id])
    ensures t == s.(ops := s.ops[id := t.ops[id]]) && t.ops[id].dependencies == s.ops[id].dependencies
  {
    ReachableStep(mode, s, Submit(id));
    t := Apply(mode, s, Submit(id));
    ReachableStep(mode, t, Local(id, Announce));
    t := Apply(mode, t, Local(id, Announce));
  }

  /** Two new operations of one category, the first told to depend on the second. */
  lemma DependOnLater(mode: Mode, c: string) returns (s: Sys)
    ensures Reachable(mode, s) && s.order == [] && s.lists == map[]
    ensures s.ops == map[0 := NewOp([MutuallyExclusive(c)], {1}), 1 := NewOp([MutuallyExclusive(c)], {})]
  {
    ReachableInitial(mode);
    ReachableStep(mode, INITIAL, Create(0, [MutuallyExclusive(c)]));
    s := Apply(mode, INITIAL, Create(0, [MutuallyExclusive(c)]));
    ReachableStep(mode, s, Create(1, [MutuallyExclusive(c)]));
    s := Apply(mode, s, Create(1, [MutuallyExclusive(c)]));
    ReachableStep(mode, s, Depend(0, 1));
    s := Apply(mode, s, Depend(0, 1));
    assert {} + {1} == {1};
  }

  /** An operation of one category is registered. */
  lemma Registration(mode: Mode, s: Sys, id: OpId, c: string, dependencies: set<OpId>) returns (t: Sys)
    requires !mode.dependsOnEarlier && Reachable(mode, s) && id in s.ops
    requires s.ops[id] == NewOp([MutuallyExclusive(c)], dependencies)
    ensures Reachable(mode, t) && t.order == s.order + [id] && t.lists == Added(s.lists, id, {c})
    ensures t.ops == s.ops[id := NewOp([MutuallyExclusive(c)], dependencies + Tails(s.lists, {c})).(stage := Registered)]
  {
    var conditions := [MutuallyExclusive(c)];
    assert MutuallyExclusive(c) in conditions;
    assert Categories(conditions) == {c};
    ReachableStep(mode, s, Register(id));
    t := Apply(mode, s, Register(id));
  }

  /** The first is registered first, so the second is made to wait for it. */
  lemma CloseCycle(mode: Mode, s: Sys, c: string) returns (t: Sys)
    requires !mode.dependsOnEarlier && Reachable(mode, s) && s.order == [] && s.lists == map[]
    requires s.ops == map[0 := NewOp([MutuallyExclusive(c)], {1}), 1 := NewOp([MutuallyExclusive(c)], {})]
    ensures Reachable(mode, t) && t.order == [0, 1] && t.ops.Keys == {0, 1}
    ensures t.ops[0] == NewOp([MutuallyExclusive(c)], {1}).(stage := Registered)
    ensures t.ops[1] == NewOp([MutuallyExclusive(c)], {0}).(stage := Registered)
  {
    NoTails(c);
    var first := Registration(mode, s, 0, c, {1});
    OneTail(0, c);
    t := Registration(mode, first, 1, c, {});
  }

  lemma NoTails(c: string)
    ensures {1} + Tails(map[], {c}) == {1}
  {
  }

  lemma OneTail(id: OpId, c: string)
    ensures {} + Tails(Added(map[], id, {c}), {c}) == {id}
  {
    assert Queued(Added(map[], id, {c}), c) == [id];
  }

  /** Each of two registered operations waits for the other, and the system owes nothing. */
  lemma LaterDependencyDeadlocks(mode: Mode) returns (s: Sys)
    requires !mode.dependsOnEarlier
    ensures Reachable(mode, s) && AtRest(mode, s)
    ensures s.order == [0, 1] && s.ops.Keys == {0, 1}
    ensures s.ops[0].dependencies == {1} && s.ops[1].dependencies == {0}
    ensures forall id :: id in s.order ==> s.ops[id].life == Pending
  {
    s := DependOnLater(mode, "category");
    s := CloseCycle(mode, s, "category");
    s := ToBlocked(mode, s, 0);
    s := ToBlocked(mode, s, 1);
    forall step | Enabled(mode, s, step)
      ensures !Progress(s, step)
    {
      if step.Local? {
        assert 0 in s.ops[1].dependencies && 1 in s.ops[0].dependencies;
        assert Blocked(s.ops[step.id]);
      }
    }
  }

  /** In every reachable state at rest all registered operations have finished, exactly when clients
      depend only on operations already given to a queue. */
  lemma ProgressExactly(mode: Mode)
    ensures (forall s :: Reachable(mode, s) && AtRest(mode, s) ==> AllFinished(s)) <==> mode.dependsOnEarlier
  {
    if mode.dependsOnEarlier {
      forall s | Reachable(mode, s) && AtRest(mode, s)
        ensures AllFinished(s)
      {
        assert Legal(mode, s, []) && ProgressRun(mode, s, []);
        EverythingFinishes(mode, s, []);
      }
    } else {
      var s := LaterDependencyDeadlocks(mode);
      assert 0 in s.order;
    }
  }
}
