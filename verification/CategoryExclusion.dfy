/**
 Exclusion one category at a time: whatever is cancelled elsewhere, a category whose own operations are
 cancelled only when they no longer wait keeps its order.
 */
module CategoryExclusion {
  import opened Lifecycle
  import opened LifecycleProofs
  import opened Exclusivity
  import opened Scheduler
  import opened SchedulerProofs
  import opened ExclusionTheorems

  /** No operation of the category is cancelled while it waits, where cancelling would let it overtake. */
  ghost predicate Patient(mode: Mode, s: Sys, step: Step, c: string) {
    mode.dropsOnCancel && step.Local? && step.act == Cancel && Has(s.ops, step.id, c) && !s.ops[step.id].cancelled ==>
      s.ops[step.id].stage != Fresh && DependenciesFinished(s.ops, step.id)
  }

  ghost predicate PatientRun(mode: Mode, s: Sys, steps: seq<Step>, c: string)
    requires Legal(mode, s, steps)
    decreases |steps|
  {
    steps != [] ==> Patient(mode, s, steps[0], c) && PatientRun(mode, Apply(mode, s, steps[0]), steps[1..], c)
  }

  /** An operation that was started, or was cancelled where that counts, does not wait. */
  ghost predicate Settled(mode: Mode, ops: Ops, id: OpId)
    requires id in ops
  {
    && (ops[id].startRequested ==> DependenciesFinished(ops, id))
    && (mode.dropsOnCancel && ops[id].cancelled ==> ops[id].stage != Fresh && DependenciesFinished(ops, id))
  }

  ghost predicate CategoryInv(mode: Mode, ops: Ops, c: string) {
    forall id :: Has(ops, id, c) ==> Settled(mode, ops, id)
  }

  lemma EvolvedSettled(mode: Mode, ops: Ops, id: OpId, op: Op, c: string)
    requires CategoryInv(mode, ops, c) && id in ops && Evolves(ops[id], op)
    requires Has(ops, id, c) ==> Settled(mode, ops[id := op], id)
    ensures CategoryInv(mode, ops[id := op], c)
  {
    var after := ops[id := op];
    forall other | Has(after, other, c)
      ensures Settled(mode, after, other)
    {
      assert Has(ops, other, c);
      EvolveKeepsFinished(ops, id, op, other);
    }
  }

  lemma LocalSettled(mode: Mode, s: Sys, id: OpId, act: Act, c: string)
    requires SysInv(mode, s) && Enabled(mode, s, Local(id, act)) && Patient(mode, s, Local(id, act), c)
    requires CategoryInv(mode, s.ops, c)
    ensures CategoryInv(mode, Apply(mode, s, Local(id, act)).ops, c)
  {
    var op := Do(s.ops[id], act);
    assert Inv(s.ops[id]);
    ActCauses(s.ops[id], act);
    ActEvolves(s.ops[id], act);
    EvolveKeepsFinished(s.ops, id, op, id);
    EvolvedSettled(mode, s.ops, id, op, c);
  }

  lemma DraftSettled(mode: Mode, ops: Ops, order: seq<OpId>, id: OpId, op: Op, c: string)
    requires CategoryInv(mode, ops, c) && Draft(ops, order, id, op)
    requires Has(ops[id := op], id, c) ==> !op.startRequested && (mode.dropsOnCancel ==> !op.cancelled)
    ensures CategoryInv(mode, ops[id := op], c)
  {
    var after := ops[id := op];
    forall other | Has(after, other, c)
      ensures Settled(mode, after, other)
    {
      if other != id {
        assert Has(ops, other, c);
        DraftKeepsFinished(ops, order, id, op, other);
      }
    }
  }

  lemma RegisterSettled(mode: Mode, s: Sys, id: OpId, c: string)
    requires SysInv(mode, s) && Enabled(mode, s, Register(id)) && CategoryInv(mode, s.ops, c)
    ensures CategoryInv(mode, Apply(mode, s, Register(id)).ops, c)
  {
    var after := Apply(mode, s, Register(id)).ops;
    assert Inv(s.ops[id]);
    forall other | Has(after, other, c)
      ensures Settled(mode, after, other)
    {
      assert Has(s.ops, other, c);
      if other != id {
        RegisterKeepsFinished(s.ops, s.lists, id, other);
      }
    }
  }

  lemma DependSettled(mode: Mode, s: Sys, id: OpId, dependency: OpId, c: string)
    requires SysInv(mode, s) && Enabled(mode, s, Depend(id, dependency)) && CategoryInv(mode, s.ops, c)
    ensures CategoryInv(mode, Apply(mode, s, Depend(id, dependency)).ops, c)
  {
    assert Inv(s.ops[id]);
    assert Has(s.ops, id, c) ==> Settled(mode, s.ops, id);
    DraftSettled(mode, s.ops, s.order, id, s.ops[id].(dependencies := s.ops[id].dependencies + {dependency}), c);
  }

  lemma StepSettled(mode: Mode, s: Sys, step: Step, c: string)
    requires SysInv(mode, s) && Enabled(mode, s, step) && Patient(mode, s, step, c) && CategoryInv(mode, s.ops, c)
    ensures CategoryInv(mode, Apply(mode, s, step).ops, c)
  {
    match step
    case Create(id, conditions) =>
      NewOpInv(conditions, {});
      DraftSettled(mode, s.ops, s.order, id, NewOp(conditions, {}), c);
    case Depend(id, dependency) => DependSettled(mode, s, id, dependency, c);
    case Register(id) => RegisterSettled(mode, s, id, c);
    case Submit(id) =>
      var op := s.ops[id].(stage := Submitted);
      EvolveKeepsFinished(s.ops, id, op, id);
      EvolvedSettled(mode, s.ops, id, op, c);
    case Local(id, act) => LocalSettled(mode, s, id, act, c);
    case Release(_) =>
  }

  lemma {:induction false} RunSettled(mode: Mode, s: Sys, steps: seq<Step>, c: string)
    requires SysInv(mode, s) && Legal(mode, s, steps) && PatientRun(mode, s, steps, c) && CategoryInv(mode, s.ops, c)
    ensures CategoryInv(mode, Exec(mode, s, steps).ops, c)
    decreases |steps|
  {
    if steps != [] {
      StepSettled(mode, s, steps[0], c);
      StepKeepsInv(mode, s, steps[0]);
      RunSettled(mode, Apply(mode, s, steps[0]), steps[1..], c);
    }
  }

  /**
   In every mode: along a run that cancels no waiting operation of `c`, whatever happens to other
   categories, an operation of `c` starts only after all registered before it in `c` have finished.
   */
  lemma CategoryStartsInOrder(mode: Mode, steps: seq<Step>, i: nat, j: nat, c: string)
    requires Legal(mode, INITIAL, steps) && PatientRun(mode, INITIAL, steps, c)
    requires var t := Exec(mode, INITIAL, steps);
      i < j < |t.order| && Has(t.ops, t.order[i], c) && Has(t.ops, t.order[j], c) && t.ops[t.order[j]].startRequested
    ensures var t := Exec(mode, INITIAL, steps); t.ops[t.order[i]].life == Finished
  {
    ReachableInitial(mode);
    ReachableInv(mode, INITIAL);
    RunSettled(mode, INITIAL, steps, c);
    RunKeepsInv(mode, INITIAL, steps);
    var t := Exec(mode, INITIAL, steps);
    FinishedStarted(t.ops);
    WaitsInOrder(t.ops, t.order, i, j, c);
  }

  /** So no two operations of the category execute together. */
  lemma CategoryExcludes(mode: Mode, steps: seq<Step>, a: OpId, b: OpId, c: string)
    requires Legal(mode, INITIAL, steps) && PatientRun(mode, INITIAL, steps, c)
    requires var t := Exec(mode, INITIAL, steps);
      a != b && Has(t.ops, a, c) && Has(t.ops, b, c) && t.ops[a].life == Executing
    ensures Exec(mode, INITIAL, steps).ops[b].life != Executing
  {
    var t := Exec(mode, INITIAL, steps);
    ReachableInitial(mode);
    ReachableInv(mode, INITIAL);
    RunKeepsInv(mode, INITIAL, steps);
    if t.ops[b].life == Executing {
      var i := PlaceOf(mode, t, a);
      var j := PlaceOf(mode, t, b);
      if i < j {
        CategoryStartsInOrder(mode, steps, i, j, c);
      } else {
        CategoryStartsInOrder(mode, steps, j, i, c);
      }
    }
  }
}
