/**
 The class of ios/Operations/AsyncOperation.swift: fields that are changed under the operation
 lock.  Every method is one critical section, or one block of the dispatch queue, and is proved
 to do what the section of that name in Lifecycle.dfy does to the record of all fields and to keep
 the invariant.  The state is assigned only through its setter, whose assertion is a precondition.
 */
module AsyncOperations {
  import opened Options
  import opened Lifecycle
  import opened LifecycleProofs

  class AsyncOperation {
    var life: Life
    var isCancelled: bool
    var error: Option<Failure>
    const conditions: seq<Condition>
    var dependencies: set<OpId>
    var dispatchQueue: seq<Job>
    var stage: Stage
    var startRequested: bool
    var section: Section
    var known: seq<Option<bool>>
    var awaiting: set<nat>
    var entered: set<nat>
    var results: seq<bool>
    var finishOwed: bool
    var observers: map<ObserverId, seq<Event>>
    var early: set<ObserverId>
    var cancelTold: bool
    var closed: bool
    var endedCancelled: bool

    ghost function View(): Op
      reads this
    {
      Op(life, isCancelled, Ending(error, endedCancelled), conditions, dependencies, dispatchQueue, stage, startRequested, section,
         known, awaiting, entered, results, finishOwed, observers, early, cancelTold, closed)
    }

    constructor (conditions: seq<Condition>, dependencies: set<OpId>)
      ensures View() == NewOp(conditions, dependencies) && Inv(View())
    {
      life, isCancelled, error := Initialized, false, None;
      this.conditions, this.dependencies := conditions, dependencies;
      dispatchQueue, stage, startRequested, section := [], Fresh, false, NotStarted;
      known, awaiting, entered, results := [], {}, {}, [];
      finishOwed, observers, early, cancelTold, closed, endedCancelled := false, map[], {}, false, false, false;
      new;
      NewOpInv(conditions, dependencies);
    }

    method AddDependency(dependency: OpId)
      modifies this
      ensures View() == old(View()).(dependencies := old(dependencies) + {dependency})
      ensures old(Inv(View())) ==> Inv(View())
    {
      dependencies := dependencies + {dependency};
    }

    /** The setter of `state` with its assertion. */
    method SetState(next: Life)
      requires Rank(life) < Rank(next)
      modifies this`life
      ensures life == next
    {
      life := next;
    }

    method DidEnqueue()
      requires Inv(View()) && May(View(), Announce)
      modifies this
      ensures View() == Do(old(View()), Announce) && Inv(View())
    {
      ActKeepsInv(View(), Announce);
      stage := Announced;
      if life != Initialized {
        return;
      }
      SetState(Pending);
    }

    /** `checkReadiness` with `superIsReady` as the answer of the base class, and `evaluateConditions`. */
    method CheckReadiness(superIsReady: bool, verdicts: seq<Option<bool>>)
      requires Inv(View()) && May(View(), Act.CheckReadiness(verdicts))
      modifies this
      ensures View() == if superIsReady then Do(old(View()), Act.CheckReadiness(verdicts)) else old(View())
      ensures Inv(View())
    {
      ActKeepsInv(View(), Act.CheckReadiness(verdicts));
      if life == Pending && !isCancelled && superIsReady {
        if conditions == [] {
          SetState(Ready);
        } else {
          BeginEvaluation(verdicts);
        }
      }
    }

    method BeginEvaluation(verdicts: seq<Option<bool>>)
      requires Rank(life) < Rank(Evaluating)
      modifies this
      ensures View() == Lifecycle.BeginEvaluation(old(View()), verdicts)
    {
      SetState(Evaluating);
      EvaluateConditions(verdicts);
    }

    /** Every condition is asked, and owes its answer. */
    method EvaluateConditions(verdicts: seq<Option<bool>>)
      modifies this`known, this`results, this`entered, this`awaiting
      ensures known == verdicts && results == Blank(|conditions|)
      ensures entered == awaiting == Below(|conditions|)
    {
      known, results := verdicts, Blank(|conditions|);
      entered := EnterGroup();
      awaiting := entered;
    }

    /** Each condition enters the dispatch group. */
    method EnterGroup() returns (group: set<nat>)
      ensures group == Below(|conditions|)
    {
      group := {};
      for index := 0 to |conditions|
        invariant group == Below(index)
      {
        group := group + {index};
      }
    }

    method CompleteCondition(index: nat, satisfied: bool)
      requires Inv(View()) && May(View(), Complete(index, satisfied))
      modifies this
      ensures View() == Do(old(View()), Complete(index, satisfied)) && Inv(View())
    {
      ActKeepsInv(View(), Complete(index, satisfied));
      awaiting := awaiting - {index};
      dispatchQueue := dispatchQueue + [ConditionJob(index, satisfied)];
    }

    /** `start` posts the block that runs `_start`. */
    method RequestStart()
      requires Inv(View()) && May(View(), Act.RequestStart)
      modifies this
      ensures View() == Do(old(View()), Act.RequestStart) && Inv(View())
    {
      ActKeepsInv(View(), Act.RequestStart);
      startRequested := true;
      dispatchQueue := dispatchQueue + [StartJob];
    }

    method Cancel()
      requires Inv(View())
      modifies this
      ensures View() == Do(old(View()), Act.Cancel) && Inv(View())
    {
      ActKeepsInv(View(), Act.Cancel);
      MarkCancelled();
    }

    /** What `cancel` does under the lock. */
    method MarkCancelled()
      modifies this
      ensures View() == CancelOp(old(View()))
    {
      if !isCancelled {
        isCancelled := true;
        if life == Executing {
          dispatchQueue := dispatchQueue + [CancelJob];
        }
      }
    }

    /** `finish` as far as it runs at once. */
    method FinishWith(failure: Option<Failure>) returns (won: bool)
      requires Inv(View()) && May(View(), Finish(failure))
      modifies this
      ensures View() == Do(old(View()), Finish(failure)) && Inv(View())
      ensures won <==> old(life) != Finished
    {
      ActKeepsInv(View(), Finish(failure));
      won := TryFinish(failure);
    }

    /** The call of `finish` at the end of a `_start` that refused to run. */
    method FinishRefused() returns (won: bool)
      requires Inv(View()) && May(View(), RefusalFinish)
      modifies this
      ensures View() == Do(old(View()), RefusalFinish) && Inv(View())
      ensures won <==> old(life) != Finished
    {
      ActKeepsInv(View(), RefusalFinish);
      won := TryFinish(Some(CancelledError));
      section := Declined;
    }

    method TryFinish(failure: Option<Failure>) returns (won: bool)
      modifies this
      ensures View() == FinishOp(old(View()), failure)
      ensures won <==> old(life) != Finished
    {
      if Rank(life) >= Rank(Finished) {
        return false;
      }
      RecordEnding(failure);
      SetState(Finished);
      return true;
    }

    method RecordEnding(failure: Option<Failure>)
      modifies this`error, this`endedCancelled, this`finishOwed
      ensures error == failure && endedCancelled == isCancelled && finishOwed
    {
      error, endedCancelled, finishOwed := failure, isCancelled, true;
    }

    /** The asynchronous half of `finish`. */
    method PostFinish()
      requires Inv(View()) && May(View(), Act.PostFinish)
      modifies this
      ensures View() == Do(old(View()), Act.PostFinish) && Inv(View())
    {
      ActKeepsInv(View(), Act.PostFinish);
      finishOwed := false;
      dispatchQueue := dispatchQueue + [FinishJob];
    }

    method AddObserver(observer: ObserverId)
      requires Inv(View()) && May(View(), Attach(observer))
      modifies this
      ensures View() == Do(old(View()), Attach(observer)) && Inv(View())
    {
      ActKeepsInv(View(), Attach(observer));
      observers := observers[observer := []];
      if section == NotStarted {
        early := early + {observer};
      }
    }

    /** Every observer is told, in some order, once. */
    method Notify(event: Event)
      modifies this`observers
      ensures observers == Tell(old(observers), event)
    {
      var remaining := observers.Keys;
      while remaining != {}
        invariant remaining <= old(observers).Keys == observers.Keys
        invariant forall ob :: ob in observers ==>
                    observers[ob] == old(observers)[ob] + if ob in remaining then [] else [event]
        decreases remaining
      {
        var ob :| ob in remaining;
        observers := observers[ob := observers[ob] + [event]];
        remaining := remaining - {ob};
      }
    }

    method TellCancel()
      modifies this`observers, this`cancelTold
      ensures observers == Tell(old(observers), DidCancel) && cancelTold
    {
      Notify(DidCancel);
      cancelTold := true;
    }

    method TellFinish()
      modifies this`observers, this`closed
      ensures observers == Tell(old(observers), DidFinish) && closed
    {
      Notify(DidFinish);
      closed := true;
    }

    /** `_start` up to the call of `main`, respectively of `finish`. */
    method StartSection()
      requires isCancelled || Rank(life) < Rank(Executing)
      modifies this
      ensures View() == Start(old(View()))
    {
      if isCancelled {
        TellCancel();
        section := Refused;
      } else {
        SetState(Executing);
        Notify(DidStart);
        section := Entered;
      }
    }

    method StoreResult(index: nat, satisfied: bool)
      modifies this
      ensures View() == Leave(old(View()), index, satisfied)
    {
      if index < |results| {
        results := results[index := satisfied];
      }
      entered := entered - {index};
      if entered == {} {
        dispatchQueue := dispatchQueue + [EvaluatedJob];
      }
    }

    method DidEvaluateConditions()
      modifies this
      ensures View() == DidEvaluate(old(View()))
    {
      if Rank(life) >= Rank(Ready) {
        return;
      }
      var conditionsSatisfied := true;
      for index := 0 to |results|
        invariant conditionsSatisfied <==> AllTrue(results[..index])
      {
        assert results[..index + 1] == results[..index] + [results[index]];
        conditionsSatisfied := conditionsSatisfied && results[index];
      }
      assert results[..|results|] == results;
      if !conditionsSatisfied {
        MarkCancelled();
      }
      SetState(Ready);
    }

    /** The dispatch queue runs its oldest block. */
    method RunBlock()
      requires Inv(View()) && May(View(), RunJob)
      modifies this
      ensures View() == Do(old(View()), RunJob) && Inv(View())
    {
      ActKeepsInv(View(), RunJob);
      StartBlockIsEarly(View());
      RunOldest();
    }

    method RunOldest()
      requires dispatchQueue != [] && (dispatchQueue[0].StartJob? ==> Rank(life) < Rank(Executing))
      modifies this
      ensures View() == RunFirst(old(View()))
    {
      var job := dispatchQueue[0];
      dispatchQueue := dispatchQueue[1..];
      Execute(job);
    }

    method Execute(job: Job)
      requires job.StartJob? ==> Rank(life) < Rank(Executing)
      modifies this
      ensures View() == Perform(old(View()), job)
    {
      match job {
        case StartJob => StartSection();
        case ConditionJob(index, satisfied) => StoreResult(index, satisfied);
        case EvaluatedJob => DidEvaluateConditions();
        case CancelJob => TellCancel();
        case FinishJob => TellFinish();
      }
    }
  }

  /** A start block that still waits finds the operation not yet executing. */
  lemma StartBlockIsEarly(op: Op)
    requires Inv(op) && op.queue != []
    ensures op.queue[0].StartJob? ==> Rank(op.life) < Rank(Executing)
  {
    assert op.queue[0] in op.queue;
  }
}
