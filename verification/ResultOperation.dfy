/**
 Operations that produce a result (ios/Operations/ResultOperation.swift).  `base` is the inherited
 operation of Lifecycle.dfy, which goes through its own sections; any thread may submit a result at
 any time and replace the completion handler; the completion block runs later and finishes `base`.
 */
module ResultOperations {
  import opened Options
  import opened Lifecycle
  import opened LifecycleProofs
  import opened AsyncOperations

  type HandlerId = nat

  datatype Outcome<T> = Success(value: T) | Failed(failure: Failure)

  /** The block posted to the completion queue: not posted, waiting with the handler and result it
      captured, past the handler call, or past `super.finish`. */
  datatype Completion<T> =
    | NotPosted
    | Posted(handler: Option<HandlerId>, result: Outcome<T>)
    | Called(result: Outcome<T>)
    | Ended

  datatype ResultOp<T> = ResultOp(
    base: Op,
    output: Option<T>,
    handler: Option<HandlerId>,
    pendingFinish: bool,
    completion: Completion<T>,
    calls: seq<(HandlerId, Outcome<T>)>)

  function NewResultOp<T>(base: Op, handler: Option<HandlerId>): ResultOp<T> {
    ResultOp(base, None, handler, false, NotPosted, [])
  }

  /** `Inherited` is a section of the base class; `Build` is what clients and the queue do to an
      operation before it is announced. */
  datatype Move<T> =
    | Inherited(act: Act)
    | Build(stage: Stage, more: set<OpId>)
    | SetHandler(handler: Option<HandlerId>)
    | Submit(result: Outcome<T>)
    | CallHandler
    | EndOperation

  /** `finish(error:)` of the base class, rerouted; a refused `_start` calls it too. */
  function FromError<T>(error: Option<Failure>): Outcome<T> {
    Failed(if error.Some? then error.value else CancelledError)
  }

  function ErrorOf<T>(result: Outcome<T>): Option<Failure> {
    if result.Failed? then Some(result.failure) else None
  }

  function OnSetHandler<T>(op: ResultOp<T>, handler: Option<HandlerId>): ResultOp<T> {
    if op.pendingFinish then op else op.(handler := handler)
  }

  /** `_finish` under the lock */
  function OnSubmit<T>(op: ResultOp<T>, result: Outcome<T>): ResultOp<T> {
    if op.pendingFinish then op
    else op.(pendingFinish := true, handler := None,
             output := if result.Success? then Some(result.value) else op.output,
             completion := Posted(op.handler, result))
  }

  function OnCall<T>(op: ResultOp<T>): ResultOp<T>
    requires op.completion.Posted?
  {
    var Posted(handler, result) := op.completion;
    op.(calls := if handler.Some? then op.calls + [(handler.value, result)] else op.calls,
        completion := Called(result))
  }

  /** `super.finish` */
  function OnEnd<T>(op: ResultOp<T>): ResultOp<T>
    requires op.completion.Called?
  {
    op.(base := FinishOp(op.base, ErrorOf(op.completion.result)), completion := Ended)
  }

  predicate MayBuild(op: Op, stage: Stage, more: set<OpId>) {
    (op.stage == Fresh && stage in {Fresh, Registered}) || (op.stage == Registered && stage == Submitted && more == {})
  }

  predicate Can<T>(op: ResultOp<T>, move: Move<T>) {
    match move
    case Inherited(act) => !act.Finish? && !act.RefusalFinish? && May(op.base, act)
    case Build(stage, more) => MayBuild(op.base, stage, more)
    case SetHandler(_) => true
    case Submit(_) => true
    case CallHandler => op.completion.Posted?
    case EndOperation => op.completion.Called? && May(op.base, Finish(ErrorOf(op.completion.result)))
  }

  function Make<T>(op: ResultOp<T>, move: Move<T>): ResultOp<T>
    requires Can(op, move)
  {
    match move
    case Inherited(act) => op.(base := Do(op.base, act))
    case Build(stage, more) => op.(base := op.base.(stage := stage, dependencies := op.base.dependencies + more))
    case SetHandler(handler) => OnSetHandler(op, handler)
    case Submit(result) => OnSubmit(op, result)
    case CallHandler => OnCall(op)
    case EndOperation => OnEnd(op)
  }

  /** The `result` property */
  function Result<T>(op: ResultOp<T>): Option<Outcome<T>> {
    if op.output.Some? then Some(Success(op.output.value))
    else if op.base.ending.error.Some? then Some(Failed(op.base.ending.error.value))
    else None
  }

  // ----- the base operation

  ghost predicate Unfinished(op: Op) {
    Inv(op) && op.life != Finished && op.ending.error == None
  }

  ghost predicate FinishedWith(op: Op, error: Option<Failure>) {
    Inv(op) && op.life == Finished && op.ending.error == error
  }

  /** Only `finish` finishes. */
  lemma ActLeavesUnfinished(op: Op, act: Act)
    requires Unfinished(op) && May(op, act) && !act.Finish? && !act.RefusalFinish?
    ensures Unfinished(Do(op, act))
  {
    ActKeepsInv(op, act);
    if act == RunJob {
      assert op.queue[0] in op.queue;
    }
  }

  lemma ActKeepsEnd(op: Op, act: Act, error: Option<Failure>)
    requires FinishedWith(op, error) && May(op, act)
    ensures FinishedWith(Do(op, act), error)
  {
    ActKeepsInv(op, act);
    ActEvolves(op, act);
  }

  lemma BuildKeepsInv(op: Op, stage: Stage, more: set<OpId>)
    requires Inv(op) && MayBuild(op, stage, more)
    ensures Inv(op.(stage := stage, dependencies := op.dependencies + more))
  {
  }

  /** What the moves of the base class keep. */
  lemma BaseMove<T>(op: ResultOp<T>, move: Move<T>)
    requires Can(op, move) && (move.Inherited? || move.Build?)
    ensures Make(op, move) == op.(base := Make(op, move).base)
    ensures Unfinished(op.base) ==> Unfinished(Make(op, move).base)
    ensures forall error :: FinishedWith(op.base, error) ==> FinishedWith(Make(op, move).base, error)
  {
    if move.Inherited? {
      if Unfinished(op.base) {
        ActLeavesUnfinished(op.base, move.act);
      }
      forall error | FinishedWith(op.base, error)
        ensures FinishedWith(Do(op.base, move.act), error)
      {
        ActKeepsEnd(op.base, move.act, error);
      }
    } else if Inv(op.base) {
      BuildKeepsInv(op.base, move.stage, move.more);
    }
  }

  lemma EndFinishes(op: Op, error: Option<Failure>)
    requires Unfinished(op) && May(op, Finish(error))
    ensures FinishedWith(FinishOp(op, error), error)
  {
    ActKeepsInv(op, Finish(error));
  }

  // ----- runs

  predicate Playable<T>(op: ResultOp<T>, moves: seq<Move<T>>)
    decreases |moves|
  {
    moves == [] || (Can(op, moves[0]) && Playable(Make(op, moves[0]), moves[1..]))
  }

  function Play<T>(op: ResultOp<T>, moves: seq<Move<T>>): ResultOp<T>
    requires Playable(op, moves)
    decreases |moves|
  {
    if moves == [] then op else Play(Make(op, moves[0]), moves[1..])
  }

  /** The first result submitted. */
  function FirstResult<T>(moves: seq<Move<T>>): Option<Outcome<T>> {
    if moves == [] then None
    else if moves[0].Submit? then Some(moves[0].result)
    else FirstResult(moves[1..])
  }

  /** The handler in place when the first result is submitted. */
  function HandlerThen<T>(handler: Option<HandlerId>, moves: seq<Move<T>>): Option<HandlerId>
    decreases |moves|
  {
    if moves == [] || moves[0].Submit? then handler
    else HandlerThen(if moves[0].SetHandler? then moves[0].handler else handler, moves[1..])
  }

  function Deliveries<T>(handler: Option<HandlerId>, result: Outcome<T>): seq<(HandlerId, Outcome<T>)> {
    if handler.Some? then [(handler.value, result)] else []
  }

  /** After the first submission the operation is committed to one handler and one result. */
  ghost predicate Committed<T>(op: ResultOp<T>, handler: Option<HandlerId>, result: Outcome<T>) {
    && op.pendingFinish && op.handler == None
    && op.output == (if result.Success? then Some(result.value) else None)
    && match op.completion
       case NotPosted => false
       case Posted(h, r) => h == handler && r == result && op.calls == [] && Unfinished(op.base)
       case Called(r) => r == result && op.calls == Deliveries(handler, result) && Unfinished(op.base)
       case Ended => op.calls == Deliveries(handler, result) && FinishedWith(op.base, ErrorOf(result))
  }

  lemma MoveKeepsCommitted<T>(op: ResultOp<T>, move: Move<T>, handler: Option<HandlerId>, result: Outcome<T>)
    requires Can(op, move) && Committed(op, handler, result)
    ensures Committed(Make(op, move), handler, result)
  {
    match move
    case Inherited(_) => BaseMove(op, move);
    case Build(_, _) => BaseMove(op, move);
    case EndOperation => EndFinishes(op.base, ErrorOf(result));
    case _ =>
  }

  lemma {:induction false} CommittedForEver<T>(op: ResultOp<T>, moves: seq<Move<T>>, handler: Option<HandlerId>, result: Outcome<T>)
    requires Playable(op, moves) && Committed(op, handler, result)
    ensures Committed(Play(op, moves), handler, result)
    decreases |moves|
  {
    if moves != [] {
      MoveKeepsCommitted(op, moves[0], handler, result);
      CommittedForEver(Make(op, moves[0]), moves[1..], handler, result);
    }
  }

  /** No result yet: the base class may have moved on, but not to its end. */
  ghost predicate Uncommitted<T>(op: ResultOp<T>, handler: Option<HandlerId>) {
    op == NewResultOp(op.base, handler) && Unfinished(op.base)
  }

  lemma {:induction false} PlayFrom<T>(op: ResultOp<T>, handler: Option<HandlerId>, moves: seq<Move<T>>)
    requires Uncommitted(op, handler) && Playable(op, moves)
    ensures FirstResult(moves).None? ==> Uncommitted(Play(op, moves), HandlerThen(handler, moves))
    ensures FirstResult(moves).Some? ==> Committed(Play(op, moves), HandlerThen(handler, moves), FirstResult(moves).value)
    decreases |moves|
  {
    if moves != [] {
      match moves[0]
      case Inherited(_) => BaseMove(op, moves[0]); PlayFrom(Make(op, moves[0]), handler, moves[1..]);
      case Build(_, _) => BaseMove(op, moves[0]); PlayFrom(Make(op, moves[0]), handler, moves[1..]);
      case Submit(result) => CommittedForEver(Make(op, moves[0]), moves[1..], handler, result);
      case SetHandler(next) => PlayFrom(Make(op, moves[0]), next, moves[1..]);
      case _ =>
    }
  }

  /** Over every run, from a new operation to its end: the handler runs at most once, with the first
      result submitted and the handler then in place, before the base operation is `Finished`; and
      once it is, `result` is that result and the operation's error is the one in it. */
  lemma FirstResultWins<T>(conditions: seq<Condition>, dependencies: set<OpId>, handler: Option<HandlerId>, moves: seq<Move<T>>)
    requires Playable(NewResultOp(NewOp(conditions, dependencies), handler), moves)
    ensures var op := Play(NewResultOp(NewOp(conditions, dependencies), handler), moves);
            Inv(op.base) &&
            match FirstResult(moves)
            case None => op.calls == [] && op.base.life != Finished && Result(op) == None
            case Some(result) =>
              && op.calls <= Deliveries(HandlerThen(handler, moves), result)
              && (op.base.life == Finished ==>
                    && op.calls == Deliveries(HandlerThen(handler, moves), result)
                    && Result(op) == Some(result) && op.base.ending.error == ErrorOf(result))
  {
    NewOpInv(conditions, dependencies);
    PlayFrom(NewResultOp(NewOp(conditions, dependencies), handler), handler, moves);
  }

  /** An operation finished by an error, as by a refused start, ends with that error, with the cancellation
      error if none is given, and with no output. */
  lemma FinishedByError<T>(conditions: seq<Condition>, dependencies: set<OpId>, handler: Option<HandlerId>,
                           moves: seq<Move<T>>, error: Option<Failure>)
    requires Playable(NewResultOp(NewOp(conditions, dependencies), handler), moves)
    requires FirstResult(moves) == Some(FromError(error))
    ensures var op := Play(NewResultOp(NewOp(conditions, dependencies), handler), moves);
            op.base.life == Finished ==>
              && op.output == None
              && op.base.ending.error == Some(if error.Some? then error.value else CancelledError)
              && op.calls == match HandlerThen(handler, moves)
                             case None => []
                             case Some(h) => [(h, Failed(op.base.ending.error.value))]
  {
    FirstResultWins(conditions, dependencies, handler, moves);
  }

  /** No observer hears that the operation finished before the handler in place has been called. */
  lemma HandlerBeforeObservers<T>(conditions: seq<Condition>, dependencies: set<OpId>, handler: Option<HandlerId>,
                                  moves: seq<Move<T>>, ob: ObserverId)
    requires Playable(NewResultOp(NewOp(conditions, dependencies), handler), moves)
    ensures var op := Play(NewResultOp(NewOp(conditions, dependencies), handler), moves);
            ob in op.base.observers && DidFinish in op.base.observers[ob] ==>
              FirstResult(moves).Some? && op.calls == Deliveries(HandlerThen(handler, moves), FirstResult(moves).value)
  {
    FirstResultWins(conditions, dependencies, handler, moves);
    var op := Play(NewResultOp(NewOp(conditions, dependencies), handler), moves);
    if ob in op.base.observers && DidFinish in op.base.observers[ob] {
      assert op.base.closed;
    }
  }

  /** The source's class; its methods do what the functions above say.  `base` holds what it inherits. */
  class ResultOperation<T> {
    const base: AsyncOperation
    var output: Option<T>
    var completionHandler: Option<HandlerId>
    var pendingFinish: bool
    var completion: Completion<T>
    var calls: seq<(HandlerId, Outcome<T>)>

    ghost function View(): ResultOp<T>
      reads this, base
    {
      ResultOp(base.View(), output, completionHandler, pendingFinish, completion, calls)
    }

    constructor (conditions: seq<Condition>, dependencies: set<OpId>, handler: Option<HandlerId>)
      ensures fresh(base) && View() == NewResultOp(NewOp(conditions, dependencies), handler)
    {
      base := new AsyncOperation(conditions, dependencies);
      output, completionHandler, pendingFinish := None, handler, false;
      completion, calls := NotPosted, [];
    }

    method SetCompletionHandler(handler: Option<HandlerId>)
      modifies this
      ensures View() == OnSetHandler(old(View()), handler)
    {
      if !pendingFinish {
        completionHandler := handler;
      }
    }

    method Finish(result: Outcome<T>)
      modifies this
      ensures View() == OnSubmit(old(View()), result)
    {
      if pendingFinish {
        return;
      }
      pendingFinish := true;
      var handler := completionHandler;
      completionHandler := None;
      if result.Success? {
        output := Some(result.value);
      }
      completion := Posted(handler, result);
    }

    method FinishWithError(failure: Option<Failure>)
      modifies this
      ensures View() == OnSubmit(old(View()), FromError(failure))
    {
      Finish(FromError(failure));
    }

    /** The completion block: the handler's call, then `super.finish`. */
    method RunCompletion()
      requires completion.Posted? && Inv(base.View()) && May(base.View(), Act.Finish(ErrorOf(completion.result)))
      modifies this, base
      ensures View() == OnEnd(OnCall(old(View()))) && Inv(base.View())
    {
      var Posted(handler, result) := completion;
      if handler.Some? {
        calls := calls + [(handler.value, result)];
      }
      var won := base.FinishWith(ErrorOf(result));
      completion := Ended;
    }
  }
}
