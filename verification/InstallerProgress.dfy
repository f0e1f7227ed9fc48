/** Left alone, the installer comes to rest. */
module InstallerProgress {
  import opened Installer
  import opened InstallerTheorems
  import opened InstallerOffers

  /** A step that is neither the user's nor a mere progress report. */
  predicate Quiet(step: Step) {
    !step.Click? && !(step.Work? && step.effect.Progress?)
  }

  // ----- a measure that every quiet step decreases

  function StageWeight(stage: Stage): nat {
    match stage
    case Downloading => 6
    case Verifying => 4
    case Installing => 2
    case Ended => 0
  }

  function TaskWeight(tasks: seq<Stage>): nat {
    if tasks == [] then 0 else StageWeight(tasks[0]) + TaskWeight(tasks[1..])
  }

  function ClosureWeight(c: Closure): nat {
    if c.Spawn? then 8 else 1
  }

  function QueueWeight(queue: seq<Closure>): nat {
    if queue == [] then 0 else ClosureWeight(queue[0]) + QueueWeight(queue[1..])
  }

  function HandlerWeight(handler: Handler): nat {
    match handler
    case Idle => 0
    case Aborting(_, _) => 12
    case Spawning(_) => 1
  }

  function Measure(s: Sys): nat {
    14 * |s.mailbox| + HandlerWeight(s.handler) + QueueWeight(s.queue) + TaskWeight(s.tasks)
  }

  lemma {:induction false} QueuePost(queue: seq<Closure>, c: Closure)
    ensures QueueWeight(queue + [c]) == QueueWeight(queue) + ClosureWeight(c)
  {
    if queue == [] {
      assert queue + [c] == [c];
    } else {
      assert (queue + [c])[1..] == queue[1..] + [c];
      QueuePost(queue[1..], c);
    }
  }

  lemma {:induction false} TaskPost(tasks: seq<Stage>, stage: Stage)
    ensures TaskWeight(tasks + [stage]) == TaskWeight(tasks) + StageWeight(stage)
  {
    if tasks == [] {
      assert tasks + [stage] == [stage];
    } else {
      assert (tasks + [stage])[1..] == tasks[1..] + [stage];
      TaskPost(tasks[1..], stage);
    }
  }

  lemma {:induction false} TaskUpdate(tasks: seq<Stage>, t: nat, stage: Stage)
    requires t < |tasks|
    ensures TaskWeight(tasks[t := stage]) + StageWeight(tasks[t]) == TaskWeight(tasks) + StageWeight(stage)
  {
    if t > 0 {
      assert tasks[t := stage][1..] == tasks[1..][t - 1 := stage];
      TaskUpdate(tasks[1..], t - 1, stage);
    }
  }

  lemma ProceedWeight(info: Info, s: Sys, m: Message)
    ensures Measure(Proceed(info, s, m)) + HandlerWeight(s.handler) <= Measure(s) + 10
  {
    var a, b := Cancelled(s.target, |s.tasks|), Prepare(|s.tasks|);
    QueuePost(s.queue, a);
    QueuePost(s.queue, b);
    QueuePost(s.queue + [b], Spawn(s.target));
  }

  lemma HandleWeight(info: Info, s: Sys, m: Message)
    requires s.handler.Idle?
    ensures Measure(Handle(info, s, m)) <= Measure(s) + 12
  {
    QueuePost(s.queue, BetaChosen);
    QueuePost(s.queue, StableChosen);
    ProceedWeight(info, s, m);
  }

  lemma RunWeight(info: Info, s: Sys)
    requires s.queue != []
    ensures Measure(RunHead(info, s)) < Measure(s)
  {
    TaskPost(s.tasks, Downloading);
  }

  lemma WorkWeight(s: Sys, t: nat, e: Effect)
    requires t < |s.tasks| && MayReport(s.tasks[t], e) && !e.Progress?
    ensures Measure(Post(s.(tasks := s.tasks[t := After(s.tasks[t], e)]), FromTask(t, e))) < Measure(s)
  {
    QueuePost(s.queue, FromTask(t, e));
    TaskUpdate(s.tasks, t, After(s.tasks[t], e));
  }

  lemma QuietDecreases(info: Info, s: Sys, step: Step)
    requires Enabled(s, step) && Quiet(step)
    ensures Measure(Apply(info, s, step)) < Measure(s)
  {
    match step
    case Receive => HandleWeight(info, s.(mailbox := s.mailbox[1..]), s.mailbox[0]);
    case AbortDone => ProceedWeight(info, s, s.handler.next);
    case Resume =>
    case RunClosure => RunWeight(info, s);
    case Work(t, e) => WorkWeight(s, t, e);
    case Stop(t) => TaskUpdate(s.tasks, t, Ended);
  }

  ghost predicate QuietRun(steps: seq<Step>) {
    forall i :: 0 <= i < |steps| ==> Quiet(steps[i])
  }

  /** Without clicks and progress reports there are only so many steps. */
  lemma {:induction false} QuietRunsEnd(info: Info, s: Sys, steps: seq<Step>)
    requires Legal(info, s, steps) && QuietRun(steps)
    ensures |steps| + Measure(Run(info, s, steps)) <= Measure(s)
    decreases |steps|
  {
    if steps != [] {
      QuietDecreases(info, s, steps[0]);
      QuietRunsEnd(info, Apply(info, s, steps[0]), steps[1..]);
    }
  }

  /** The report with which a download's stage succeeds. */
  function NextReport(stage: Stage): Effect {
    match stage
    case Downloading => Complete
    case Verifying => Verified
    case Installing => Quit
    case Ended => Progress
  }

  /** Until the app quits, whatever is under way has a quiet step; a live download's is that its stage succeeds. */
  lemma NeverStuck(info: Info, s: Sys) returns (step: Step)
    requires Inv(info, s) && !s.ui.quit && !AtRest(s)
    ensures Enabled(s, step) && Quiet(step)
  {
    if s.queue != [] {
      step := RunClosure;
    } else if s.handler.Idle? && s.mailbox != [] {
      step := Receive;
    } else if s.handler.Spawning? {
      step := Resume;
    } else if s.handler.Aborting? {
      step := if Live(s.tasks, s.handler.task) then Stop(s.handler.task) else AbortDone;
    } else {
      var t: nat :| Live(s.tasks, t);
      step := Work(t, NextReport(s.tasks[t]));
    }
  }

  /**
   A run that the user and the progress reports leave alone is bounded, and where it cannot go on the
   app has quit or everything is at rest, with something offered if the versions are consistent.
   */
  lemma ComesToRest(info: Info, before: seq<Step>, steps: seq<Step>)
    requires Legal(info, INITIAL, before) && Legal(info, Run(info, INITIAL, before), steps) && QuietRun(steps)
    ensures var s := Run(info, INITIAL, before); var t := Run(info, s, steps);
      && |steps| <= Measure(s)
      && ((forall step :: Quiet(step) ==> !Enabled(t, step)) ==>
            t.ui.quit || (AtRest(t) && (Consistent(info) ==> Offers(t.ui))))
  {
    var s := Run(info, INITIAL, before);
    var t := Run(info, s, steps);
    QuietRunsEnd(info, s, steps);
    InitialInv(info);
    RunKeepsInv(info, INITIAL, before);
    RunKeepsInv(info, s, steps);
    if !t.ui.quit && forall step :: Quiet(step) ==> !Enabled(t, step) {
      if !AtRest(t) {
        var step := NeverStuck(info, t);
      }
      if Consistent(info) {
        RunKeepsOffers(info, INITIAL, before);
        RunKeepsOffers(info, s, steps);
      }
    }
  }
}
