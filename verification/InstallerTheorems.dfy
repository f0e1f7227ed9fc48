/** What every run of the installer keeps. */
module InstallerTheorems {
  import opened Options
  import opened Installer

  // ----- versions and links

  /** A closure that speaks of the beta exists only where there is one. */
  predicate Grounded(info: Info, c: Closure) {
    match c
    case BetaChosen => info.hasBeta
    case StableChosen => info.hasBeta
    case Spawn(v) => info.Has(v)
    case Cancelled(v, _) => info.Has(v)
    case _ => true
  }

  ghost predicate QueueGrounded(info: Info, queue: seq<Closure>) {
    forall i :: 0 <= i < |queue| ==> Grounded(info, queue[i])
  }

  ghost predicate VersionInv(info: Info, s: Sys) {
    && !s.panicked
    && info.Has(s.target)
    && |s.mailbox| <= 1
    && (s.mailbox == [TryStable] ==> info.hasBeta)
    && (s.ui.beta ==> info.hasBeta)
    && (s.ui.stable ==> info.hasBeta)
    && QueueGrounded(info, s.queue)
  }

  // ----- downloads

  /** The one download that may be live. */
  function Current(handler: Handler, active: Option<nat>): Option<nat> {
    match handler
    case Idle => active
    case Aborting(t, _) => Some(t)
    case Spawning(Spawned(t)) => Some(t)
    case Spawning(_) => None
  }

  ghost predicate OnlyLive(tasks: seq<Stage>, current: Option<nat>) {
    forall t: nat :: Live(tasks, t) ==> current == Some(t)
  }

  /** A spawning closure waits, and waits last, exactly while the handler awaits its answer. */
  ghost predicate SpawnInv(handler: Handler, queue: seq<Closure>) {
    && (handler == Spawning(NotYet) ==> queue != [] && queue[|queue| - 1].Spawn?)
    && (forall i :: 0 <= i < |queue| && queue[i].Spawn? ==> i == |queue| - 1 && handler == Spawning(NotYet))
  }

  ghost predicate HandlerInv(handler: Handler, active: Option<nat>) {
    && (!handler.Idle? ==> active.None?)
    && (handler.Aborting? ==> handler.next.Cancel? || handler.next.BeginDownload?)
  }

  ghost predicate TaskInv(s: Sys) {
    && OnlyLive(s.tasks, Current(s.handler, s.active))
    && HandlerInv(s.handler, s.active)
    && SpawnInv(s.handler, s.queue)
  }

  // ----- fences

  predicate IsFence(c: Closure) {
    c.Prepare? || c.Cancelled?
  }

  /** Every closure ever queued, in order; the UI thread has run the first part of it. */
  function Trace(s: Sys): seq<Closure> {
    s.ran + s.queue
  }

  /** After a fence come only closures of downloads spawned later. */
  ghost predicate Fenced(trace: seq<Closure>) {
    forall i, j :: 0 <= i < j < |trace| && IsFence(trace[i]) && trace[j].FromTask? ==> trace[i].spawned <= trace[j].task
  }

  ghost predicate Counted(trace: seq<Closure>, spawned: nat) {
    forall i :: 0 <= i < |trace| ==>
      (IsFence(trace[i]) ==> trace[i].spawned <= spawned) && (trace[i].FromTask? ==> trace[i].task < spawned)
  }

  /** No live download is on the far side of a fence. */
  ghost predicate LiveIsLater(tasks: seq<Stage>, trace: seq<Closure>) {
    forall t: nat, i :: Live(tasks, t) && 0 <= i < |trace| && IsFence(trace[i]) ==> trace[i].spawned <= t
  }

  ghost predicate FenceInv(tasks: seq<Stage>, trace: seq<Closure>) {
    Fenced(trace) && Counted(trace, |tasks|) && LiveIsLater(tasks, trace)
  }

  ghost predicate Inv(info: Info, s: Sys) {
    VersionInv(info, s) && TaskInv(s) && FenceInv(s.tasks, Trace(s))
  }

  lemma InitialInv(info: Info)
    ensures Inv(info, INITIAL)
  {
    assert Trace(INITIAL) == [Ready];
  }

  // ----- one step

  lemma PostGrounded(info: Info, queue: seq<Closure>, c: Closure)
    requires QueueGrounded(info, queue) && Grounded(info, c)
    ensures QueueGrounded(info, queue + [c])
  {
  }

  lemma ProceedVersions(info: Info, s: Sys, m: Message)
    requires VersionInv(info, s)
    ensures VersionInv(info, Proceed(info, s, m))
  {
    if m.Cancel? {
      PostGrounded(info, s.queue, Cancelled(s.target, |s.tasks|));
    } else {
      PostGrounded(info, s.queue, Prepare(|s.tasks|));
      PostGrounded(info, s.queue + [Prepare(|s.tasks|)], Spawn(s.target));
    }
  }

  lemma HandleVersions(info: Info, s: Sys, m: Message)
    requires VersionInv(info, s) && (m.TryStable? ==> info.hasBeta)
    ensures VersionInv(info, Handle(info, s, m))
  {
    match m
    case TryBeta =>
      if info.hasBeta {
        PostGrounded(info, s.queue, BetaChosen);
      }
    case TryStable => PostGrounded(info, s.queue, StableChosen);
    case _ =>
      if s.active.None? {
        ProceedVersions(info, s, m);
      }
  }

  lemma StepVersions(info: Info, s: Sys, step: Step)
    requires VersionInv(info, s) && Enabled(s, step)
    ensures VersionInv(info, Apply(info, s, step))
  {
    match step
    case Receive => HandleVersions(info, s.(mailbox := s.mailbox[1..]), s.mailbox[0]);
    case AbortDone => ProceedVersions(info, s, s.handler.next);
    case RunClosure => assert Grounded(info, s.queue[0]);
    case Work(t, e) => PostGrounded(info, s.queue, FromTask(t, e));
    case _ =>
  }

  lemma PostSpawnless(handler: Handler, queue: seq<Closure>, c: Closure)
    requires SpawnInv(handler, queue) && handler != Spawning(NotYet) && !c.Spawn?
    ensures SpawnInv(handler, queue + [c])
  {
  }

  lemma SpawnlessForOthers(h: Handler, handler: Handler, queue: seq<Closure>)
    requires SpawnInv(h, queue) && h != Spawning(NotYet) && handler != Spawning(NotYet)
    ensures SpawnInv(handler, queue)
  {
  }

  lemma PostSpawn(h: Handler, queue: seq<Closure>, c: Closure)
    requires SpawnInv(h, queue) && h != Spawning(NotYet) && c.Spawn?
    ensures SpawnInv(Spawning(NotYet), queue + [c])
  {
  }

  /** With no download left, the handler goes on to its closures. */
  lemma ProceedTasks(info: Info, s: Sys, m: Message)
    requires SpawnInv(s.handler, s.queue) && s.handler != Spawning(NotYet) && s.active.None?
    requires OnlyLive(s.tasks, None)
    ensures TaskInv(Proceed(info, s, m))
  {
    SpawnlessForOthers(s.handler, Idle, s.queue);
    if m.Cancel? {
      PostSpawnless(Idle, s.queue, Cancelled(s.target, |s.tasks|));
    } else {
      PostSpawnless(Idle, s.queue, Prepare(|s.tasks|));
      PostSpawn(Idle, s.queue + [Prepare(|s.tasks|)], Spawn(s.target));
    }
  }

  lemma ReceiveTasks(info: Info, s: Sys, m: Message)
    requires TaskInv(s) && s.handler.Idle?
    ensures TaskInv(Handle(info, s, m))
  {
    match m
    case TryBeta =>
      if info.hasBeta {
        PostSpawnless(s.handler, s.queue, BetaChosen);
      }
    case TryStable => PostSpawnless(s.handler, s.queue, StableChosen);
    case _ =>
      if s.active.Some? {
        SpawnlessForOthers(s.handler, Aborting(s.active.value, m), s.queue);
      } else {
        ProceedTasks(info, s, m);
      }
  }

  lemma RunTasks(info: Info, s: Sys)
    requires TaskInv(s) && s.queue != []
    requires s.queue[0].Spawn? ==> info.Has(s.queue[0].version)
    ensures TaskInv(RunHead(info, s))
  {
    var c, rest := s.queue[0], s.queue[1..];
    if c.Spawn? {
      assert rest == [];
    } else {
      assert SpawnInv(s.handler, rest);
    }
  }

  lemma WorkTasks(s: Sys, t: nat, e: Effect)
    requires TaskInv(s) && t < |s.tasks| && MayReport(s.tasks[t], e)
    ensures TaskInv(Post(s.(tasks := s.tasks[t := After(s.tasks[t], e)]), FromTask(t, e)))
  {
    assert Live(s.tasks, t);
    PostSpawnless(s.handler, s.queue, FromTask(t, e));
    TaskUpdated(s.tasks, t, After(s.tasks[t], e), Current(s.handler, s.active));
  }

  lemma TaskUpdated(tasks: seq<Stage>, t: nat, stage: Stage, current: Option<nat>)
    requires OnlyLive(tasks, current) && Live(tasks, t)
    ensures OnlyLive(tasks[t := stage], current)
  {
    forall u: nat | Live(tasks[t := stage], u)
      ensures current == Some(u)
    {
      assert Live(tasks, u);
    }
  }

  lemma NoneLive(tasks: seq<Stage>, t: nat)
    requires OnlyLive(tasks, Some(t)) && !Live(tasks, t)
    ensures OnlyLive(tasks, None)
  {
  }

  lemma StepTasks(info: Info, s: Sys, step: Step)
    requires VersionInv(info, s) && TaskInv(s) && Enabled(s, step)
    ensures TaskInv(Apply(info, s, step))
  {
    match step
    case Click(_) =>
    case Receive => ReceiveTasks(info, s.(mailbox := s.mailbox[1..]), s.mailbox[0]);
    case AbortDone =>
      NoneLive(s.tasks, s.handler.task);
      ProceedTasks(info, s, s.handler.next);
    case Resume => SpawnlessForOthers(s.handler, Idle, s.queue);
    case RunClosure =>
      assert Grounded(info, s.queue[0]);
      RunTasks(info, s);
    case Work(t, e) => WorkTasks(s, t, e);
    case Stop(t) => TaskUpdated(s.tasks, t, Ended, Current(s.handler, s.active));
  }

  lemma PostFenced(tasks: seq<Stage>, trace: seq<Closure>, c: Closure)
    requires FenceInv(tasks, trace)
    requires IsFence(c) ==> c.spawned == |tasks| && OnlyLive(tasks, None)
    requires c.FromTask? ==> Live(tasks, c.task)
    ensures FenceInv(tasks, trace + [c])
  {
  }

  lemma UpdatedFenced(tasks: seq<Stage>, t: nat, stage: Stage, trace: seq<Closure>)
    requires FenceInv(tasks, trace) && Live(tasks, t)
    ensures FenceInv(tasks[t := stage], trace)
  {
    var updated := tasks[t := stage];
    forall u: nat, i | Live(updated, u) && 0 <= i < |trace| && IsFence(trace[i])
      ensures trace[i].spawned <= u
    {
      assert Live(tasks, u);
    }
  }

  lemma SpawnFenced(tasks: seq<Stage>, trace: seq<Closure>)
    requires FenceInv(tasks, trace)
    ensures FenceInv(tasks + [Downloading], trace)
  {
    forall u: nat, i | Live(tasks + [Downloading], u) && 0 <= i < |trace| && IsFence(trace[i])
      ensures trace[i].spawned <= u
    {
      assert u == |tasks| || Live(tasks, u);
    }
  }

  lemma PostTrace(ran: seq<Closure>, queue: seq<Closure>, c: Closure)
    ensures ran + (queue + [c]) == (ran + queue) + [c]
  {
  }

  lemma ProceedFenced(info: Info, s: Sys, m: Message)
    requires FenceInv(s.tasks, Trace(s)) && OnlyLive(s.tasks, None)
    ensures var r := Proceed(info, s, m); FenceInv(r.tasks, Trace(r))
  {
    var a, b := Cancelled(s.target, |s.tasks|), Prepare(|s.tasks|);
    if m.Cancel? {
      PostFenced(s.tasks, Trace(s), a);
      PostTrace(s.ran, s.queue, a);
    } else {
      PostFenced(s.tasks, Trace(s), b);
      PostTrace(s.ran, s.queue, b);
      PostFenced(s.tasks, Trace(s) + [b], Spawn(s.target));
      PostTrace(s.ran, s.queue + [b], Spawn(s.target));
    }
  }

  lemma HandleFenced(info: Info, s: Sys, m: Message)
    requires FenceInv(s.tasks, Trace(s)) && TaskInv(s) && s.handler.Idle?
    ensures var r := Handle(info, s, m); FenceInv(r.tasks, Trace(r))
  {
    match m
    case TryBeta =>
      PostFenced(s.tasks, Trace(s), BetaChosen);
      PostTrace(s.ran, s.queue, BetaChosen);
    case TryStable =>
      PostFenced(s.tasks, Trace(s), StableChosen);
      PostTrace(s.ran, s.queue, StableChosen);
    case _ =>
      if s.active.None? {
        ProceedFenced(info, s, m);
      }
  }

  lemma StepFenced(info: Info, s: Sys, step: Step)
    requires VersionInv(info, s) && TaskInv(s) && FenceInv(s.tasks, Trace(s)) && Enabled(s, step)
    ensures var r := Apply(info, s, step); FenceInv(r.tasks, Trace(r))
  {
    match step
    case Click(_) =>
    case Receive => HandleFenced(info, s.(mailbox := s.mailbox[1..]), s.mailbox[0]);
    case AbortDone =>
      NoneLive(s.tasks, s.handler.task);
      ProceedFenced(info, s, s.handler.next);
    case Resume =>
    case RunClosure =>
      assert (s.ran + [s.queue[0]]) + s.queue[1..] == Trace(s);
      SpawnFenced(s.tasks, Trace(s));
    case Work(t, e) =>
      PostFenced(s.tasks, Trace(s), FromTask(t, e));
      UpdatedFenced(s.tasks, t, After(s.tasks[t], e), Trace(s) + [FromTask(t, e)]);
      PostTrace(s.ran, s.queue, FromTask(t, e));
    case Stop(t) => UpdatedFenced(s.tasks, t, Ended, Trace(s));
  }

  lemma StepKeepsInv(info: Info, s: Sys, step: Step)
    requires Inv(info, s) && Enabled(s, step)
    ensures Inv(info, Apply(info, s, step))
  {
    StepVersions(info, s, step);
    StepTasks(info, s, step);
    StepFenced(info, s, step);
  }

  lemma {:induction false} RunKeepsInv(info: Info, s: Sys, steps: seq<Step>)
    requires Inv(info, s) && Legal(info, s, steps)
    ensures Inv(info, Run(info, s, steps))
    decreases |steps|
  {
    if steps != [] {
      StepKeepsInv(info, s, steps[0]);
      RunKeepsInv(info, Apply(info, s, steps[0]), steps[1..]);
    }
  }

  // ----- the theorems

  /** At most one download is live, counting an aborted one that has not stopped. */
  lemma OneDownload(info: Info, steps: seq<Step>, t: nat, u: nat)
    requires Legal(info, INITIAL, steps)
    requires var s := Run(info, INITIAL, steps); Live(s.tasks, t) && Live(s.tasks, u)
    ensures t == u
  {
    InitialInv(info);
    RunKeepsInv(info, INITIAL, steps);
  }

  /** Neither `expect` fails, the target exists, and the beta link is shown only if a beta does. */
  lemma BetaOnlyIfOffered(info: Info, steps: seq<Step>)
    requires Legal(info, INITIAL, steps)
    ensures var s := Run(info, INITIAL, steps);
      !s.panicked && (s.target.Beta? ==> info.hasBeta) && (s.ui.beta || s.ui.stable ==> info.hasBeta)
  {
    InitialInv(info);
    RunKeepsInv(info, INITIAL, steps);
  }

  /**
   Once the UI thread has run the closure of a cancel or a restart, it runs no closure of a download
   spawned before that cancel or restart, so none of the one it aborted.
   */
  lemma NoLateClosures(info: Info, steps: seq<Step>, i: nat, j: nat)
    requires Legal(info, INITIAL, steps)
    requires var ran := Run(info, INITIAL, steps).ran;
      i < j < |ran| && IsFence(ran[i]) && ran[j].FromTask?
    ensures var ran := Run(info, INITIAL, steps).ran; ran[i].spawned <= ran[j].task
  {
    InitialInv(info);
    RunKeepsInv(info, INITIAL, steps);
    var s := Run(info, INITIAL, steps);
    assert Trace(s)[i] == s.ran[i] && Trace(s)[j] == s.ran[j];
  }
}
