/**
 The actor of installer-downloader/src/controller.rs and the downloads of ui_downloader.rs: a mailbox of
 one message, a handler that awaits an aborted download or a spawned one, a FIFO queue of closures for
 the UI thread, and download tasks that queue closures of their own.
 */
module Installer {
  import opened Options

  datatype Version = Stable | Beta

  /** What the metadata offers: whether a beta exists, and whether each version has a download URL. */
  datatype Info = Info(hasBeta: bool, stableUrls: bool, betaUrls: bool) {
    function Urls(v: Version): bool {
      if v.Stable? then stableUrls else betaUrls
    }

    predicate Has(v: Version) {
      v.Beta? ==> hasBeta
    }
  }

  datatype Message = TryBeta | TryStable | BeginDownload | Cancel

  /** What a download reports: progress, the end of a stage, a failure, or the end of the app. */
  datatype Effect = Progress | Complete | Verified | Failure | Quit

  /** `spawned` counts the downloads spawned before the closure was queued. */
  datatype Closure =
    | Ready
    | BetaChosen
    | StableChosen
    | Prepare(spawned: nat)
    | Spawn(version: Version)
    | Cancelled(version: Version, spawned: nat)
    | FromTask(task: nat, effect: Effect)

  datatype Ui = Ui(
    download: bool, downloadOn: bool, cancel: bool, cancelOn: bool, progress: bool,
    beta: bool, stable: bool, error: bool, quit: bool)

  datatype Reply = NotYet | Dropped | Spawned(task: nat)

  /** Between messages, waiting for an aborted task to end, or for the UI thread to spawn a download. */
  datatype Handler = Idle | Aborting(task: nat, next: Message) | Spawning(reply: Reply)

  datatype Stage = Downloading | Verifying | Installing | Ended

  datatype Sys = Sys(
    handler: Handler, mailbox: seq<Message>, active: Option<nat>, target: Version, panicked: bool,
    queue: seq<Closure>, ran: seq<Closure>, tasks: seq<Stage>, ui: Ui)

  datatype Control = DownloadButton | CancelButton | BetaLink | StableLink | RetryButton | DismissButton

  datatype Step =
    | Click(control: Control)
    | Receive
    | AbortDone
    | Resume
    | RunClosure
    | Work(task: nat, effect: Effect)
    | Stop(task: nat)

  const FIRST_UI: Ui := Ui(true, false, false, false, false, false, false, false, false)

  const INITIAL: Sys := Sys(Idle, [], None, Stable, false, [Ready], [], [], FIRST_UI)

  // ----- the UI thread

  predicate Clickable(ui: Ui, control: Control) {
    match control
    case DownloadButton => ui.download && ui.downloadOn
    case CancelButton => ui.cancel && ui.cancelOn
    case BetaLink => ui.beta
    case StableLink => ui.stable
    case RetryButton => ui.error
    case DismissButton => ui.error
  }

  function MessageOf(control: Control): Message {
    match control
    case DownloadButton => BeginDownload
    case CancelButton => Cancel
    case BetaLink => TryBeta
    case StableLink => TryStable
    case RetryButton => BeginDownload
    case DismissButton => Cancel
  }

  /** A closure's effect on the controls. */
  function Shown(info: Info, ui: Ui, c: Closure): Ui {
    match c
    case Ready => ui.(downloadOn := true, beta := ui.beta || info.hasBeta)
    case BetaChosen => ui.(stable := true, beta := false)
    case StableChosen => ui.(stable := false, beta := true)
    case Prepare(_) => ui.(error := false)
    case Spawn(_) =>
      if Starts(info, c) then
        ui.(download := false, beta := false, stable := false, cancel := true, cancelOn := true, progress := true)
      else ui
    case Cancelled(v, _) =>
      ui.(download := true, error := false, cancel := false, progress := false,
          beta := if v.Stable? && info.hasBeta then true else ui.beta,
          stable := if v.Stable? then ui.stable else true)
    case FromTask(_, effect) =>
      match effect
      case Progress => ui
      case Complete => ui.(cancelOn := false)
      case Verified => ui
      case Failure => ui.(progress := false, download := false, cancel := false, error := true)
      case Quit => ui.(quit := true)
  }

  /** A spawning closure that finds its version and a URL starts a task. */
  predicate Starts(info: Info, c: Closure) {
    c.Spawn? && info.Has(c.version) && info.Urls(c.version)
  }

  /** The handler gets the task, or learns that the sender was dropped. */
  function Answer(info: Info, handler: Handler, c: Closure, spawned: nat): Handler {
    if !(c.Spawn? && handler.Spawning?) then handler
    else Spawning(if Starts(info, c) then Spawned(spawned) else Dropped)
  }

  function RunHead(info: Info, s: Sys): Sys
    requires s.queue != []
  {
    var c := s.queue[0];
    s.(queue := s.queue[1..],
       ran := s.ran + [c],
       ui := Shown(info, s.ui, c),
       tasks := if Starts(info, c) then s.tasks + [Downloading] else s.tasks,
       handler := Answer(info, s.handler, c, |s.tasks|),
       panicked := s.panicked || (c.Spawn? && !info.Has(c.version)))
  }

  // ----- the handler

  function Post(s: Sys, c: Closure): Sys {
    s.(queue := s.queue + [c])
  }

  /** The rest of `begin_download` and `cancel`, once no download is active. */
  function Proceed(info: Info, s: Sys, m: Message): Sys {
    if m.Cancel? then
      if !info.Has(s.target) then s.(handler := Idle, panicked := true)
      else Post(s, Cancelled(s.target, |s.tasks|)).(handler := Idle)
    else
      Post(Post(s, Prepare(|s.tasks|)), Spawn(s.target)).(handler := Spawning(NotYet))
  }

  function Handle(info: Info, s: Sys, m: Message): Sys {
    match m
    case TryBeta => if info.hasBeta then Post(s.(target := Beta), BetaChosen) else s
    case TryStable => Post(s.(target := Stable), StableChosen)
    case _ =>
      if s.active.Some? then s.(active := None, handler := Aborting(s.active.value, m)) else Proceed(info, s, m)
  }

  // ----- the downloads

  predicate Live(tasks: seq<Stage>, t: nat) {
    t < |tasks| && tasks[t] != Ended
  }

  predicate MayReport(stage: Stage, e: Effect) {
    match e
    case Progress => stage.Downloading?
    case Complete => stage.Downloading?
    case Verified => stage.Verifying?
    case Failure => !stage.Ended?
    case Quit => stage.Installing?
  }

  function After(stage: Stage, e: Effect): Stage {
    match e
    case Progress => stage
    case Complete => Verifying
    case Verified => Installing
    case Failure => Ended
    case Quit => Ended
  }

  // ----- the steps

  predicate Enabled(s: Sys, step: Step) {
    && !s.ui.quit && !s.panicked
    && match step
       case Click(control) => Clickable(s.ui, control)
       case Receive => s.handler.Idle? && s.mailbox != []
       case AbortDone => s.handler.Aborting? && !Live(s.tasks, s.handler.task)
       case Resume => s.handler.Spawning? && !s.handler.reply.NotYet?
       case RunClosure => s.queue != []
       case Work(t, e) => t < |s.tasks| && MayReport(s.tasks[t], e)
       case Stop(t) => s.handler.Aborting? && s.handler.task == t && Live(s.tasks, t)
  }

  function Apply(info: Info, s: Sys, step: Step): Sys
    requires Enabled(s, step)
  {
    match step
    case Click(control) => if s.mailbox == [] then s.(mailbox := [MessageOf(control)]) else s
    case Receive => Handle(info, s.(mailbox := s.mailbox[1..]), s.mailbox[0])
    case AbortDone => Proceed(info, s, s.handler.next)
    case Resume =>
      s.(handler := Idle, active := if s.handler.reply.Spawned? then Some(s.handler.reply.task) else None)
    case RunClosure => RunHead(info, s)
    case Work(t, e) => Post(s.(tasks := s.tasks[t := After(s.tasks[t], e)]), FromTask(t, e))
    case Stop(t) => s.(tasks := s.tasks[t := Ended])
  }

  predicate Legal(info: Info, s: Sys, steps: seq<Step>)
    decreases |steps|
  {
    steps == [] || (Enabled(s, steps[0]) && Legal(info, Apply(info, s, steps[0]), steps[1..]))
  }

  function Run(info: Info, s: Sys, steps: seq<Step>): Sys
    requires Legal(info, s, steps)
    decreases |steps|
  {
    if steps == [] then s else Run(info, Apply(info, s, steps[0]), steps[1..])
  }

  // ----- the handler's own code

  class ActionMessageHandler {
    const info: Info
    var handler: Handler
    var active: Option<nat>
    var target: Version
    var panicked: bool
    var queue: seq<Closure>
    ghost var world: Sys

    constructor (info: Info)
      ensures this.info == info && world == INITIAL && View() == INITIAL
    {
      this.info := info;
      handler := Idle;
      active := None;
      target := Stable;
      panicked := false;
      queue := [Ready];
      world := INITIAL;
    }

    /** The handler's fields in the world of tasks and controls it runs in. */
    ghost function View(): Sys
      reads this
    {
      world.(handler := handler, active := active, target := target, panicked := panicked, queue := queue)
    }

    method HandleTryBeta()
      modifies this`target, this`queue
      ensures View() == Handle(info, old(View()), TryBeta)
    {
      if !info.hasBeta {
        return;
      }
      target := Beta;
      queue := queue + [BetaChosen];
    }

    method HandleTryStable()
      modifies this`target, this`queue
      ensures View() == Handle(info, old(View()), TryStable)
    {
      target := Stable;
      queue := queue + [StableChosen];
    }

    /** Both begin by taking the active download; with one, they await its end. */
    method CancelDownload(next: Message) returns (awaits: bool)
      modifies this`active, this`handler
      ensures awaits <==> old(active).Some?
      ensures active == None && handler == if awaits then Aborting(old(active).value, next) else old(handler)
    {
      awaits := active.Some?;
      if awaits {
        handler := Aborting(active.value, next);
      }
      active := None;
    }

    method HandleMessage(m: Message, spawned: nat)
      requires handler.Idle? && spawned == |world.tasks|
      modifies this
      ensures View() == Handle(info, old(View()), m) && world == old(world)
    {
      match m
      case TryBeta => HandleTryBeta();
      case TryStable => HandleTryStable();
      case BeginDownload =>
        var awaits := CancelDownload(m);
        if !awaits {
          QueueDownload(spawned);
        }
      case Cancel =>
        var awaits := CancelDownload(m);
        if !awaits {
          QueueCancelled(spawned);
        }
    }

    method QueueDownload(spawned: nat)
      requires spawned == |world.tasks|
      modifies this`queue, this`handler
      ensures View() == Proceed(info, old(View()), BeginDownload)
    {
      queue := queue + [Prepare(spawned)];
      queue := queue + [Spawn(target)];
      handler := Spawning(NotYet);
    }

    method QueueCancelled(spawned: nat)
      requires spawned == |world.tasks|
      modifies this`queue, this`handler, this`panicked
      ensures View() == Proceed(info, old(View()), Cancel)
    {
      handler := Idle;
      if target.Beta? && !info.hasBeta {
        panicked := true;
        return;
      }
      queue := queue + [Cancelled(target, spawned)];
    }
  }
}
