/** What follows from the user's clicks, and that nothing else starts or installs anything. */
module InstallerActions {
  import opened Options
  import opened Installer
  import opened InstallerTheorems
  import opened InstallerOffers

  // ----- no expectation fails

  /** The versions that closures name exist, so that neither `expect` can fail. */
  ghost predicate NamesExist(info: Info, trace: seq<Closure>) {
    forall i :: 0 <= i < |trace| ==>
      (trace[i].Spawn? ==> info.Has(trace[i].version)) && (trace[i].Cancelled? ==> info.Has(trace[i].version))
  }

  lemma StepNamesExist(info: Info, s: Sys, step: Step)
    requires VersionInv(info, s) && NamesExist(info, s.ran) && Enabled(s, step)
    ensures NamesExist(info, Apply(info, s, step).ran)
  {
    if step.RunClosure? {
      assert Grounded(info, s.queue[0]);
    }
  }

  lemma {:induction false} RunNamesExist(info: Info, s: Sys, steps: seq<Step>)
    requires Inv(info, s) && NamesExist(info, s.ran) && Legal(info, s, steps)
    ensures NamesExist(info, Run(info, s, steps).ran) && Inv(info, Run(info, s, steps))
    decreases |steps|
  {
    if steps != [] {
      StepNamesExist(info, s, steps[0]);
      StepKeepsInv(info, s, steps[0]);
      RunNamesExist(info, Apply(info, s, steps[0]), steps[1..]);
    }
  }

  /** In every run, a closure that starts or cancels a version finds that version in the metadata. */
  lemma NoExpectFails(info: Info, steps: seq<Step>)
    requires Legal(info, INITIAL, steps)
    ensures NamesExist(info, Run(info, INITIAL, steps).ran) && NamesExist(info, Run(info, INITIAL, steps).queue)
  {
    InitialInv(info);
    RunNamesExist(info, INITIAL, steps);
    var s := Run(info, INITIAL, steps);
    forall i | 0 <= i < |s.queue|
      ensures Grounded(info, s.queue[i])
    {
    }
  }

  // ----- nothing is installed unverified

  ghost predicate Completed(trace: seq<Closure>, t: nat, n: nat)
    requires n <= |trace|
  {
    exists i :: 0 <= i < n && trace[i] == FromTask(t, Complete)
  }

  /** The download was reported complete, and after that verified, among the first `n` closures. */
  ghost predicate VerifiedIn(trace: seq<Closure>, t: nat, n: nat)
    requires n <= |trace|
  {
    exists k :: 0 <= k < n && trace[k] == FromTask(t, Verified) && Completed(trace, t, k)
  }

  ghost predicate VerifyInv(tasks: seq<Stage>, trace: seq<Closure>) {
    && (forall t: nat :: t < |tasks| && tasks[t].Verifying? ==> Completed(trace, t, |trace|))
    && (forall t: nat :: t < |tasks| && tasks[t].Installing? ==> VerifiedIn(trace, t, |trace|))
    && (forall t: nat, j :: 0 <= j < |trace| && trace[j] == FromTask(t, Quit) ==> VerifiedIn(trace, t, j))
  }

  lemma LaterCompleted(trace: seq<Closure>, c: Closure, t: nat, n: nat)
    requires n <= |trace| && Completed(trace, t, n)
    ensures Completed(trace + [c], t, n) && Completed(trace + [c], t, |trace| + 1)
  {
    var i :| 0 <= i < n && trace[i] == FromTask(t, Complete);
    assert (trace + [c])[i] == trace[i];
  }

  lemma LaterVerified(trace: seq<Closure>, c: Closure, t: nat, n: nat)
    requires n <= |trace| && VerifiedIn(trace, t, n)
    ensures VerifiedIn(trace + [c], t, n) && VerifiedIn(trace + [c], t, |trace| + 1)
  {
    var k :| 0 <= k < n && trace[k] == FromTask(t, Verified) && Completed(trace, t, k);
    LaterCompleted(trace, c, t, k);
    assert (trace + [c])[k] == trace[k];
  }

  /** A closure joins that is no report, or the next report of a task. */
  lemma PostVerify(tasks: seq<Stage>, trace: seq<Closure>, c: Closure)
    requires VerifyInv(tasks, trace)
    requires c.FromTask? && c.effect.Quit? ==> VerifiedIn(trace, c.task, |trace|)
    ensures VerifyInv(tasks, trace + [c])
  {
    var longer := trace + [c];
    forall t: nat | t < |tasks| && tasks[t].Verifying?
      ensures Completed(longer, t, |longer|)
    {
      LaterCompleted(trace, c, t, |trace|);
    }
    forall t: nat | t < |tasks| && tasks[t].Installing?
      ensures VerifiedIn(longer, t, |longer|)
    {
      LaterVerified(trace, c, t, |trace|);
    }
    forall t: nat, j | 0 <= j < |longer| && longer[j] == FromTask(t, Quit)
      ensures VerifiedIn(longer, t, j)
    {
      LaterVerified(trace, c, t, j);
    }
  }

  lemma WorkVerify(tasks: seq<Stage>, trace: seq<Closure>, t: nat, e: Effect)
    requires VerifyInv(tasks, trace) && t < |tasks| && MayReport(tasks[t], e)
    ensures VerifyInv(tasks[t := After(tasks[t], e)], trace + [FromTask(t, e)])
  {
    var c, longer := FromTask(t, e), trace + [FromTask(t, e)];
    PostVerify(tasks, trace, c);
    assert longer[|trace|] == c;
    if e.Complete? {
      assert Completed(longer, t, |longer|);
    } else if e.Verified? {
      LaterCompleted(trace, c, t, |trace|);
      assert Completed(longer, t, |trace|);
      assert VerifiedIn(longer, t, |longer|);
    }
  }

  lemma ProceedVerify(info: Info, s: Sys, m: Message)
    requires VerifyInv(s.tasks, Trace(s))
    ensures var r := Proceed(info, s, m); VerifyInv(r.tasks, Trace(r))
  {
    var a, b := Cancelled(s.target, |s.tasks|), Prepare(|s.tasks|);
    PostVerify(s.tasks, Trace(s), a);
    PostVerify(s.tasks, Trace(s), b);
    PostVerify(s.tasks, Trace(s) + [b], Spawn(s.target));
    PostTrace(s.ran, s.queue, a);
    PostTrace(s.ran, s.queue, b);
    PostTrace(s.ran, s.queue + [b], Spawn(s.target));
  }

  lemma HandleVerify(info: Info, s: Sys, m: Message)
    requires VerifyInv(s.tasks, Trace(s))
    ensures var r := Handle(info, s, m); VerifyInv(r.tasks, Trace(r))
  {
    match m
    case TryBeta =>
      PostVerify(s.tasks, Trace(s), BetaChosen);
      PostTrace(s.ran, s.queue, BetaChosen);
    case TryStable =>
      PostVerify(s.tasks, Trace(s), StableChosen);
      PostTrace(s.ran, s.queue, StableChosen);
    case _ =>
      if s.active.None? {
        ProceedVerify(info, s, m);
      }
  }

  lemma StepVerify(info: Info, s: Sys, step: Step)
    requires VerifyInv(s.tasks, Trace(s)) && Enabled(s, step)
    ensures var r := Apply(info, s, step); VerifyInv(r.tasks, Trace(r))
  {
    match step
    case Click(_) =>
    case Receive => HandleVerify(info, s.(mailbox := s.mailbox[1..]), s.mailbox[0]);
    case AbortDone => ProceedVerify(info, s, s.handler.next);
    case Resume =>
    case RunClosure => assert (s.ran + [s.queue[0]]) + s.queue[1..] == Trace(s);
    case Work(t, e) =>
      WorkVerify(s.tasks, Trace(s), t, e);
      PostTrace(s.ran, s.queue, FromTask(t, e));
    case Stop(t) =>
  }

  lemma {:induction false} RunVerify(info: Info, s: Sys, steps: seq<Step>)
    requires VerifyInv(s.tasks, Trace(s)) && Legal(info, s, steps)
    ensures var r := Run(info, s, steps); VerifyInv(r.tasks, Trace(r))
    decreases |steps|
  {
    if steps != [] {
      StepVerify(info, s, steps[0]);
      RunVerify(info, Apply(info, s, steps[0]), steps[1..]);
    }
  }

  /** The app quits for an installer only after that download was reported complete and then verified. */
  lemma InstalledIsVerified(info: Info, steps: seq<Step>, t: nat, j: nat)
    requires Legal(info, INITIAL, steps)
    requires var ran := Run(info, INITIAL, steps).ran; j < |ran| && ran[j] == FromTask(t, Quit)
    ensures VerifiedIn(Run(info, INITIAL, steps).ran, t, j)
  {
    RunVerify(info, INITIAL, steps);
    var s := Run(info, INITIAL, steps);
    assert Trace(s)[j] == s.ran[j];
    var k :| 0 <= k < j && Trace(s)[k] == FromTask(t, Verified) && Completed(Trace(s), t, k);
    var i :| 0 <= i < k && Trace(s)[i] == FromTask(t, Complete);
    assert s.ran[i] == Trace(s)[i] && s.ran[k] == Trace(s)[k];
    assert Completed(s.ran, t, k);
  }

  // ----- nothing starts unasked

  /** No download is under way between the user and the tasks. */
  ghost predicate NoneAsked(handler: Handler, mailbox: seq<Message>, queue: seq<Closure>) {
    && BeginDownload !in mailbox
    && handler != Spawning(NotYet) && (handler.Aborting? ==> handler.next.Cancel?)
    && forall i :: 0 <= i < |queue| ==> !queue[i].Spawn?
  }

  /** A click on a control that asks for a download. */
  predicate AsksToStart(step: Step) {
    step == Click(DownloadButton) || step == Click(RetryButton)
  }

  lemma StepUnasked(info: Info, s: Sys, step: Step)
    requires NoneAsked(s.handler, s.mailbox, s.queue) && Enabled(s, step) && !AsksToStart(step)
    ensures var r := Apply(info, s, step); NoneAsked(r.handler, r.mailbox, r.queue) && |r.tasks| == |s.tasks|
  {
    match step
    case Click(control) =>
    case Receive => assert s.mailbox[0] in s.mailbox;
    case AbortDone =>
    case Resume =>
    case RunClosure => assert !s.queue[0].Spawn?;
    case Work(t, e) =>
    case Stop(t) =>
  }

  /** Without a click on the download or the retry button no download is started, whatever else is clicked. */
  lemma {:induction false} NothingStartsUnasked(info: Info, s: Sys, steps: seq<Step>)
    requires NoneAsked(s.handler, s.mailbox, s.queue) && Legal(info, s, steps)
    requires forall i :: 0 <= i < |steps| ==> !AsksToStart(steps[i])
    ensures |Run(info, s, steps).tasks| == |s.tasks|
    decreases |steps|
  {
    if steps != [] {
      StepUnasked(info, s, steps[0]);
      NothingStartsUnasked(info, Apply(info, s, steps[0]), steps[1..]);
    }
  }

  // ----- a click while another waits is lost

  function FirstClick(steps: seq<Step>): Option<Control> {
    if steps == [] then None
    else if steps[0].Click? then Some(steps[0].control)
    else FirstClick(steps[1..])
  }

  /** Until the handler takes a message, the one that waits stays, and of further clicks the first counts. */
  lemma {:induction false} FirstClickCounts(info: Info, s: Sys, steps: seq<Step>)
    requires Legal(info, s, steps) && forall i :: 0 <= i < |steps| ==> !steps[i].Receive?
    ensures s.mailbox != [] ==> Run(info, s, steps).mailbox == s.mailbox
    ensures s.mailbox == [] ==>
      Run(info, s, steps).mailbox == match FirstClick(steps) case None => [] case Some(control) => [MessageOf(control)]
    decreases |steps|
  {
    if steps != [] {
      FirstClickCounts(info, Apply(info, s, steps[0]), steps[1..]);
    }
  }

  // ----- clicks take effect

  lemma InvStep(info: Info, s: Sys, step: Step) returns (r: Sys)
    requires Reachable(info, s) && Inv(info, s) && Enabled(s, step)
    ensures r == Apply(info, s, step) && Reachable(info, r) && Inv(info, r)
  {
    r := Then(info, s, step);
    StepKeepsInv(info, s, step);
  }

  /** The awaited download ends, aborted if it must be, and the handler goes on. */
  lemma Awaits(info: Info, s: Sys) returns (r: Sys)
    requires Reachable(info, s) && Inv(info, s) && !s.ui.quit && s.handler.Aborting?
    ensures Reachable(info, r) && Inv(info, r) && |r.tasks| == |s.tasks|
    ensures r == Proceed(info, s.(tasks := r.tasks), s.handler.next)
  {
    var t := s.handler.task;
    r := s;
    if Live(s.tasks, t) {
      r := InvStep(info, s, Stop(t));
    }
    r := InvStep(info, r, AbortDone);
  }

  /** The handler takes the only message, once an active download has ended. */
  lemma Reaches(info: Info, s: Sys, control: Control) returns (r: Sys)
    requires Reachable(info, s) && Inv(info, s) && !s.ui.quit && Clickable(s.ui, control)
    requires s.handler.Idle? && s.mailbox == [] && s.queue == []
    requires MessageOf(control).BeginDownload? || MessageOf(control).Cancel?
    ensures Reachable(info, r) && Inv(info, r) && |r.tasks| == |s.tasks|
    ensures r == Proceed(info, s.(active := None, tasks := r.tasks), MessageOf(control))
  {
    r := InvStep(info, s, Click(control));
    r := InvStep(info, r, Receive);
    if s.active.Some? {
      r := Awaits(info, r);
    }
  }

  lemma ProceededNone(info: Info, s: Sys, m: Message)
    requires TaskInv(Proceed(info, s, m)) && s.active.None? && info.Has(s.target)
    ensures OnlyLive(s.tasks, None)
  {
  }

  /** A click on the download or the retry button at rest starts the version chosen, if it has a URL. */
  lemma StartTakesEffect(info: Info, steps: seq<Step>, control: Control) returns (after: Sys)
    requires Legal(info, INITIAL, steps) && (control.DownloadButton? || control.RetryButton?)
    requires var s := Run(info, INITIAL, steps); AtRest(s) && !s.ui.quit && Clickable(s.ui, control) && info.Urls(s.target)
    ensures var s := Run(info, INITIAL, steps);
      && Reachable(info, after) && after.target == s.target
      && after.ran == s.ran + [Prepare(|s.tasks|), Spawn(s.target)]
      && |after.tasks| == |s.tasks| + 1 && after.tasks[|s.tasks|] == Downloading && after.active == Some(|s.tasks|)
      && Clickable(after.ui, CancelButton) && !after.ui.download && !after.ui.error
  {
    var s := Run(info, INITIAL, steps);
    InitialInv(info);
    RunKeepsInv(info, INITIAL, steps);
    var r := Reaches(info, s, control);
    r := Then(info, r, RunClosure);
    r := Then(info, r, RunClosure);
    after := Then(info, r, Resume);
    assert (s.ran + [Prepare(|s.tasks|)]) + [Spawn(s.target)] == s.ran + [Prepare(|s.tasks|), Spawn(s.target)];
  }

  /** A click on the cancel or the dismiss button ends every download and starts none, and brings the
      download button back. */
  lemma CancelTakesEffect(info: Info, steps: seq<Step>, control: Control) returns (after: Sys)
    requires Legal(info, INITIAL, steps) && (control.CancelButton? || control.DismissButton?)
    requires var s := Run(info, INITIAL, steps);
      s.handler.Idle? && s.mailbox == [] && s.queue == [] && !s.ui.quit && Clickable(s.ui, control)
    ensures var s := Run(info, INITIAL, steps);
      && Reachable(info, after) && AtRest(after) && after.target == s.target && after.active == None
      && |after.tasks| == |s.tasks| && after.ran == s.ran + [Cancelled(s.target, |s.tasks|)]
      && after.ui.download && !after.ui.cancel && !after.ui.progress && !after.ui.error
  {
    var s := Run(info, INITIAL, steps);
    InitialInv(info);
    RunKeepsInv(info, INITIAL, steps);
    var r := Reaches(info, s, control);
    ProceededNone(info, s.(active := None, tasks := r.tasks), Cancel);
    after := Then(info, r, RunClosure);
  }
}
