/** What the user sees: every control by the closures that have run, and a link to the version not chosen. */
module InstallerControls {
  import opened Options
  import opened Installer
  import opened InstallerTheorems
  import opened InstallerOffers

  // ----- the controls by the history of closures

  datatype Light =
    | DownloadEnabled
    | DownloadHidden
    | CancelShown
    | CancelEnabled
    | ProgressShown
    | ErrorShown
    | BetaShown
    | StableShown
    | QuitReached

  predicate Lit(ui: Ui, light: Light) {
    match light
    case DownloadEnabled => ui.downloadOn
    case DownloadHidden => !ui.download
    case CancelShown => ui.cancel
    case CancelEnabled => ui.cancelOn
    case ProgressShown => ui.progress
    case ErrorShown => ui.error
    case BetaShown => ui.beta
    case StableShown => ui.stable
    case QuitReached => ui.quit
  }

  predicate Reports(c: Closure, e: Effect) {
    c.FromTask? && c.effect == e
  }

  predicate SwitchesOn(info: Info, light: Light, c: Closure) {
    match light
    case DownloadEnabled => c.Ready?
    case DownloadHidden => Starts(info, c) || Reports(c, Failure)
    case CancelShown => Starts(info, c)
    case CancelEnabled => Starts(info, c)
    case ProgressShown => Starts(info, c)
    case ErrorShown => Reports(c, Failure)
    case BetaShown => c.StableChosen? || (info.hasBeta && (c.Ready? || (c.Cancelled? && c.version.Stable?)))
    case StableShown => c.BetaChosen? || (c.Cancelled? && c.version.Beta?)
    case QuitReached => Reports(c, Quit)
  }

  predicate SwitchesOff(info: Info, light: Light, c: Closure) {
    match light
    case DownloadEnabled => false
    case DownloadHidden => c.Cancelled?
    case CancelShown => c.Cancelled? || Reports(c, Failure)
    case CancelEnabled => Reports(c, Complete)
    case ProgressShown => c.Cancelled? || Reports(c, Failure)
    case ErrorShown => c.Prepare? || c.Cancelled?
    case BetaShown => c.BetaChosen? || Starts(info, c)
    case StableShown => c.StableChosen? || Starts(info, c)
    case QuitReached => false
  }

  /** Some closure switched it on, and none later switched it off. */
  ghost predicate LastOn(info: Info, light: Light, ran: seq<Closure>) {
    exists i :: 0 <= i < |ran| && OnSince(info, light, ran, i)
  }

  ghost predicate OnSince(info: Info, light: Light, ran: seq<Closure>, i: nat)
    requires i < |ran|
  {
    SwitchesOn(info, light, ran[i]) && forall j :: i < j < |ran| ==> !SwitchesOff(info, light, ran[j])
  }

  lemma LastOnNext(info: Info, light: Light, ran: seq<Closure>, c: Closure)
    ensures LastOn(info, light, ran + [c]) <==>
      SwitchesOn(info, light, c) || (LastOn(info, light, ran) && !SwitchesOff(info, light, c))
  {
    var longer := ran + [c];
    assert longer[|ran|] == c && forall j :: 0 <= j < |ran| ==> longer[j] == ran[j];
    if SwitchesOn(info, light, c) {
      assert OnSince(info, light, longer, |ran|);
    } else if i :| 0 <= i < |longer| && OnSince(info, light, longer, i) {
      assert OnSince(info, light, ran, i);
    } else if i :| 0 <= i < |ran| && OnSince(info, light, ran, i) {
      if !SwitchesOff(info, light, c) {
        assert OnSince(info, light, longer, i);
      }
    }
  }

  /** The light after a closure that switches it on or off, or leaves it. */
  predicate Follows(info: Info, ui: Ui, c: Closure, light: Light) {
    Lit(Shown(info, ui, c), light) <==>
      SwitchesOn(info, light, c) || (Lit(ui, light) && !SwitchesOff(info, light, c))
  }

  lemma ReadyLights(info: Info, ui: Ui, light: Light)
    ensures Follows(info, ui, Ready, light)
  {
  }

  lemma ChoiceShown(info: Info, ui: Ui, c: Closure)
    requires c.BetaChosen? || c.StableChosen?
    ensures Shown(info, ui, c) == ui.(stable := c.BetaChosen?, beta := c.StableChosen?)
  {
  }

  lemma ChoiceLights(info: Info, ui: Ui, c: Closure, after: Ui, light: Light)
    requires (c.BetaChosen? || c.StableChosen?) && after == ui.(stable := c.BetaChosen?, beta := c.StableChosen?)
    ensures Lit(after, light) <==> SwitchesOn(info, light, c) || (Lit(ui, light) && !SwitchesOff(info, light, c))
  {
    match light
    case BetaShown =>
    case StableShown =>
    case _ =>
  }

  lemma ChosenLights(info: Info, ui: Ui, c: Closure, light: Light)
    requires c.BetaChosen? || c.StableChosen?
    ensures Follows(info, ui, c, light)
  {
    ChoiceShown(info, ui, c);
    ChoiceLights(info, ui, c, Shown(info, ui, c), light);
  }

  lemma CancelLights(info: Info, ui: Ui, c: Closure, light: Light)
    requires c.Cancelled?
    ensures Follows(info, ui, c, light)
  {
  }

  lemma StartLights(info: Info, ui: Ui, c: Closure, light: Light)
    requires c.Prepare? || c.Spawn?
    ensures Follows(info, ui, c, light)
  {
  }

  lemma FailureLights(info: Info, ui: Ui, task: nat, light: Light)
    ensures Follows(info, ui, FromTask(task, Failure), light)
  {
    var after := Shown(info, ui, FromTask(task, Failure));
    assert after == ui.(progress := false, download := false, cancel := false, error := true);
  }

  lemma CompleteLights(info: Info, ui: Ui, task: nat, light: Light)
    ensures Follows(info, ui, FromTask(task, Complete), light)
  {
    assert Shown(info, ui, FromTask(task, Complete)) == ui.(cancelOn := false);
  }

  lemma QuitLights(info: Info, ui: Ui, task: nat, light: Light)
    ensures Follows(info, ui, FromTask(task, Quit), light)
  {
    assert Shown(info, ui, FromTask(task, Quit)) == ui.(quit := true);
  }

  lemma SilentLights(info: Info, ui: Ui, task: nat, light: Light)
    ensures Follows(info, ui, FromTask(task, Progress), light) && Follows(info, ui, FromTask(task, Verified), light)
  {
    assert Shown(info, ui, FromTask(task, Progress)) == ui;
    assert Shown(info, ui, FromTask(task, Verified)) == ui;
  }

  lemma TaskLights(info: Info, ui: Ui, c: Closure, light: Light)
    requires c.FromTask?
    ensures Follows(info, ui, c, light)
  {
    match c.effect
    case Failure => FailureLights(info, ui, c.task, light);
    case Complete => CompleteLights(info, ui, c.task, light);
    case Quit => QuitLights(info, ui, c.task, light);
    case Progress => SilentLights(info, ui, c.task, light);
    case Verified => SilentLights(info, ui, c.task, light);
  }

  lemma ShownLights(info: Info, ui: Ui, c: Closure, light: Light)
    ensures Follows(info, ui, c, light)
  {
    match c
    case Ready => ReadyLights(info, ui, light);
    case BetaChosen => ChosenLights(info, ui, c, light);
    case StableChosen => ChosenLights(info, ui, c, light);
    case Prepare(_) => StartLights(info, ui, c, light);
    case Spawn(_) => StartLights(info, ui, c, light);
    case Cancelled(_, _) => CancelLights(info, ui, c, light);
    case FromTask(_, _) => TaskLights(info, ui, c, light);
  }

  ghost predicate LightInv(info: Info, s: Sys) {
    forall light :: Lit(s.ui, light) <==> LastOn(info, light, s.ran)
  }

  lemma StepLights(info: Info, s: Sys, step: Step)
    requires LightInv(info, s) && Enabled(s, step)
    ensures LightInv(info, Apply(info, s, step))
  {
    if step.RunClosure? {
      forall light
        ensures Lit(RunHead(info, s).ui, light) <==> LastOn(info, light, RunHead(info, s).ran)
      {
        ShownLights(info, s.ui, s.queue[0], light);
        LastOnNext(info, light, s.ran, s.queue[0]);
      }
    }
  }

  lemma {:induction false} RunLights(info: Info, s: Sys, steps: seq<Step>)
    requires LightInv(info, s) && Legal(info, s, steps)
    ensures LightInv(info, Run(info, s, steps))
    decreases |steps|
  {
    if steps != [] {
      StepLights(info, s, steps[0]);
      RunLights(info, Apply(info, s, steps[0]), steps[1..]);
    }
  }

  /** In every run, a control is shown or enabled exactly if some closure that has run switched it on and
      none since has switched it off. */
  lemma ControlsExactly(info: Info, steps: seq<Step>, light: Light)
    requires Legal(info, INITIAL, steps)
    ensures var s := Run(info, INITIAL, steps); Lit(s.ui, light) <==> LastOn(info, light, s.ran)
  {
    RunLights(info, INITIAL, steps);
  }

  /** The user can cancel exactly while the latest download that was started has neither completed nor
      failed nor been cancelled on the screen. */
  lemma CancelExactly(info: Info, steps: seq<Step>)
    requires Legal(info, INITIAL, steps)
    ensures var s := Run(info, INITIAL, steps);
      Clickable(s.ui, CancelButton) <==>
        exists i :: 0 <= i < |s.ran| && Starts(info, s.ran[i]) &&
          forall j :: i < j < |s.ran| ==> !s.ran[j].Cancelled? && !Reports(s.ran[j], Failure) && !Reports(s.ran[j], Complete)
  {
    var ran := Run(info, INITIAL, steps).ran;
    ControlsExactly(info, steps, CancelShown);
    ControlsExactly(info, steps, CancelEnabled);
    if LastOn(info, CancelShown, ran) && LastOn(info, CancelEnabled, ran) {
      var i :| 0 <= i < |ran| && OnSince(info, CancelShown, ran, i);
      var k :| 0 <= k < |ran| && OnSince(info, CancelEnabled, ran, k);
      var later := if i < k then k else i;
      assert Starts(info, ran[later]);
      assert forall j :: later < j < |ran| ==> !SwitchesOff(info, CancelShown, ran[j]) && !SwitchesOff(info, CancelEnabled, ran[j]);
    }
    if i :| 0 <= i < |ran| && Starts(info, ran[i]) &&
          forall j :: i < j < |ran| ==> !ran[j].Cancelled? && !Reports(ran[j], Failure) && !Reports(ran[j], Complete) {
      assert OnSince(info, CancelShown, ran, i) && OnSince(info, CancelEnabled, ran, i);
    }
  }

  // ----- the link to the other version

  /** The controls once the queue has run. */
  function Eventually(info: Info, ui: Ui, queue: seq<Closure>): Ui
    decreases |queue|
  {
    if queue == [] then ui else Eventually(info, Shown(info, ui, queue[0]), queue[1..])
  }

  lemma {:induction false} EventuallyNext(info: Info, ui: Ui, queue: seq<Closure>, c: Closure)
    ensures Eventually(info, ui, queue + [c]) == Shown(info, Eventually(info, ui, queue), c)
    decreases |queue|
  {
    if queue == [] {
      assert [] + [c] == [c] && [c][1..] == [];
    } else {
      assert (queue + [c])[0] == queue[0] && (queue + [c])[1..] == queue[1..] + [c];
      EventuallyNext(info, Shown(info, ui, queue[0]), queue[1..], c);
    }
  }

  /** No link to the version chosen, and one to the other wherever a download can be started. */
  predicate Linked(ui: Ui, target: Version) {
    && !Clickable(ui, LinkTo(target))
    && (ui.download ==> Clickable(ui, LinkTo(Other(target))))
  }

  ghost predicate LinkInv(info: Info, s: Sys) {
    Linked(Eventually(info, s.ui, s.queue), s.target)
  }

  /** A choice links to the other version, whatever was linked before. */
  lemma ChoiceLinks(info: Info, ui: Ui, target: Version)
    ensures Linked(Shown(info, ui, Chosen(target)), target)
  {
  }

  lemma CancelLinks(info: Info, ui: Ui, target: Version, n: nat)
    requires info.hasBeta && Linked(ui, target)
    ensures Linked(Shown(info, ui, Cancelled(target, n)), target)
  {
  }

  lemma StartLinks(info: Info, ui: Ui, target: Version, c: Closure)
    requires Linked(ui, target) && (c.Prepare? || c.Spawn?)
    ensures Linked(Shown(info, ui, c), target)
  {
  }

  /** A download's report leaves the links alone, and never shows the download button. */
  lemma ReportShown(info: Info, ui: Ui, task: nat, effect: Effect)
    ensures var after := Shown(info, ui, FromTask(task, effect));
      after.beta == ui.beta && after.stable == ui.stable && (after.download ==> ui.download)
  {
    match effect
    case Failure =>
    case Complete =>
    case Quit =>
    case Progress =>
    case Verified =>
  }

  lemma ReportLinks(info: Info, ui: Ui, target: Version, c: Closure)
    requires Linked(ui, target) && c.FromTask?
    ensures Linked(Shown(info, ui, c), target)
  {
    ReportShown(info, ui, c.task, c.effect);
  }

  lemma PostLinks(info: Info, s: Sys, target: Version, c: Closure)
    requires info.hasBeta && LinkInv(info, s)
    requires c == Chosen(target) ||
      (target == s.target && (c.Prepare? || c.Spawn? || c.FromTask? || (c.Cancelled? && c.version == target)))
    ensures LinkInv(info, Post(s.(target := target), c))
  {
    EventuallyNext(info, s.ui, s.queue, c);
    var ui := Eventually(info, s.ui, s.queue);
    if c == Chosen(target) {
      ChoiceLinks(info, ui, target);
    } else if c.Cancelled? {
      CancelLinks(info, ui, target, c.spawned);
    } else if c.FromTask? {
      ReportLinks(info, ui, target, c);
    } else {
      StartLinks(info, ui, target, c);
    }
  }

  lemma ProceedLinks(info: Info, s: Sys, m: Message)
    requires info.hasBeta && LinkInv(info, s)
    ensures LinkInv(info, Proceed(info, s, m))
  {
    if m.Cancel? {
      PostLinks(info, s, s.target, Cancelled(s.target, |s.tasks|));
    } else {
      PostLinks(info, s, s.target, Prepare(|s.tasks|));
      PostLinks(info, Post(s, Prepare(|s.tasks|)), s.target, Spawn(s.target));
    }
  }

  lemma StepLinks(info: Info, s: Sys, step: Step)
    requires info.hasBeta && LinkInv(info, s) && Enabled(s, step)
    ensures LinkInv(info, Apply(info, s, step))
  {
    match step
    case Receive =>
      match s.mailbox[0] {
        case TryBeta => PostLinks(info, s, Beta, BetaChosen);
        case TryStable => PostLinks(info, s, Stable, StableChosen);
        case m =>
          if s.active.None? {
            ProceedLinks(info, s.(mailbox := s.mailbox[1..]), m);
          }
      }
    case AbortDone => ProceedLinks(info, s, s.handler.next);
    case Work(t, e) => PostLinks(info, s.(tasks := s.tasks[t := After(s.tasks[t], e)]), s.target, FromTask(t, e));
    case _ =>
  }

  lemma {:induction false} RunLinks(info: Info, s: Sys, steps: seq<Step>)
    requires info.hasBeta && LinkInv(info, s) && Legal(info, s, steps)
    ensures LinkInv(info, Run(info, s, steps))
    decreases |steps|
  {
    if steps != [] {
      StepLinks(info, s, steps[0]);
      RunLinks(info, Apply(info, s, steps[0]), steps[1..]);
    }
  }

  /** Whenever no closure waits and a beta exists: no link to the version chosen, and where a download can
      be started, a link to the other that can be clicked. */
  lemma OtherVersionLinked(info: Info, steps: seq<Step>)
    requires info.hasBeta && Legal(info, INITIAL, steps) && Run(info, INITIAL, steps).queue == []
    ensures var s := Run(info, INITIAL, steps);
      && !Clickable(s.ui, LinkTo(s.target))
      && (Clickable(s.ui, DownloadButton) ==> Clickable(s.ui, LinkTo(Other(s.target))))
  {
    assert Eventually(info, FIRST_UI, [Ready]) == Shown(info, FIRST_UI, Ready);
    RunLinks(info, INITIAL, steps);
  }

  /** Following that link from a state at rest chooses the other version, and links back. */
  lemma SwitchTakesEffect(info: Info, steps: seq<Step>) returns (after: Sys)
    requires info.hasBeta && Legal(info, INITIAL, steps)
    requires var s := Run(info, INITIAL, steps); AtRest(s) && !s.ui.quit && Clickable(s.ui, DownloadButton)
    ensures var s := Run(info, INITIAL, steps);
      && Reachable(info, after) && AtRest(after) && after.target == Other(s.target)
      && Clickable(after.ui, DownloadButton) && Clickable(after.ui, LinkTo(s.target))
      && !Clickable(after.ui, LinkTo(after.target))
  {
    var s := Run(info, INITIAL, steps);
    OtherVersionLinked(info, steps);
    BetaOnlyIfOffered(info, steps);
    after := Then(info, s, Click(LinkTo(Other(s.target))));
    after := Then(info, after, Receive);
    after := Then(info, after, RunClosure);
  }
}
