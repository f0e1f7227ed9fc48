/** The user is never left without a way on, and exactly when that could fail. */
module InstallerOffers {
  import opened Options
  import opened Installer
  import opened InstallerTheorems

  /** The user can start, retry or dismiss something. */
  predicate Offers(ui: Ui) {
    (ui.download && ui.downloadOn) || ui.error
  }

  /** Nothing happens any more unless the user acts. */
  ghost predicate AtRest(s: Sys) {
    && s.handler.Idle? && s.mailbox == [] && s.queue == []
    && forall t: nat :: !Live(s.tasks, t)
  }

  /** Both versions can be downloaded or neither can. */
  predicate Consistent(info: Info) {
    info.hasBeta ==> info.stableUrls == info.betaUrls
  }

  /** A closure that ends with an offer, with the app, or with a download that will. */
  predicate Restores(info: Info, c: Closure) {
    match c
    case Spawn(v) => info.Urls(v)
    case Cancelled(_, _) => true
    case FromTask(_, e) => e.Failure? || e.Quit?
    case _ => false
  }

  ghost predicate SomeRestores(info: Info, queue: seq<Closure>) {
    exists i :: 0 <= i < |queue| && Restores(info, queue[i])
  }

  ghost predicate SomeLive(tasks: seq<Stage>) {
    exists t: nat :: Live(tasks, t)
  }

  /** An offer stands or is on its way. */
  ghost predicate Promised(info: Info, s: Sys) {
    || s.ui.quit || s.ui.download || s.ui.error
    || s.handler.Aborting?
    || SomeLive(s.tasks)
    || SomeRestores(info, s.queue)
  }

  /** Every preparing closure is followed by its spawning one. */
  ghost predicate Prepared(queue: seq<Closure>) {
    forall i: nat :: PairAt(queue, i)
  }

  predicate PairAt(queue: seq<Closure>, i: nat) {
    i < |queue| && queue[i].Prepare? ==> i + 1 < |queue| && queue[i + 1].Spawn?
  }

  ghost predicate OfferInv(info: Info, s: Sys) {
    && s.ui.downloadOn
    && Prepared(s.queue)
    && TaskFacts(info, s.handler, s.active, s.ui, s.tasks != [])
    && Promised(info, s)
  }

  ghost predicate OfferedInv(info: Info, s: Sys) {
    s == INITIAL || OfferInv(info, s)
  }

  lemma PostPrepared(queue: seq<Closure>, c: Closure)
    requires Prepared(queue) && !c.Prepare?
    ensures Prepared(queue + [c])
  {
    forall i: nat
      ensures PairAt(queue + [c], i)
    {
      assert PairAt(queue, i);
    }
  }

  lemma PostBoth(queue: seq<Closure>, n: nat, v: Version)
    requires Prepared(queue)
    ensures Prepared(queue + [Prepare(n)] + [Spawn(v)])
  {
    forall i: nat
      ensures PairAt(queue + [Prepare(n)] + [Spawn(v)], i)
    {
      assert PairAt(queue, i);
    }
  }

  lemma PostRestores(info: Info, queue: seq<Closure>, c: Closure)
    requires SomeRestores(info, queue) || Restores(info, c)
    ensures SomeRestores(info, queue + [c])
  {
    var longer := queue + [c];
    if Restores(info, c) {
      assert longer[|queue|] == c;
    } else {
      var i :| 0 <= i < |queue| && Restores(info, queue[i]);
      assert longer[i] == queue[i];
    }
  }

  lemma ProceedOffers(info: Info, s: Sys, m: Message)
    requires VersionInv(info, s) && OfferInv(info, s)
    ensures OfferInv(info, Proceed(info, s, m))
  {
    var r := Proceed(info, s, m);
    if m.Cancel? {
      PostPrepared(s.queue, Cancelled(s.target, |s.tasks|));
      PostRestores(info, s.queue, Cancelled(s.target, |s.tasks|));
    } else {
      PostBoth(s.queue, |s.tasks|, s.target);
      if SomeRestores(info, s.queue) {
        PostRestores(info, s.queue, Prepare(|s.tasks|));
      }
      if SomeRestores(info, s.queue) || info.Urls(s.target) {
        PostRestores(info, s.queue + [Prepare(|s.tasks|)], Spawn(s.target));
      }
    }
  }

  lemma HandleOffers(info: Info, s: Sys, m: Message)
    requires VersionInv(info, s) && OfferInv(info, s)
    ensures OfferInv(info, Handle(info, s, m))
  {
    match m
    case TryBeta =>
      PostPrepared(s.queue, BetaChosen);
      if SomeRestores(info, s.queue) {
        PostRestores(info, s.queue, BetaChosen);
      }
    case TryStable =>
      PostPrepared(s.queue, StableChosen);
      if SomeRestores(info, s.queue) {
        PostRestores(info, s.queue, StableChosen);
      }
    case _ =>
      if s.active.None? {
        ProceedOffers(info, s, m);
      }
  }

  lemma RestPrepared(queue: seq<Closure>)
    requires queue != [] && Prepared(queue)
    ensures Prepared(queue[1..])
  {
    forall i: nat
      ensures PairAt(queue[1..], i)
    {
      assert PairAt(queue, i + 1);
    }
  }

  lemma RestRestores(info: Info, queue: seq<Closure>)
    requires SomeRestores(info, queue) && !Restores(info, queue[0])
    ensures SomeRestores(info, queue[1..])
  {
    var i :| 0 <= i < |queue| && Restores(info, queue[i]);
    assert queue[1..][i - 1] == queue[i];
  }

  lemma LiveStays(tasks: seq<Stage>)
    ensures SomeLive(tasks) ==> SomeLive(tasks + [Downloading])
    ensures SomeLive(tasks + [Downloading])
  {
    assert Live(tasks + [Downloading], |tasks|);
  }

  /** The head closure runs while an offer stands or is promised. */
  lemma RunPromised(info: Info, s: Sys)
    requires Inv(info, s) && OfferInv(info, s) && s.queue != []
    ensures Promised(info, RunHead(info, s))
  {
    var c, rest := s.queue[0], s.queue[1..];
    assert Grounded(info, c);
    if SomeRestores(info, s.queue) && !Restores(info, c) {
      RestRestores(info, s.queue);
    }
    LiveStays(s.tasks);
    if c.Prepare? && s.ui.error && !s.ui.download {
      assert PairAt(s.queue, 0);
      assert Grounded(info, s.queue[1]);
      assert rest[0] == s.queue[1] && Restores(info, rest[0]);
    }
  }

  lemma UrlsForAll(info: Info, v: Version, w: Version)
    requires Consistent(info) && info.Has(v) && info.Urls(v) && info.Has(w)
    ensures info.Urls(w)
  {
  }

  lemma HeadCounted(s: Sys)
    requires FenceInv(s.tasks, Trace(s)) && s.queue != []
    ensures s.queue[0].FromTask? ==> s.tasks != []
  {
    assert Trace(s)[|s.ran|] == s.queue[0];
  }

  ghost predicate TaskFacts(info: Info, handler: Handler, active: Option<nat>, ui: Ui, spawned: bool) {
    && (spawned ==> forall v :: info.Has(v) ==> info.Urls(v))
    && (ui.error || !ui.download || handler.Aborting? || active.Some? ==> spawned)
    && (handler.Spawning? && handler.reply.Spawned? ==> spawned)
  }

  lemma RunFacts(info: Info, s: Sys)
    requires Consistent(info) && TaskFacts(info, s.handler, s.active, s.ui, s.tasks != [])
    requires s.queue != [] && Grounded(info, s.queue[0]) && (s.queue[0].FromTask? ==> s.tasks != [])
    ensures var r := RunHead(info, s); TaskFacts(info, r.handler, r.active, r.ui, r.tasks != [])
  {
    var c := s.queue[0];
    if c.Spawn? && info.Urls(c.version) {
      forall w | info.Has(w)
        ensures info.Urls(w)
      {
        UrlsForAll(info, c.version, w);
      }
    }
  }

  lemma ShownStaysOn(info: Info, ui: Ui, c: Closure)
    requires ui.downloadOn
    ensures Shown(info, ui, c).downloadOn
  {
    match c
    case Ready =>
    case BetaChosen =>
    case StableChosen =>
    case Prepare(_) =>
    case Spawn(_) =>
    case Cancelled(_, _) =>
    case FromTask(_, effect) =>
      match effect
      case Progress =>
      case Complete =>
      case Verified =>
      case Failure =>
      case Quit =>
  }

  lemma RunKeepsRest(info: Info, s: Sys)
    requires s.queue != [] && Prepared(s.queue) && s.ui.downloadOn
    ensures var r := RunHead(info, s); r.ui.downloadOn && Prepared(r.queue)
  {
    ShownStaysOn(info, s.ui, s.queue[0]);
    RestPrepared(s.queue);
  }

  lemma RunAssembles(info: Info, s: Sys)
    requires Consistent(info) && OfferInv(info, s)
    requires s.queue != [] && Grounded(info, s.queue[0]) && (s.queue[0].FromTask? ==> s.tasks != [])
    requires Promised(info, RunHead(info, s))
    ensures OfferInv(info, RunHead(info, s))
  {
    RunFacts(info, s);
    RunKeepsRest(info, s);
  }

  lemma RunOffers(info: Info, s: Sys)
    requires Consistent(info) && Inv(info, s) && OfferInv(info, s) && s.queue != []
    ensures OfferInv(info, RunHead(info, s))
  {
    HeadCounted(s);
    RunPromised(info, s);
    RunAssembles(info, s);
  }

  lemma WorkOffers(info: Info, s: Sys, t: nat, e: Effect)
    requires OfferInv(info, s) && t < |s.tasks| && MayReport(s.tasks[t], e)
    ensures OfferInv(info, Post(s.(tasks := s.tasks[t := After(s.tasks[t], e)]), FromTask(t, e)))
  {
    PostPrepared(s.queue, FromTask(t, e));
    if SomeRestores(info, s.queue) || Restores(info, FromTask(t, e)) {
      PostRestores(info, s.queue, FromTask(t, e));
    } else {
      assert Live(s.tasks[t := After(s.tasks[t], e)], t);
    }
  }

  lemma StepOffers(info: Info, s: Sys, step: Step)
    requires Consistent(info) && Inv(info, s) && OfferInv(info, s) && Enabled(s, step)
    ensures OfferInv(info, Apply(info, s, step))
  {
    match step
    case Click(_) =>
    case Receive => HandleOffers(info, s.(mailbox := s.mailbox[1..]), s.mailbox[0]);
    case AbortDone => ProceedOffers(info, s, s.handler.next);
    case Resume =>
    case RunClosure => RunOffers(info, s);
    case Work(t, e) => WorkOffers(info, s, t, e);
    case Stop(t) =>
  }

  lemma FirstOffer(info: Info, step: Step)
    requires Enabled(INITIAL, step)
    ensures OfferInv(info, Apply(info, INITIAL, step))
  {
    assert step == RunClosure;
  }

  lemma {:induction false} RunKeepsOffers(info: Info, s: Sys, steps: seq<Step>)
    requires Consistent(info) && Inv(info, s) && OfferedInv(info, s) && Legal(info, s, steps)
    ensures OfferedInv(info, Run(info, s, steps)) && Inv(info, Run(info, s, steps))
    decreases |steps|
  {
    if steps != [] {
      StepKeepsInv(info, s, steps[0]);
      if s == INITIAL {
        FirstOffer(info, steps[0]);
      } else {
        StepOffers(info, s, steps[0]);
      }
      RunKeepsOffers(info, Apply(info, s, steps[0]), steps[1..]);
    }
  }

  /** When both versions can be downloaded or neither can, the user always has a way on. */
  lemma ConsistentOffers(info: Info, steps: seq<Step>)
    requires Consistent(info) && Legal(info, INITIAL, steps)
    requires var s := Run(info, INITIAL, steps); AtRest(s) && !s.ui.quit
    ensures Offers(Run(info, INITIAL, steps).ui)
  {
    InitialInv(info);
    RunKeepsOffers(info, INITIAL, steps);
  }

  // ----- without that, the user can be left with nothing

  ghost predicate Reachable(info: Info, s: Sys) {
    exists steps :: Legal(info, INITIAL, steps) && Run(info, INITIAL, steps) == s
  }

  lemma {:induction false} RunAppend(info: Info, s: Sys, steps: seq<Step>, step: Step)
    requires Legal(info, s, steps) && Enabled(Run(info, s, steps), step)
    ensures Legal(info, s, steps + [step])
    ensures Run(info, s, steps + [step]) == Apply(info, Run(info, s, steps), step)
    decreases |steps|
  {
    var longer := steps + [step];
    if steps == [] {
      assert longer[1..] == [];
    } else {
      assert longer[0] == steps[0] && longer[1..] == steps[1..] + [step];
      RunAppend(info, Apply(info, s, steps[0]), steps[1..], step);
    }
  }

  lemma Then(info: Info, s: Sys, step: Step) returns (r: Sys)
    requires Reachable(info, s) && Enabled(s, step)
    ensures r == Apply(info, s, step) && Reachable(info, r)
  {
    var steps :| Legal(info, INITIAL, steps) && Run(info, INITIAL, steps) == s;
    RunAppend(info, INITIAL, steps, step);
    r := Apply(info, s, step);
  }

  /** The state without the history of closures. */
  ghost predicate Is(
    s: Sys, handler: Handler, mailbox: seq<Message>, active: Option<nat>, target: Version,
    queue: seq<Closure>, tasks: seq<Stage>, ui: Ui)
  {
    s == Sys(handler, mailbox, active, target, false, queue, s.ran, tasks, ui)
  }

  function Other(v: Version): Version {
    if v.Stable? then Beta else Stable
  }

  function LinkTo(v: Version): Control {
    if v.Stable? then StableLink else BetaLink
  }

  function Try(v: Version): Message {
    if v.Stable? then TryStable else TryBeta
  }

  function Chosen(v: Version): Closure {
    if v.Stable? then StableChosen else BetaChosen
  }

  /** The controls of a user who has chosen `v` and may start it or switch. */
  function Choosing(v: Version): Ui {
    Ui(true, true, false, false, false, v.Stable?, v.Beta?, false, false)
  }

  lemma ReachChoosing(info: Info, v: Version) returns (s: Sys)
    requires info.hasBeta
    ensures Reachable(info, s) && Is(s, Idle, [], None, v, [], [], Choosing(v))
  {
    assert Legal(info, INITIAL, []) && Run(info, INITIAL, []) == INITIAL;
    s := Then(info, INITIAL, RunClosure);
    if v.Beta? {
      s := Then(info, s, Click(BetaLink));
      s := Then(info, s, Receive);
      s := Then(info, s, RunClosure);
    }
  }

  /** A download starts while the click on the other link is still in the mailbox. */
  lemma StartAndSwitch(info: Info, v: Version, s: Sys) returns (r: Sys)
    requires info.hasBeta && info.Urls(v) && Reachable(info, s) && Is(s, Idle, [], None, v, [], [], Choosing(v))
    ensures Reachable(info, r)
    ensures Is(r, Idle, [Try(Other(v))], Some(0), v, [], [Downloading], Ui(false, true, true, true, true, false, false, false, false))
  {
    r := Then(info, s, Click(DownloadButton));
    r := Then(info, r, Receive);
    assert Is(r, Spawning(NotYet), [], None, v, [Prepare(0), Spawn(v)], [], Choosing(v));
    r := Then(info, r, Click(LinkTo(Other(v))));
    r := Then(info, r, RunClosure);
    assert Is(r, Spawning(NotYet), [Try(Other(v))], None, v, [Spawn(v)], [], Choosing(v));
    r := Then(info, r, RunClosure);
    r := Then(info, r, Resume);
  }

  /** The switch takes effect, then the download fails. */
  lemma SwitchAndFail(info: Info, v: Version, s: Sys) returns (r: Sys)
    requires info.hasBeta && Reachable(info, s)
    requires Is(s, Idle, [Try(Other(v))], Some(0), v, [], [Downloading], Ui(false, true, true, true, true, false, false, false, false))
    ensures Reachable(info, r)
    ensures Is(r, Idle, [], Some(0), Other(v), [], [Ended], Ui(false, true, false, true, false, v.Beta?, v.Stable?, true, false))
  {
    r := Then(info, s, Receive);
    assert Is(r, Idle, [], Some(0), Other(v), [Chosen(Other(v))], [Downloading], s.ui);
    r := Then(info, r, RunClosure);
    r := Then(info, r, Work(0, Failure));
    assert Is(r, Idle, [], Some(0), Other(v), [FromTask(0, Failure)], [Ended], r.ui);
    r := Then(info, r, RunClosure);
  }

  /** The retry finds no URL: the error is gone and nothing takes its place. */
  lemma RetryInVain(info: Info, v: Version, s: Sys) returns (r: Sys)
    requires info.hasBeta && !info.Urls(v) && Reachable(info, s)
    requires Is(s, Idle, [], Some(0), v, [], [Ended], Ui(false, true, false, true, false, v.Stable?, v.Beta?, true, false))
    ensures Reachable(info, r)
    ensures Is(r, Idle, [], None, v, [], [Ended], Ui(false, true, false, true, false, v.Stable?, v.Beta?, false, false))
  {
    r := Then(info, s, Click(RetryButton));
    r := Then(info, r, Receive);
    assert Is(r, Aborting(0, BeginDownload), [], None, v, [], [Ended], s.ui);
    r := Then(info, r, AbortDone);
    assert Is(r, Spawning(NotYet), [], None, v, [Prepare(1), Spawn(v)], [Ended], s.ui);
    r := Then(info, r, RunClosure);
    assert Is(r, Spawning(NotYet), [], None, v, [Spawn(v)], [Ended], s.ui.(error := false));
    r := Then(info, r, RunClosure);
    r := Then(info, r, Resume);
  }

  lemma InconsistentStrands(info: Info) returns (s: Sys)
    requires !Consistent(info)
    ensures Reachable(info, s) && AtRest(s) && !s.ui.quit && !Offers(s.ui)
  {
    var v := if info.stableUrls then Stable else Beta;
    s := ReachChoosing(info, v);
    s := StartAndSwitch(info, v, s);
    s := SwitchAndFail(info, v, s);
    s := RetryInVain(info, Other(v), s);
  }

  /**
   In every reachable state at rest the user can start or retry something, exactly when the two
   versions are consistent: a beta without any URL beside a stable version with one, or the other way
   round, lets a late click strand the user.
   */
  lemma OffersExactly(info: Info)
    ensures (forall s :: Reachable(info, s) && AtRest(s) && !s.ui.quit ==> Offers(s.ui)) <==> Consistent(info)
  {
    if Consistent(info) {
      forall s | Reachable(info, s) && AtRest(s) && !s.ui.quit
        ensures Offers(s.ui)
      {
        var steps :| Legal(info, INITIAL, steps) && Run(info, INITIAL, steps) == s;
        ConsistentOffers(info, steps);
      }
    } else {
      var s := InconsistentStrands(info);
    }
  }
}
