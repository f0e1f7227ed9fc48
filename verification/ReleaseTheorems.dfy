/** What repeated publication leaves in the manifests. */
module ReleaseTheorems {
  import opened Options
  import opened ReleaseHistory

  // ----- one run over the reference

  /** What a run does to one earlier entry: keeps it, healed, or loses it. */
  function Pass(ios: bool, p: Publication, r: Release): seq<Release> {
    if r.version in p.dropped || r.version == p.version || (ios && !Calendar(r.version)) then [] else [Healed(r, p.notes)]
  }

  function PassAll(ios: bool, p: Publication, releases: seq<Release>): seq<Release> {
    if releases == [] then [] else Pass(ios, p, releases[0]) + PassAll(ios, p, releases[1..])
  }

  function Kept(ios: bool, p: Publication, releases: seq<Release>): seq<Release> {
    var healed := HealAll(DropVersions(releases, p.dropped), p.notes);
    DropVersions(if ios then OnlyCalendar(healed) else healed, {p.version})
  }

  lemma DropCons(r: Release, rest: seq<Release>, dropped: set<string>)
    ensures DropVersions([r] + rest, dropped) ==
      if r.version in dropped then DropVersions(rest, dropped) else [r] + DropVersions(rest, dropped)
  {
    assert ([r] + rest)[1..] == rest;
  }

  lemma HealCons(r: Release, rest: seq<Release>, notes: string -> Translations)
    ensures HealAll([r] + rest, notes) == [Healed(r, notes)] + HealAll(rest, notes)
  {
    assert ([r] + rest)[1..] == rest;
  }

  lemma CalendarCons(r: Release, rest: seq<Release>)
    ensures OnlyCalendar([r] + rest) == if Calendar(r.version) then [r] + OnlyCalendar(rest) else OnlyCalendar(rest)
  {
    assert ([r] + rest)[1..] == rest;
  }

  lemma KeptCons(ios: bool, p: Publication, r: Release, rest: seq<Release>)
    ensures Kept(ios, p, [r] + rest) == Pass(ios, p, r) + Kept(ios, p, rest)
  {
    DropCons(r, rest, p.dropped);
    var tail := DropVersions(rest, p.dropped);
    HealCons(r, tail, p.notes);
    var h, healed := Healed(r, p.notes), HealAll(tail, p.notes);
    CalendarCons(h, healed);
    DropCons(h, if ios then OnlyCalendar(healed) else healed, {p.version});
  }

  /** Dropping, healing, filtering and merging go entry by entry. */
  lemma {:induction false} KeptIsPassAll(ios: bool, p: Publication, releases: seq<Release>)
    ensures Kept(ios, p, releases) == PassAll(ios, p, releases)
  {
    if releases != [] {
      assert releases == [releases[0]] + releases[1..];
      KeptCons(ios, p, releases[0], releases[1..]);
      KeptIsPassAll(ios, p, releases[1..]);
    }
  }

  lemma {:induction false} PassAppend(ios: bool, p: Publication, a: seq<Release>, b: seq<Release>)
    ensures PassAll(ios, p, a + b) == PassAll(ios, p, a) + PassAll(ios, p, b)
  {
    if a == [] {
      assert a + b == b;
    } else {
      assert (a + b)[0] == a[0] && (a + b)[1..] == a[1..] + b;
      PassAppend(ios, p, a[1..], b);
    }
  }

  // ----- the reference over one more run

  lemma StandingNext(runs: seq<Publication>, p: Publication, i: nat)
    requires i < |runs|
    ensures Standing(runs + [p], i) <==> Standing(runs, i) && p.version != runs[i].version && runs[i].version !in p.dropped
  {
    var longer := runs + [p];
    if Standing(longer, i) {
      forall j | i < j < |runs|
        ensures runs[j].version != runs[i].version && runs[i].version !in runs[j].dropped
      {
        assert longer[j] == runs[j];
      }
      assert longer[|runs|] == p;
    }
  }

  lemma NotesNext(runs: seq<Publication>, p: Publication, i: nat, version: string)
    requires i <= |runs|
    ensures Notes(runs + [p], i, version) == Notes(runs, i, version) + p.notes(version)
  {
    assert (runs + [p])[..|runs|] == runs;
  }

  lemma EntryNext(runs: seq<Publication>, p: Publication, i: nat)
    requires i < |runs|
    ensures EntryOf(runs + [p], i) == Healed(EntryOf(runs, i), p.notes)
  {
    NotesNext(runs, p, i, runs[i].version);
  }

  /** The versions the iOS manifest takes: four digits and a dot, and whatever follows. */
  lemma CalendarExactly(version: string)
    ensures Calendar(version) <==>
      exists year: string, rest: string ::
        version == year + "." + rest && |year| == 4 && forall k :: 0 <= k < 4 ==> year[k] in "0123456789"
  {
    DigitsAre();
    if Calendar(version) {
      var year, rest := version[..4], version[5..];
      assert version == year + "." + rest;
    }
  }

  lemma DigitsAre()
    ensures forall c :: IsDigit(c) <==> c in "0123456789"
  {
    forall c
      ensures IsDigit(c) <==> c in "0123456789"
    {
      DigitIs(c);
    }
  }

  lemma DigitIs(c: char)
    ensures IsDigit(c) <==> c in "0123456789"
  {
    var digits := "0123456789";
    assert forall k :: 0 <= k < 10 ==> digits[k] == '0' + k as char;
    if IsDigit(c) {
      assert digits[c as int - '0' as int] == c;
    }
  }

  /** All iOS publications carry calendar versions. */
  ghost predicate AllCalendar(runs: seq<Publication>) {
    forall i :: 0 <= i < |runs| ==> Calendar(runs[i].version)
  }

  lemma PassOne(ios: bool, p: Publication, r: Release)
    ensures PassAll(ios, p, [r]) == Pass(ios, p, r)
  {
  }

  ghost predicate Passes(ios: bool, p: Publication, a: seq<Release>, b: seq<Release>) {
    b == PassAll(ios, p, a)
  }

  lemma PassesJoin(ios: bool, p: Publication, a: seq<Release>, b: seq<Release>, c: seq<Release>, d: seq<Release>)
    requires Passes(ios, p, a, b) && Passes(ios, p, c, d)
    ensures Passes(ios, p, a + c, b + d)
  {
    PassAppend(ios, p, a, c);
  }

  lemma ListedUnfolds(runs: seq<Publication>, k: nat)
    requires 0 < k <= |runs|
    ensures Listed(runs, k) == ListedAt(runs, k - 1) + Listed(runs, k - 1)
  {
  }

  /** One more run, all calendar versions if the platform is iOS. */
  ghost predicate Extends(ios: bool, runs: seq<Publication>, p: Publication, longer: seq<Publication>) {
    longer == runs + [p] && (ios ==> AllCalendar(runs))
  }

  lemma ListedAtNext(ios: bool, runs: seq<Publication>, p: Publication, longer: seq<Publication>, i: nat)
    requires i < |runs| && i < |longer|
    ensures Extends(ios, runs, p, longer) ==> Passes(ios, p, ListedAt(runs, i), ListedAt(longer, i))
  {
    if Extends(ios, runs, p, longer) {
      StandingNext(runs, p, i);
      EntryNext(runs, p, i);
      PassOne(ios, p, EntryOf(runs, i));
    }
  }

  lemma {:induction false} ListedNext(ios: bool, runs: seq<Publication>, p: Publication, longer: seq<Publication>, k: nat)
    requires k <= |runs| && k <= |longer|
    ensures Extends(ios, runs, p, longer) ==> Passes(ios, p, Listed(runs, k), Listed(longer, k))
  {
    if Extends(ios, runs, p, longer) && k > 0 {
      ListedNext(ios, runs, p, longer, k - 1);
      ListedAtNext(ios, runs, p, longer, k - 1);
      ListedUnfolds(runs, k);
      ListedUnfolds(longer, k);
      PassesJoin(ios, p, ListedAt(runs, k - 1), ListedAt(longer, k - 1), Listed(runs, k - 1), Listed(longer, k - 1));
    }
  }

  lemma UntouchedNext(ios: bool, runs: seq<Publication>, p: Publication, version: string)
    ensures Untouched(ios, runs + [p], version) <==>
      Untouched(ios, runs, version) && p.version != version && version !in p.dropped && (ios ==> Calendar(version))
  {
    var longer := runs + [p];
    if Untouched(ios, longer, version) {
      forall j | 0 <= j < |runs|
        ensures runs[j].version != version && version !in runs[j].dropped
      {
        assert longer[j] == runs[j];
      }
      assert longer[|runs|] == p;
    }
  }

  lemma InheritedFromNext(ios: bool, runs: seq<Publication>, p: Publication, r: Release)
    ensures InheritedFrom(ios, runs + [p], r) == PassAll(ios, p, InheritedFrom(ios, runs, r))
  {
    UntouchedNext(ios, runs, p, r.version);
    NotesNext(runs, p, 0, r.version);
    PassOne(ios, p, r.(translations := r.translations + Notes(runs, 0, r.version)));
    MergeTwice(r.translations, Notes(runs, 0, r.version), p.notes(r.version));
  }

  lemma {:induction false} InheritedNext(ios: bool, runs: seq<Publication>, p: Publication, releases: seq<Release>)
    ensures Inherited(ios, runs + [p], releases) == PassAll(ios, p, Inherited(ios, runs, releases))
  {
    if releases != [] {
      InheritedNext(ios, runs, p, releases[1..]);
      InheritedFromNext(ios, runs, p, releases[0]);
      PassAppend(ios, p, InheritedFrom(ios, runs, releases[0]), Inherited(ios, runs, releases[1..]));
    }
  }

  lemma MergeTwice(a: Translations, b: Translations, c: Translations)
    ensures (a + b) + c == a + (b + c)
  {
  }

  lemma {:induction false} InheritedByNone(ios: bool, releases: seq<Release>)
    ensures Inherited(ios, [], releases) == releases
  {
    if releases != [] {
      InheritedByNone(ios, releases[1..]);
      assert releases[0].translations + map[] == releases[0].translations;
    }
  }

  lemma LastStands(runs: seq<Publication>, p: Publication)
    ensures ListedAt(runs + [p], |runs|) == [NewRelease(p)]
  {
    NotesNext(runs, p, |runs|, p.version);
    assert map[] + p.notes(p.version) == p.notes(p.version);
  }

  lemma OneRun(ios: bool, m: Manifest, p: Publication)
    ensures BuildPlatform(ios, Some(m), p) == Manifest(m.metadataVersion + 1, [NewRelease(p)] + PassAll(ios, p, m.releases))
  {
    KeptIsPassAll(ios, p, m.releases);
  }

  ghost function Expected(ios: bool, start: Manifest, runs: seq<Publication>): seq<Release> {
    Listed(runs, |runs|) + Inherited(ios, runs, start.releases)
  }

  lemma ExpectedNext(ios: bool, start: Manifest, runs: seq<Publication>, p: Publication, longer: seq<Publication>)
    requires (ios ==> AllCalendar(runs)) && longer == runs + [p]
    ensures Expected(ios, start, longer) == [NewRelease(p)] + PassAll(ios, p, Expected(ios, start, runs))
  {
    ListedNext(ios, runs, p, longer, |runs|);
    InheritedNext(ios, runs, p, start.releases);
    PassesJoin(ios, p, Listed(runs, |runs|), Listed(longer, |runs|),
               Inherited(ios, runs, start.releases), Inherited(ios, longer, start.releases));
    LastStands(runs, p);
    ListedUnfolds(longer, |longer|);
    Associates([NewRelease(p)], Listed(longer, |runs|), Inherited(ios, longer, start.releases));
  }

  lemma Associates(a: seq<Release>, b: seq<Release>, c: seq<Release>)
    ensures (a + b) + c == a + (b + c)
  {
  }

  /**
   After any series of runs the list is, latest first, one entry for every version published and since
   then neither published again nor withdrawn, with the changelog and installers of that publication
   and the notes of every run from then on, followed by what no run touched of the first manifest; the
   metadata version has grown by one each run.
   */
  lemma {:induction false} HistoryExactly(ios: bool, start: Manifest, runs: seq<Publication>)
    requires ios ==> AllCalendar(runs)
    ensures Publish(ios, start, runs) == Manifest(start.metadataVersion + |runs|, Expected(ios, start, runs))
    decreases |runs|
  {
    if runs == [] {
      InheritedByNone(ios, start.releases);
      assert [] + start.releases == start.releases;
    } else {
      var before, p := runs[..|runs| - 1], runs[|runs| - 1];
      assert runs == before + [p];
      HistoryExactly(ios, start, before);
      OneRun(ios, Publish(ios, start, before), p);
      ExpectedNext(ios, start, before, p, runs);
    }
  }

  /** The metadata version strictly increases from run to run. */
  lemma MetadataVersionGrows(ios: bool, start: Manifest, runs: seq<Publication>, k: nat)
    requires (ios ==> AllCalendar(runs)) && k < |runs|
    ensures Publish(ios, start, runs[..k]).metadataVersion < Publish(ios, start, runs).metadataVersion
  {
    HistoryExactly(ios, start, runs[..k]);
    HistoryExactly(ios, start, runs);
  }

  // ----- which versions are listed

  ghost predicate Lists(releases: seq<Release>, v: string) {
    exists i :: 0 <= i < |releases| && releases[i].version == v
  }

  ghost predicate VersionsOnce(releases: seq<Release>) {
    forall i, j :: 0 <= i < j < |releases| ==> releases[i].version != releases[j].version
  }

  /** Run `i` published `v`, and no later run withdrew it. */
  ghost predicate PublishedAndKept(runs: seq<Publication>, i: nat, v: string) {
    i < |runs| && runs[i].version == v && forall j :: i < j < |runs| ==> v !in runs[j].dropped
  }

  lemma ListsCons(r: Release, rest: seq<Release>, v: string)
    ensures Lists([r] + rest, v) <==> r.version == v || Lists(rest, v)
  {
    var all := [r] + rest;
    if r.version == v {
      assert all[0].version == v;
    } else if Lists(rest, v) {
      var i :| 0 <= i < |rest| && rest[i].version == v;
      assert all[i + 1].version == v;
    }
  }

  lemma {:induction false} ListedVersions(runs: seq<Publication>, k: nat, v: string)
    requires k <= |runs|
    ensures Lists(Listed(runs, k), v) <==> exists i :: 0 <= i < k && runs[i].version == v && Standing(runs, i)
  {
    if k > 0 {
      ListedVersions(runs, k - 1, v);
      if Standing(runs, k - 1) {
        ListsCons(EntryOf(runs, k - 1), Listed(runs, k - 1), v);
      } else {
        assert Listed(runs, k) == Listed(runs, k - 1);
      }
    }
  }

  /** Of the runs that published a version, one did so last. */
  lemma {:induction false} LastPublication(runs: seq<Publication>, i: nat, v: string) returns (last: nat)
    requires PublishedAndKept(runs, i, v)
    ensures i <= last < |runs| && runs[last].version == v && Standing(runs, last)
    decreases |runs| - i
  {
    if j :| i < j < |runs| && runs[j].version == v {
      last := LastPublication(runs, j, v);
    } else {
      last := i;
    }
  }

  lemma ListsAppend(a: seq<Release>, b: seq<Release>, v: string)
    ensures Lists(a + b, v) <==> Lists(a, v) || Lists(b, v)
  {
    var all := a + b;
    if i :| 0 <= i < |a| && a[i].version == v {
      assert all[i].version == v;
    } else if i :| 0 <= i < |b| && b[i].version == v {
      assert all[|a| + i].version == v;
    }
  }

  lemma {:induction false} InheritedVersions(ios: bool, runs: seq<Publication>, releases: seq<Release>, v: string)
    ensures Lists(Inherited(ios, runs, releases), v) <==> Lists(releases, v) && Untouched(ios, runs, v)
  {
    if releases != [] {
      var r, rest := releases[0], releases[1..];
      InheritedVersions(ios, runs, rest, v);
      assert releases == [r] + rest;
      ListsCons(r, rest, v);
      ListsAppend(InheritedFrom(ios, runs, r), Inherited(ios, runs, rest), v);
      InheritedFromVersion(ios, runs, r, v);
    }
  }

  lemma InheritedFromVersion(ios: bool, runs: seq<Publication>, r: Release, v: string)
    ensures Lists(InheritedFrom(ios, runs, r), v) <==> r.version == v && Untouched(ios, runs, v)
  {
    if r.version == v && Untouched(ios, runs, v) {
      assert InheritedFrom(ios, runs, r)[0].version == v;
    }
  }

  lemma ListedIffPublished(runs: seq<Publication>, v: string)
    ensures Lists(Listed(runs, |runs|), v) <==> exists i :: PublishedAndKept(runs, i, v)
  {
    ListedVersions(runs, |runs|, v);
    if i :| PublishedAndKept(runs, i, v) {
      var last := LastPublication(runs, i, v);
    } else if i :| 0 <= i < |runs| && runs[i].version == v && Standing(runs, i) {
      assert PublishedAndKept(runs, i, v);
    }
  }

  /**
   From any first manifest, a version is listed exactly when some run published it and none has
   withdrawn it since, or the first manifest listed it and no run published or withdrew it.
   */
  lemma ListedExactly(ios: bool, start: Manifest, runs: seq<Publication>, v: string)
    requires ios ==> AllCalendar(runs)
    ensures Lists(Publish(ios, start, runs).releases, v) <==>
      (exists i :: PublishedAndKept(runs, i, v)) || (Lists(start.releases, v) && Untouched(ios, runs, v))
  {
    HistoryExactly(ios, start, runs);
    ListsAppend(Listed(runs, |runs|), Inherited(ios, runs, start.releases), v);
    ListedIffPublished(runs, v);
    InheritedVersions(ios, runs, start.releases, v);
  }

  lemma OnceCons(r: Release, rest: seq<Release>)
    requires VersionsOnce(rest) && !Lists(rest, r.version)
    ensures VersionsOnce([r] + rest)
  {
  }

  lemma NotListedBefore(runs: seq<Publication>, k: nat)
    requires k < |runs|
    ensures !Lists(Listed(runs, k), runs[k].version)
  {
    ListedVersions(runs, k, runs[k].version);
  }

  lemma {:induction false} ListedOnce(runs: seq<Publication>, k: nat)
    requires k <= |runs|
    ensures VersionsOnce(Listed(runs, k))
  {
    if k > 0 {
      ListedOnce(runs, k - 1);
      NotListedBefore(runs, k - 1);
      OnceAppend(ListedAt(runs, k - 1), Listed(runs, k - 1));
    }
  }

  lemma {:induction false} InheritedOnce(ios: bool, runs: seq<Publication>, releases: seq<Release>)
    requires VersionsOnce(releases)
    ensures VersionsOnce(Inherited(ios, runs, releases))
  {
    if releases != [] {
      var r, rest := releases[0], releases[1..];
      InheritedOnce(ios, runs, rest);
      InheritedVersions(ios, runs, rest, r.version);
      assert !Lists(rest, r.version);
      if Untouched(ios, runs, r.version) {
        OnceCons(InheritedFrom(ios, runs, r)[0], Inherited(ios, runs, rest));
      } else {
        assert Inherited(ios, runs, releases) == Inherited(ios, runs, rest);
      }
    }
  }

  lemma OnceAppend(a: seq<Release>, b: seq<Release>)
    requires VersionsOnce(a) && VersionsOnce(b) && forall i :: 0 <= i < |a| ==> !Lists(b, a[i].version)
    ensures VersionsOnce(a + b)
  {
    forall i, j | 0 <= i < j < |a + b|
      ensures (a + b)[i].version != (a + b)[j].version
    {
      if i < |a| <= j {
        assert !Lists(b, a[i].version) && b[j - |a|] == (a + b)[j];
      }
    }
  }

  /** From a first manifest that lists no version twice, no version is ever listed twice. */
  lemma EachVersionOnce(ios: bool, start: Manifest, runs: seq<Publication>)
    requires (ios ==> AllCalendar(runs)) && VersionsOnce(start.releases)
    ensures VersionsOnce(Publish(ios, start, runs).releases)
  {
    HistoryExactly(ios, start, runs);
    ListedOnce(runs, |runs|);
    InheritedOnce(ios, runs, start.releases);
    var listed, inherited := Listed(runs, |runs|), Inherited(ios, runs, start.releases);
    forall k | 0 <= k < |listed|
      ensures !Lists(inherited, listed[k].version)
    {
      assert Lists(listed, listed[k].version);
      ListedVersions(runs, |runs|, listed[k].version);
      InheritedVersions(ios, runs, start.releases, listed[k].version);
    }
    OnceAppend(listed, inherited);
  }

  /**
   A run that cannot read the previous manifest starts over: what follows is the history of the runs
   from there on, numbered from one.
   */
  lemma {:induction false} UnreadableStartsOver(ios: bool, start: Manifest, attempts: seq<Attempt>, k: nat)
    requires k < |attempts| && !attempts[k].readable
    requires forall j :: k < j < |attempts| ==> attempts[j].readable
    ensures PublishSome(ios, start, attempts) == Publish(ios, Manifest(0, []), RunsOf(attempts[k..]))
    decreases |attempts|
  {
    var before, last := attempts[..|attempts| - 1], attempts[|attempts| - 1];
    var runs := RunsOf(attempts[k..]);
    assert runs[..|runs| - 1] == RunsOf(before[k..]);
    if k < |before| {
      UnreadableStartsOver(ios, start, before, k);
    }
  }

  /** While every run reads the previous manifest, attempts are plain publications. */
  lemma {:induction false} ReadableAttempts(ios: bool, start: Manifest, attempts: seq<Attempt>)
    requires forall j :: 0 <= j < |attempts| ==> attempts[j].readable
    ensures PublishSome(ios, start, attempts) == Publish(ios, start, RunsOf(attempts))
    decreases |attempts|
  {
    if attempts != [] {
      var before := attempts[..|attempts| - 1];
      ReadableAttempts(ios, start, before);
      assert RunsOf(attempts)[..|before|] == RunsOf(before);
    }
  }

  /** With every previous manifest readable, the laws hold of the attempts as they stand. */
  lemma ReadableHistory(ios: bool, start: Manifest, attempts: seq<Attempt>, v: string)
    requires ios ==> AllCalendar(RunsOf(attempts))
    requires forall j :: 0 <= j < |attempts| ==> attempts[j].readable
    ensures var runs, m := RunsOf(attempts), PublishSome(ios, start, attempts);
      && m == Manifest(start.metadataVersion + |attempts|, Expected(ios, start, runs))
      && (Lists(m.releases, v) <==>
           (exists i :: PublishedAndKept(runs, i, v)) || (Lists(start.releases, v) && Untouched(ios, runs, v)))
  {
    ReadableAttempts(ios, start, attempts);
    HistoryExactly(ios, start, RunsOf(attempts));
    ListedExactly(ios, start, RunsOf(attempts), v);
  }

  /** After an unreadable one, they hold of the attempts from there on, and nothing earlier is listed. */
  lemma RestartedHistory(ios: bool, start: Manifest, attempts: seq<Attempt>, k: nat, v: string)
    requires k < |attempts| && !attempts[k].readable && (ios ==> AllCalendar(RunsOf(attempts[k..])))
    requires forall j :: k < j < |attempts| ==> attempts[j].readable
    ensures var runs, m := RunsOf(attempts[k..]), PublishSome(ios, start, attempts);
      && m == Manifest(|attempts| - k, Expected(ios, Manifest(0, []), runs))
      && (Lists(m.releases, v) <==> exists i :: PublishedAndKept(runs, i, v))
  {
    var runs := RunsOf(attempts[k..]);
    UnreadableStartsOver(ios, start, attempts, k);
    HistoryExactly(ios, Manifest(0, []), runs);
    ListedExactly(ios, Manifest(0, []), runs, v);
  }

  lemma {:induction false} CalendarOnly(releases: seq<Release>, p: Publication)
    ensures forall i :: 0 <= i < |PassAll(true, p, releases)| ==> Calendar(PassAll(true, p, releases)[i].version)
  {
    if releases != [] {
      CalendarOnly(releases[1..], p);
    }
  }

  /** One iOS run heals whatever history it inherits: only calendar versions remain. */
  lemma IosHealsItself(m: Manifest, p: Publication)
    requires Calendar(p.version)
    ensures var r := BuildPlatform(true, Some(m), p).releases; forall i :: 0 <= i < |r| ==> Calendar(r[i].version)
  {
    OneRun(true, m, p);
    CalendarOnly(m.releases, p);
  }

  // ----- the website

  ghost predicate Names(shipped: seq<(string, seq<Asset>)>, from: nat, p: string) {
    exists k :: from <= k < |shipped| && shipped[k].0 == p
  }

  lemma {:induction false} EnteredOthers(platforms: Platforms, version: string, shipped: seq<(string, seq<Asset>)>, p: string)
    requires !Names(shipped, 0, p)
    ensures At(Entered(platforms, version, shipped), p) == At(platforms, p)
    decreases |shipped|
  {
    if shipped != [] {
      var shorter := shipped[..|shipped| - 1];
      assert !Names(shorter, 0, p);
      assert shipped[|shipped| - 1].0 != p;
      EnteredOthers(platforms, version, shorter, p);
    }
  }

  lemma {:induction false} EnteredLast(
    platforms: Platforms, version: string, shipped: seq<(string, seq<Asset>)>, p: string, k: nat)
    requires k < |shipped| && shipped[k].0 == p && !Names(shipped, k + 1, p)
    ensures At(Entered(platforms, version, shipped), p) == Some(SiteEntry(version, shipped[k].1))
    decreases |shipped|
  {
    if k < |shipped| - 1 {
      var shorter := shipped[..|shipped| - 1];
      assert !Names(shorter, k + 1, p);
      assert shipped[|shipped| - 1].0 != p;
      EnteredLast(platforms, version, shorter, p, k);
    }
  }

  lemma RunShips(previous: Platforms, run: SiteRun, p: string, k: nat)
    requires EachOnce(run) && k < |run.shipped| && run.shipped[k].0 == p
    ensures At(SiteAfterRun(previous, run), p) == Some(SiteEntry(run.version, run.shipped[k].1))
  {
    EnteredLast(DropDownloads(previous, run.dropped), run.version, run.shipped, p, k);
  }

  lemma RunLeaves(previous: Platforms, run: SiteRun, p: string)
    requires !Ships(run, p)
    ensures At(SiteAfterRun(previous, run), p) ==
      if p in previous && previous[p].version !in run.dropped then Some(previous[p]) else None
  {
    EnteredOthers(DropDownloads(previous, run.dropped), run.version, run.shipped, p);
  }

  lemma LeftAloneBefore(runs: seq<SiteRun>, i: nat, p: string)
    requires i < |runs| && LeftAlone(runs, i, p)
    ensures LeftAlone(runs[..|runs| - 1], i, p) && !Ships(runs[|runs| - 1], p)
  {
  }

  lemma WithdrawnBefore(runs: seq<SiteRun>, i: nat, version: string)
    requires i < |runs|
    ensures NotWithdrawn(runs, i, version) <==>
      NotWithdrawn(runs[..|runs| - 1], i, version) && version !in runs[|runs| - 1].dropped
  {
    var shorter := runs[..|runs| - 1];
    if NotWithdrawn(shorter, i, version) && version !in runs[|runs| - 1].dropped {
      forall j | i <= j < |runs|
        ensures version !in runs[j].dropped
      {
        assert j < |shorter| ==> shorter[j] == runs[j];
      }
    }
  }

  /** Runs that do not ship a platform keep its entry until one withdraws its version. */
  lemma {:induction false} LeftAloneKeeps(start: Platforms, runs: seq<SiteRun>, i: nat, p: string)
    requires i <= |runs| && LeftAlone(runs, i, p)
    ensures var before := At(SiteAfter(start, runs[..i]), p);
      At(SiteAfter(start, runs), p) == if before.Some? && NotWithdrawn(runs, i, before.value.version) then before else None
    decreases |runs|
  {
    if i == |runs| {
      assert runs[..i] == runs;
    } else {
      var shorter, run := runs[..|runs| - 1], runs[|runs| - 1];
      assert shorter[..i] == runs[..i];
      LeftAloneBefore(runs, i, p);
      LeftAloneKeeps(start, shorter, i, p);
      RunLeaves(SiteAfter(start, shorter), run, p);
      var before := At(SiteAfter(start, runs[..i]), p);
      if before.Some? {
        WithdrawnBefore(runs, i, before.value.version);
      }
    }
  }

  /**
   The website shows for each platform what the last run that shipped it brought, unless a later run
   withdrew that version.
   */
  lemma LastShipmentShows(start: Platforms, runs: seq<SiteRun>, i: nat, p: string, k: nat)
    requires i < |runs| && EachOnce(runs[i]) && k < |runs[i].shipped| && runs[i].shipped[k].0 == p
    requires LeftAlone(runs, i + 1, p)
    ensures At(SiteAfter(start, runs), p) ==
      if NotWithdrawn(runs, i + 1, runs[i].version) then Some(SiteEntry(runs[i].version, runs[i].shipped[k].1)) else None
  {
    LeftAloneKeeps(start, runs, i + 1, p);
    assert runs[..i + 1][..i] == runs[..i];
    RunShips(SiteAfter(start, runs[..i]), runs[i], p, k);
  }

  /** Runs that read every previous downloads.json are plain runs. */
  lemma {:induction false} SiteReadable(start: Platforms, attempts: seq<SiteAttempt>)
    requires forall j :: 0 <= j < |attempts| ==> attempts[j].readable
    ensures SiteAfterSome(start, attempts) == SiteAfter(start, SiteRunsOf(attempts))
    decreases |attempts|
  {
    if attempts != [] {
      var before := attempts[..|attempts| - 1];
      SiteReadable(start, before);
      assert SiteRunsOf(attempts)[..|before|] == SiteRunsOf(before);
    }
  }

  /** One that cannot read it starts over: the website shows what the runs from there on ship. */
  lemma {:induction false} SiteStartsOver(start: Platforms, attempts: seq<SiteAttempt>, k: nat)
    requires k < |attempts| && !attempts[k].readable
    requires forall j :: k < j < |attempts| ==> attempts[j].readable
    ensures SiteAfterSome(start, attempts) == SiteAfter(map[], SiteRunsOf(attempts[k..]))
    decreases |attempts|
  {
    var before := attempts[..|attempts| - 1];
    var runs := SiteRunsOf(attempts[k..]);
    assert runs[..|runs| - 1] == SiteRunsOf(before[k..]);
    if k < |before| {
      SiteStartsOver(start, before, k);
    }
  }

  /** A platform that no run since then has shipped is not shown at all. */
  lemma UnshippedIsBlank(start: Platforms, attempts: seq<SiteAttempt>, k: nat, p: string)
    requires k < |attempts| && !attempts[k].readable
    requires forall j :: k < j < |attempts| ==> attempts[j].readable
    requires LeftAlone(SiteRunsOf(attempts[k..]), 0, p)
    ensures p !in SiteAfterSome(start, attempts)
  {
    var runs := SiteRunsOf(attempts[k..]);
    SiteStartsOver(start, attempts, k);
    LeftAloneKeeps(map[], runs, 0, p);
    assert runs[..0] == [];
  }
}
