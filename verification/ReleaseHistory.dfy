/**
 The manifests of ci/build-version-metadata.py over repeated publications: each run fetches the previous
 manifest, withdraws versions, heals translations and prepends its own release.
 */
module ReleaseHistory {
  import opened Options

  type Translations = map<string, string>

  datatype Installer = Installer(architecture: string, urls: seq<string>, size: nat, sha256: string)

  /** An absent translation map and an empty one are written alike: not at all. */
  datatype Release = Release(version: string, changelog: string, translations: Translations, installers: seq<Installer>)

  datatype Manifest = Manifest(metadataVersion: nat, releases: seq<Release>)

  /**
   One publication for a platform.  `notes` gives the translated notes that the changelog files hold for
   a version at the time of the run.
   */
  datatype Publication = Publication(
    version: string, changelog: string, notes: string -> Translations, installers: seq<Installer>, dropped: set<string>)

  function FetchPrevious(previous: Option<Manifest>): Manifest {
    if previous.Some? then previous.value else Manifest(0, [])
  }

  function DropVersions(releases: seq<Release>, dropped: set<string>): seq<Release> {
    if releases == [] then []
    else (if releases[0].version in dropped then [] else [releases[0]]) + DropVersions(releases[1..], dropped)
  }

  function Healed(r: Release, notes: string -> Translations): Release {
    r.(translations := r.translations + notes(r.version))
  }

  function HealAll(releases: seq<Release>, notes: string -> Translations): seq<Release> {
    if releases == [] then [] else [Healed(releases[0], notes)] + HealAll(releases[1..], notes)
  }

  predicate IsDigit(c: char) {
    '0' <= c <= '9'
  }

  /** A version of the form the iOS releases carry: four digits and a dot lead it. */
  predicate Calendar(version: string) {
    |version| >= 5 && IsDigit(version[0]) && IsDigit(version[1]) && IsDigit(version[2]) && IsDigit(version[3]) && version[4] == '.'
  }

  function OnlyCalendar(releases: seq<Release>): seq<Release> {
    if releases == [] then []
    else (if Calendar(releases[0].version) then [releases[0]] else []) + OnlyCalendar(releases[1..])
  }

  function MergeRelease(previous: seq<Release>, r: Release): seq<Release> {
    [r] + DropVersions(previous, {r.version})
  }

  function NewRelease(p: Publication): Release {
    Release(p.version, p.changelog, p.notes(p.version), p.installers)
  }

  function BuildPlatform(ios: bool, previous: Option<Manifest>, p: Publication): Manifest {
    var fetched := FetchPrevious(previous);
    var kept := HealAll(DropVersions(fetched.releases, p.dropped), p.notes);
    var listed := if ios then OnlyCalendar(kept) else kept;
    Manifest(fetched.metadataVersion + 1, MergeRelease(listed, NewRelease(p)))
  }

  lemma HealStep(healed: seq<Release>, releases: seq<Release>, i: nat, notes: string -> Translations)
    requires i < |releases|
    ensures healed + HealAll(releases[i..], notes) == (healed + [Healed(releases[i], notes)]) + HealAll(releases[i + 1..], notes)
  {
    assert releases[i..][1..] == releases[i + 1..];
  }

  /** The healing loop. */
  method HealMissingTranslations(releases: seq<Release>, notes: string -> Translations) returns (healed: seq<Release>)
    ensures healed == HealAll(releases, notes)
  {
    healed := [];
    for i := 0 to |releases|
      invariant HealAll(releases, notes) == healed + HealAll(releases[i..], notes)
    {
      HealStep(healed, releases, i, notes);
      var release := releases[i];
      var found := notes(release.version);
      var merged := release.translations + found;
      if merged != map[] {
        release := release.(translations := merged);
      }
      assert release == Healed(releases[i], notes);
      healed := healed + [release];
    }
  }

  /** Publishing again and again, each run reading what the last one wrote. */
  function Publish(ios: bool, start: Manifest, runs: seq<Publication>): Manifest
    decreases |runs|
  {
    if runs == [] then start
    else BuildPlatform(ios, Some(Publish(ios, start, runs[..|runs| - 1])), runs[|runs| - 1])
  }

  /** A run and whether it could read what the last one wrote. */
  datatype Attempt = Attempt(run: Publication, readable: bool)

  function PublishSome(ios: bool, start: Manifest, attempts: seq<Attempt>): Manifest
    decreases |attempts|
  {
    if attempts == [] then start
    else
      var last := attempts[|attempts| - 1];
      var before := PublishSome(ios, start, attempts[..|attempts| - 1]);
      BuildPlatform(ios, if last.readable then Some(before) else None, last.run)
  }

  function RunsOf(attempts: seq<Attempt>): (runs: seq<Publication>)
    ensures |runs| == |attempts| && forall i :: 0 <= i < |runs| ==> runs[i] == attempts[i].run
  {
    if attempts == [] then [] else RunsOf(attempts[..|attempts| - 1]) + [attempts[|attempts| - 1].run]
  }

  // ----- the reference: the history read as a whole

  /** Run `i` published its version last, and no later run withdrew it. */
  ghost predicate Standing(runs: seq<Publication>, i: nat)
    requires i < |runs|
  {
    forall j :: i < j < |runs| ==> runs[j].version != runs[i].version && runs[i].version !in runs[j].dropped
  }

  /** The notes of a version as they accumulate from run `i` on, the later run winning. */
  function Notes(runs: seq<Publication>, i: nat, version: string): Translations
    requires i <= |runs|
    decreases |runs|
  {
    if i == |runs| then map[]
    else Notes(runs[..|runs| - 1], i, version) + runs[|runs| - 1].notes(version)
  }

  function EntryOf(runs: seq<Publication>, i: nat): Release
    requires i < |runs|
  {
    Release(runs[i].version, runs[i].changelog, Notes(runs, i, runs[i].version), runs[i].installers)
  }

  ghost function ListedAt(runs: seq<Publication>, i: nat): seq<Release>
    requires i < |runs|
  {
    if Standing(runs, i) then [EntryOf(runs, i)] else []
  }

  /** The standing publications among the first `k` runs, the latest first. */
  ghost function Listed(runs: seq<Publication>, k: nat): seq<Release>
    requires k <= |runs|
  {
    if k == 0 then [] else ListedAt(runs, k - 1) + Listed(runs, k - 1)
  }

  /** An entry of the first manifest that no run replaced or withdrew. */
  ghost predicate Untouched(ios: bool, runs: seq<Publication>, version: string) {
    && (forall j :: 0 <= j < |runs| ==> runs[j].version != version && version !in runs[j].dropped)
    && (ios && runs != [] ==> Calendar(version))
  }

  ghost function InheritedFrom(ios: bool, runs: seq<Publication>, r: Release): seq<Release> {
    if Untouched(ios, runs, r.version) then [r.(translations := r.translations + Notes(runs, 0, r.version))] else []
  }

  ghost function Inherited(ios: bool, runs: seq<Publication>, releases: seq<Release>): seq<Release> {
    if releases == [] then [] else InheritedFrom(ios, runs, releases[0]) + Inherited(ios, runs, releases[1..])
  }

  // ----- the website

  datatype Asset = Asset(filename: string, url: string, size: nat, sha256: string, architecture: string, format: string)
  datatype SiteEntry = SiteEntry(version: string, assets: seq<Asset>)

  /** One run's part of the website manifest: the platforms it ships, each once. */
  datatype SiteRun = SiteRun(version: string, shipped: seq<(string, seq<Asset>)>, dropped: set<string>)

  type Platforms = map<string, SiteEntry>

  function DropDownloads(platforms: Platforms, dropped: set<string>): Platforms {
    map p | p in platforms && platforms[p].version !in dropped :: platforms[p]
  }

  /** The platforms with this run's shipments entered one after the other. */
  function Entered(platforms: Platforms, version: string, shipped: seq<(string, seq<Asset>)>): Platforms {
    if shipped == [] then platforms
    else
      var (platform, assets) := shipped[|shipped| - 1];
      Entered(platforms, version, shipped[..|shipped| - 1])[platform := SiteEntry(version, assets)]
  }

  function SiteAfterRun(previous: Platforms, run: SiteRun): Platforms {
    Entered(DropDownloads(previous, run.dropped), run.version, run.shipped)
  }

  /** The loop over the run's platforms. */
  method BuildDownloads(previous: Platforms, run: SiteRun) returns (platforms: Platforms)
    ensures platforms == SiteAfterRun(previous, run)
  {
    var first := DropDownloads(previous, run.dropped);
    platforms := first;
    for i := 0 to |run.shipped|
      invariant platforms == Entered(first, run.version, run.shipped[..i])
    {
      var (platform, assets) := run.shipped[i];
      assert run.shipped[..i + 1][..i] == run.shipped[..i];
      platforms := platforms[platform := SiteEntry(run.version, assets)];
    }
    assert run.shipped[..|run.shipped|] == run.shipped;
  }

  /** A series of runs, each reading what the last one wrote. */
  function SiteAfter(start: Platforms, runs: seq<SiteRun>): Platforms
    decreases |runs|
  {
    if runs == [] then start else SiteAfterRun(SiteAfter(start, runs[..|runs| - 1]), runs[|runs| - 1])
  }

  /** A run and whether it could read the previous downloads.json; without it the run starts from nothing. */
  datatype SiteAttempt = SiteAttempt(run: SiteRun, readable: bool)

  function SiteAfterSome(start: Platforms, attempts: seq<SiteAttempt>): Platforms
    decreases |attempts|
  {
    if attempts == [] then start
    else
      var last := attempts[|attempts| - 1];
      SiteAfterRun(if last.readable then SiteAfterSome(start, attempts[..|attempts| - 1]) else map[], last.run)
  }

  function SiteRunsOf(attempts: seq<SiteAttempt>): (runs: seq<SiteRun>)
    ensures |runs| == |attempts| && forall i :: 0 <= i < |runs| ==> runs[i] == attempts[i].run
  {
    if attempts == [] then [] else SiteRunsOf(attempts[..|attempts| - 1]) + [attempts[|attempts| - 1].run]
  }

  // ----- the reference for one platform

  ghost predicate Ships(run: SiteRun, p: string) {
    exists k :: 0 <= k < |run.shipped| && run.shipped[k].0 == p
  }

  /** The shipments of a run name each platform once. */
  ghost predicate EachOnce(run: SiteRun) {
    forall i, j :: 0 <= i < j < |run.shipped| ==> run.shipped[i].0 != run.shipped[j].0
  }

  /** No run from `i` on ships the platform or withdraws the version. */
  ghost predicate LeftAlone(runs: seq<SiteRun>, i: nat, p: string) {
    forall j :: i <= j < |runs| ==> !Ships(runs[j], p)
  }

  ghost predicate NotWithdrawn(runs: seq<SiteRun>, i: nat, version: string) {
    forall j :: i <= j < |runs| ==> version !in runs[j].dropped
  }

  function At(platforms: Platforms, p: string): Option<SiteEntry> {
    if p in platforms then Some(platforms[p]) else None
  }
}
