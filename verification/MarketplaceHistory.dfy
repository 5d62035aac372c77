/** What is published and what is installed, told from the actions of a run and their answers. */
module MarketplaceHistory {
  import opened Options
  import opened Versions
  import opened Marketplace
  import opened MarketplaceLaws

  ghost function AnswerOf(runtime: Runtime, actions: seq<Action>): Result
    requires actions != []
  {
    Act(Run(runtime, actions[..|actions| - 1]), runtime, actions[|actions| - 1]).1
  }

  // ---------- the registry ----------

  datatype Registration = Registration(manifest: Manifest, now: string)

  /** The last action of the run is an accepted registration of the plugin. */
  ghost predicate Publishes(runtime: Runtime, actions: seq<Action>, id: string) {
    && actions != [] && AnswerOf(runtime, actions).Done?
    && actions[|actions| - 1].RegisterAction? && actions[|actions| - 1].manifest.id == id
  }

  ghost predicate Installs(runtime: Runtime, actions: seq<Action>, id: string) {
    && actions != [] && AnswerOf(runtime, actions).Done?
    && actions[|actions| - 1].InstallAction? && actions[|actions| - 1].id == id
  }

  /** The accepted registrations of a plugin, in order. */
  ghost function Registrations(runtime: Runtime, actions: seq<Action>, id: string): seq<Registration> {
    if actions == [] then []
    else
      var (before, last) := (actions[..|actions| - 1], actions[|actions| - 1]);
      Registrations(runtime, before, id)
      + if Publishes(runtime, actions, id) then [Registration(last.manifest, last.now)] else []
  }

  /** How often the plugin was installed while its k-th registration was the newest. */
  ghost function Downloads(runtime: Runtime, actions: seq<Action>, id: string, k: nat): nat {
    if actions == [] then 0
    else
      var before := actions[..|actions| - 1];
      Downloads(runtime, before, id, k)
      + if Installs(runtime, actions, id) && |Registrations(runtime, before, id)| == k + 1 then 1 else 0
  }

  ghost predicate EntriesTold(runtime: Runtime, actions: seq<Action>, id: string, entries: seq<Entry>) {
    var told := Registrations(runtime, actions, id);
    && |entries| == |told|
    && forall k :: 0 <= k < |told| ==> EntryTold(entries[k], told[k], told[0], Downloads(runtime, actions, id, k))
  }

  /** First published when the first version was, and updated when this one was. */
  ghost predicate EntryTold(e: Entry, told: Registration, first: Registration, downloads: nat) {
    e == Entry(told.manifest, downloads, first.now, told.now)
  }

  // ---------- what each action does to the entries ----------

  ghost predicate Appended(prior: seq<Entry>, later: seq<Entry>, manifest: Manifest, now: string) {
    && |later| == |prior| + 1 && later[..|prior|] == prior
    && later[|prior|] == Entry(manifest, 0, if prior == [] then now else prior[|prior| - 1].publishedAt, now)
  }

  ghost predicate Counted(prior: seq<Entry>, later: seq<Entry>) {
    && |later| == |prior| > 0 && later[..|prior| - 1] == prior[..|prior| - 1]
    && var (w, e) := (prior[|prior| - 1], later[|prior| - 1]);
      e.manifest == w.manifest && e.publishedAt == w.publishedAt && e.updatedAt == w.updatedAt
      && e.downloads == w.downloads + 1
  }

  lemma ActEntries(m: Market, runtime: Runtime, a: Action, id: string)
    ensures var (prior, later, done) := (EntriesOf(m.registry, id),
                                     EntriesOf(Act(m, runtime, a).0.registry, id), Act(m, runtime, a).1.Done?);
      if a.RegisterAction? && a.manifest.id == id && done then Appended(prior, later, a.manifest, a.now)
      else if a.InstallAction? && a.id == id && done then Counted(prior, later)
      else later == prior
  {
    hide ValidManifest, CompatibleWith, AllMet, AllPresent, SomeDependsOn, FindVersion;
    if a.InstallAction? && a.id == id && Act(m, runtime, a).1.Done? { ResolvedIsPublished(m.registry, id, a.version); }
  }

  lemma ResolvedIsPublished(r: Registry, id: string, version: Option<string>)
    requires Resolve(r, id, version).Some?
    ensures EntriesOf(r, id) != []
  {
    FindVersionFacts(EntriesOf(r, id), if version.Some? then version.value else "");
  }

  // ---------- the registry of a run ----------

  lemma NothingCountedYet(runtime: Runtime, actions: seq<Action>, id: string, k: nat)
    requires k >= |Registrations(runtime, actions, id)|
    ensures Downloads(runtime, actions, id, k) == 0
  {
    if actions != [] { NothingCountedYet(runtime, actions[..|actions| - 1], id, k); }
  }

  lemma AppendTold(runtime: Runtime, actions: seq<Action>, id: string, prior: seq<Entry>, later: seq<Entry>)
    requires Publishes(runtime, actions, id) && EntriesTold(runtime, actions[..|actions| - 1], id, prior)
    requires Appended(prior, later, actions[|actions| - 1].manifest, actions[|actions| - 1].now)
    ensures EntriesTold(runtime, actions, id, later)
  {
    hide AnswerOf;
    var before := actions[..|actions| - 1];
    var (was, told) := (Registrations(runtime, before, id), Registrations(runtime, actions, id));
    NothingCountedYet(runtime, before, id, |was|);
    assert forall k :: Downloads(runtime, actions, id, k) == Downloads(runtime, before, id, k);
    hide Registrations, Downloads;
    forall k | 0 <= k < |told| ensures EntryTold(later[k], told[k], told[0], Downloads(runtime, actions, id, k)) {
      if k < |prior| { assert later[..|prior|][k] == prior[k]; }
    }
  }

  lemma CountTold(runtime: Runtime, actions: seq<Action>, id: string, prior: seq<Entry>, later: seq<Entry>)
    requires Installs(runtime, actions, id) && EntriesTold(runtime, actions[..|actions| - 1], id, prior)
    requires Counted(prior, later)
    ensures EntriesTold(runtime, actions, id, later)
  {
    hide AnswerOf;
    var n := |prior| - 1;
    var before := actions[..|actions| - 1];
    var told := Registrations(runtime, actions, id);
    assert told == Registrations(runtime, before, id);
    assert forall k ::
      Downloads(runtime, actions, id, k) == Downloads(runtime, before, id, k) + if k == n then 1 else 0;
    hide Registrations, Downloads;
    forall k | 0 <= k < |told| ensures EntryTold(later[k], told[k], told[0], Downloads(runtime, actions, id, k)) {
      assert EntryTold(prior[k], told[k], told[0], Downloads(runtime, before, id, k));
      if k < n { assert later[..n][k] == prior[..n][k]; }
    }
  }

  lemma SameTold(runtime: Runtime, actions: seq<Action>, id: string, entries: seq<Entry>)
    requires actions != [] && !Publishes(runtime, actions, id) && !Installs(runtime, actions, id)
    requires EntriesTold(runtime, actions[..|actions| - 1], id, entries)
    ensures EntriesTold(runtime, actions, id, entries)
  {
    hide AnswerOf, Publishes, Installs;
    var before := actions[..|actions| - 1];
    assert forall k :: Downloads(runtime, actions, id, k) == Downloads(runtime, before, id, k);
  }

  /**
   The registry of every run: each accepted registration of a plugin has its entry, in order, published when the first
   one was, with the installs that were accepted while it was the newest.
   */
  lemma {:induction false} RegistryTold(runtime: Runtime, actions: seq<Action>, id: string)
    ensures EntriesTold(runtime, actions, id, EntriesOf(Run(runtime, actions).registry, id))
  {
    if actions != [] {
      var n := |actions| - 1;
      var before := Run(runtime, actions[..n]);
      RegistryTold(runtime, actions[..n], id);
      ActEntries(before, runtime, actions[n], id);
      var (prior, later) := (EntriesOf(before.registry, id), EntriesOf(Run(runtime, actions).registry, id));
      hide Act, EntriesOf, EntriesTold, Appended, Counted;
      if Publishes(runtime, actions, id) {
        AppendTold(runtime, actions, id, prior, later);
      } else if Installs(runtime, actions, id) {
        CountTold(runtime, actions, id, prior, later);
      } else {
        SameTold(runtime, actions, id, prior);
      }
    }
  }

  // ---------- what is installed ----------

  ghost predicate Names(a: Action, id: string) { !a.RegisterAction? && a.id == id }

  datatype Installation = Installation(at: string, versions: seq<string>)

  /** When the plugin was installed, and its versions since: an upgrade adds one, a rollback takes the last. */
  ghost function Told(runtime: Runtime, actions: seq<Action>, id: string): Option<Installation> {
    if actions == [] then None
    else Next(Told(runtime, actions[..|actions| - 1], id), actions[|actions| - 1], AnswerOf(runtime, actions), id)
  }

  ghost function Next(told: Option<Installation>, a: Action, answer: Result, id: string): Option<Installation> {
    if !Names(a, id) || answer.Refused? then told
    else if a.InstallAction? then Some(Installation(a.now, [answer.version]))
    else if a.UninstallAction? || told.None? then None
    else if a.UpgradeAction? then Some(told.value.(versions := told.value.versions + [answer.version]))
    else if told.value.versions == [] then told
    else Some(told.value.(versions := told.value.versions[..|told.value.versions| - 1]))
  }

  ghost function InstallationOf(m: Market, id: string): Option<Installation> {
    if id in m.installed.at then
      Some(Installation(m.installed.at[id].installedAt, m.installed.at[id].versionHistory))
    else None
  }

  lemma ActInstalled(m: Market, runtime: Runtime, a: Action, id: string)
    ensures InstallationOf(Act(m, runtime, a).0, id) == Next(InstallationOf(m, id), a, Act(m, runtime, a).1, id)
  {
    hide ValidManifest, CompatibleWith, AllMet, AllPresent, SomeDependsOn, GetPluginVersion, Resolve, CountDownload;
  }

  ghost predicate RegisteredAs(runtime: Runtime, actions: seq<Action>, id: string, p: Installed) {
    var told := Registrations(runtime, actions, id);
    && p.versionHistory != [] && p.manifest.version == p.versionHistory[|p.versionHistory| - 1]
    && exists k :: 0 <= k < |told| && told[k].manifest == p.manifest
  }

  lemma InstalledIsRegistered(runtime: Runtime, actions: seq<Action>, id: string)
    requires id in Run(runtime, actions).installed.at
    ensures RegisteredAs(runtime, actions, id, Run(runtime, actions).installed.at[id])
  {
    hide Run, ValidManifest, Downloads, Registrations;
    HistoriesAlwaysOk(runtime, actions);
    RegistryTold(runtime, actions, id);
    var m := Run(runtime, actions);
    var (entries, p) := (EntriesOf(m.registry, id), m.installed.at[id]);
    assert HistoryOk(m.registry, id, p);
    FindVersionFacts(entries, p.manifest.version);
    var k :| 0 <= k < |entries| && entries[k] == FindVersion(entries, p.manifest.version).value;
    var told := Registrations(runtime, actions, id);
    assert EntryTold(entries[k], told[k], told[0], Downloads(runtime, actions, id, k));
  }

  /**
   What is installed after every run: when, and with which version history; the manifest is the one registered under
   the last of those versions.
   */
  lemma {:induction false} InstalledTold(runtime: Runtime, actions: seq<Action>, id: string)
    ensures InstallationOf(Run(runtime, actions), id) == Told(runtime, actions, id)
    ensures id in Run(runtime, actions).installed.at ==>
      RegisteredAs(runtime, actions, id, Run(runtime, actions).installed.at[id])
  {
    if actions != [] {
      var n := |actions| - 1;
      InstalledTold(runtime, actions[..n], id);
      hide Act;
      ActInstalled(Run(runtime, actions[..n]), runtime, actions[n], id);
    }
    if id in Run(runtime, actions).installed.at { InstalledIsRegistered(runtime, actions, id); }
  }

  // ---------- answers ----------

  /** The manifest a request is about: the one of that version, or the newest when none is named. */
  ghost predicate Requested(m: Market, id: string, version: Option<string>, manifest: Manifest) {
    var entries := EntriesOf(m.registry, id);
    if version.None? || version == Some("") then entries != [] && manifest == entries[|entries| - 1].manifest
    else manifest.version == version.value && exists k :: 0 <= k < |entries| && entries[k].manifest == manifest
  }

  ghost predicate NothingRequested(m: Market, id: string, version: Option<string>) {
    forall manifest :: !Requested(m, id, version, manifest)
  }

  lemma ResolveIsRequested(m: Market, id: string, version: Option<string>)
    requires RegistryOk(m.registry)
    ensures Resolve(m.registry, id, version).None? <==> NothingRequested(m, id, version)
    ensures forall manifest ::
      Requested(m, id, version, manifest)
      <==> Resolve(m.registry, id, version).Some? && Resolve(m.registry, id, version).value.manifest == manifest
  {
    hide ValidManifest;
    var entries := EntriesOf(m.registry, id);
    FindVersionFacts(entries, if version.Some? then version.value else "");
    forall manifest
      ensures Requested(m, id, version, manifest)
        <==> Resolve(m.registry, id, version).Some? && Resolve(m.registry, id, version).value.manifest == manifest
    {
      if Requested(m, id, version, manifest) && version.Some? && version.value != "" {
        var k :| 0 <= k < |entries| && entries[k].manifest == manifest;
        var found := FindVersion(entries, version.value);
        assert HasVersion(entries, version.value);
        var j :| 0 <= j < |entries| && entries[j] == found.value;
        assert j == k;
      }
    }
    if Resolve(m.registry, id, version).Some? {
      assert Requested(m, id, version, Resolve(m.registry, id, version).value.manifest);
    }
  }

  ghost predicate Runs(manifest: Manifest, runtime: Runtime) {
    forall i :: 0 <= i < |manifest.engine| ==> EngineMet(manifest.engine[i], runtime)
  }

  /** The runtime names a version of the engine, and it is in the range asked for. */
  ghost predicate EngineMet(engine: (string, string), runtime: Runtime) {
    && engine.0 in runtime && runtime[engine.0] != ""
    && SatisfiesRange(runtime[engine.0], engine.1)
  }

  ghost predicate SomeMissing(m: Market, manifest: Manifest) {
    exists i :: 0 <= i < |manifest.dependencies| && manifest.dependencies[i].0 !in m.installed.at
  }

  ghost predicate SomeOutOfRange(m: Market, manifest: Manifest) {
    exists i :: 0 <= i < |manifest.dependencies| && OutOfRange(m, manifest.dependencies[i])
  }

  ghost predicate OutOfRange(m: Market, dependency: (string, string)) {
    && dependency.0 in m.installed.at
    && !SatisfiesRange(m.installed.at[dependency.0].manifest.version, dependency.1)
  }

  lemma InstalledHasVersion(m: Market, id: string)
    requires HistoriesOk(m) && id in m.installed.at
    ensures m.installed.at[id].manifest.version != ""
  {
    assert HistoryOk(m.registry, id, m.installed.at[id]);
  }

  lemma ConditionsMeet(m: Market, runtime: Runtime, manifest: Manifest)
    requires HistoriesOk(m)
    ensures CompatibleWith(manifest, runtime) <==> Runs(manifest, runtime)
    ensures AllPresent(m.installed, manifest) <==> !SomeMissing(m, manifest)
    ensures AllPresent(m.installed, manifest) ==> (AllMet(m.installed, manifest) <==> !SomeOutOfRange(m, manifest))
  {
    hide HistoriesOk, SatisfiesRange;
    forall id | id in m.installed.at ensures m.installed.at[id].manifest.version != "" { InstalledHasVersion(m, id); }
    assert forall i :: 0 <= i < |manifest.engine| ==> (EngineMet(manifest.engine[i], runtime)
      <==> manifest.engine[i].0 in runtime && runtime[manifest.engine[i].0] != ""
           && SatisfiesRange(runtime[manifest.engine[i].0], manifest.engine[i].1));
  }

  /** What an install answers: refusals in this order of precedence, and otherwise the version asked for. */
  ghost predicate InstallAnswers(m: Market, runtime: Runtime, id: string, manifest: Manifest, answer: Result) {
    if id in m.installed.at then answer == Refused(AlreadyInstalled)
    else if !Runs(manifest, runtime) then answer == Refused(Incompatible)
    else if SomeMissing(m, manifest) then answer == Refused(MissingDependencies)
    else if SomeOutOfRange(m, manifest) then answer == Refused(DependencyConflicts)
    else answer == Done(manifest.version)
  }

  /**
   The answer of an install, and what it changes: a refusal nothing; otherwise the plugin is there with the manifest
   asked for, and all others are as they were.
   */
  lemma InstallMeaning(m: Market, runtime: Runtime, id: string, version: Option<string>, now: string)
    requires HistoriesOk(m)
    ensures var (m', answer) := Install(m, runtime, id, version, now);
      && (forall manifest :: Requested(m, id, version, manifest) ==> InstallAnswers(m, runtime, id, manifest, answer))
      && (NothingRequested(m, id, version) && id !in m.installed.at ==> answer == Refused(NotFound))
      && (answer.Refused? ==> m' == m)
      && (answer.Done? ==>
            && id in m'.installed.at && Requested(m, id, version, m'.installed.at[id].manifest)
            && m'.installed.order == m.installed.order + [id])
  {
    hide ValidManifest, CompatibleWith, AllPresent, AllMet, Requested, NothingRequested, HistoriesOk, Runs, SomeMissing;
    hide SomeOutOfRange, CountDownload, Resolve;
    assert RegistryOk(m.registry) by { RegistryIsOk(m); }
    ResolveIsRequested(m, id, version);
    if Resolve(m.registry, id, version).Some? {
      ResolveFacts(m.registry, id, version);
      ConditionsMeet(m, runtime, Resolve(m.registry, id, version).value.manifest);
    }
  }

  lemma RegistryIsOk(m: Market)
    requires HistoriesOk(m)
    ensures RegistryOk(m.registry)
  {
  }

  ghost predicate UpgradeAnswers(m: Market, runtime: Runtime, id: string, manifest: Manifest, answer: Result) {
    if id !in m.installed.at then answer == Refused(NotInstalled)
    else if manifest.version == m.installed.at[id].manifest.version then answer == Refused(SameVersion)
    else if !Runs(manifest, runtime) then answer == Refused(Incompatible)
    else answer == Done(manifest.version)
  }

  /** The answer of an upgrade, which asks nothing of dependencies, and what it changes. */
  lemma UpgradeMeaning(m: Market, runtime: Runtime, id: string, target: Option<string>)
    requires HistoriesOk(m)
    ensures var (m', answer) := Upgrade(m, runtime, id, target);
      && (forall manifest :: Requested(m, id, target, manifest) ==> UpgradeAnswers(m, runtime, id, manifest, answer))
      && (NothingRequested(m, id, target) && id in m.installed.at ==> answer == Refused(NotFound))
      && (answer.Refused? ==> m' == m)
      && (answer.Done? ==>
            && id in m.installed.at && id in m'.installed.at && m'.installed.order == m.installed.order
            && Requested(m, id, target, m'.installed.at[id].manifest) && m'.registry == m.registry)
  {
    hide CompatibleWith, Requested, NothingRequested, HistoriesOk, Runs, Resolve;
    assert RegistryOk(m.registry) by { RegistryIsOk(m); }
    ResolveIsRequested(m, id, target);
    if Resolve(m.registry, id, target).Some? {
      ConditionsMeet(m, runtime, Resolve(m.registry, id, target).value.manifest);
    }
  }

  /** A registration is refused exactly for an invalid manifest or a version already published. */
  lemma RegisterMeaning(m: Market, manifest: Manifest, now: string)
    ensures var (m', answer) := Register(m, manifest, now);
      var taken := exists e {:trigger e.manifest} ::
        e in EntriesOf(m.registry, manifest.id) && e.manifest.version == manifest.version;
      && m'.installed == m.installed && (answer.Refused? ==> m' == m)
      && answer == if !ValidManifest(manifest) then Refused(InvalidManifest)
         else if taken then Refused(Duplicate) else Done(manifest.version)
  {
    hide ValidManifest;
    var entries := EntriesOf(m.registry, manifest.id);
    if HasVersion(entries, manifest.version) {
      var i :| 0 <= i < |entries| && entries[i].manifest.version == manifest.version;
      assert entries[i] in entries;
    }
  }

  /** A plugin can be uninstalled unless another one needs it, and rolled back when it has an earlier version. */
  lemma RemovalMeaning(m: Market, id: string)
    ensures var (m', answer) := Uninstall(m, id);
      && (answer == Refused(NotInstalled) <==> id !in m.installed.at) && (answer.Refused? ==> m' == m)
      && (answer.Done? ==> m'.registry == m.registry && m'.installed.at == m.installed.at - {id})
    ensures var (m', answer) := Rollback(m, id);
      && (answer == Refused(NotInstalled) <==> id !in m.installed.at) && (answer.Refused? ==> m' == m)
      && (id in m.installed.at ==>
           (answer == Refused(NoPreviousVersion) <==> |m.installed.at[id].versionHistory| <= 1))
      && (id in m.installed.at && |m.installed.at[id].versionHistory| >= 2 ==>
           var previous := m.installed.at[id].versionHistory[|m.installed.at[id].versionHistory| - 2];
           answer == if GetPluginVersion(m.registry, id, previous) == None then Refused(NotFound) else Done(previous))
      && (answer.Done? ==> m'.registry == m.registry && m'.installed.order == m.installed.order)
  {
    hide GetPluginVersion, SomeDependsOn;
  }
}
