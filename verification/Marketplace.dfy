/** The plugin registry and installer as transitions of one state: what is published and what is installed. */
module Marketplace {
  import opened Options
  import opened Decimal
  import opened OrderedMap
  import opened Versions

  /** Dependencies and engine requirements are listed in property order; each name occurs once. */
  datatype Manifest = Manifest(
    id: string, name: string, version: string, description: string, author: string, license: string,
    dependencies: seq<(string, string)>, engine: seq<(string, string)>)

  datatype Entry = Entry(manifest: Manifest, downloads: nat, publishedAt: string, updatedAt: string)

  datatype Installed = Installed(manifest: Manifest, installedAt: string, versionHistory: seq<string>)

  type Registry = map<string, seq<Entry>>

  datatype Market = Market(registry: Registry, installed: OMap<Installed>)

  datatype Refusal =
    | InvalidManifest | Duplicate | AlreadyInstalled | NotFound | Incompatible | MissingDependencies
    | DependencyConflicts | NotInstalled | DependedOn | SameVersion | NoPreviousVersion

  datatype Result = Done(version: string) | Refused(reason: Refusal)

  // ---------- manifests ----------

  predicate IsIdChar(c: char) { 'a' <= c <= 'z' || IsDigit(c) }

  /** Lower-case letters, digits and hyphens, at least two, no hyphen at either end. */
  predicate ValidId(id: string) {
    |id| >= 2 && IsIdChar(id[0]) && IsIdChar(id[|id| - 1]) && forall i :: 0 <= i < |id| ==>
      IsIdChar(id[i]) || id[i] == '-'
  }

  predicate IsTagChar(c: char) { 'a' <= c <= 'z' || 'A' <= c <= 'Z' || IsDigit(c) || c == '.' }

  predicate IsTag(s: string) { s != [] && forall i :: 0 <= i < |s| ==> IsTagChar(s[i]) }

  function TagRun(s: string): (n: nat)
    ensures n <= |s|
  {
    if s == [] || !IsTagChar(s[0]) then 0 else 1 + TagRun(s[1..])
  }

  /** An optional tag with its lead character at the start of a text; what follows it. */
  function SkipTag(s: string, lead: char): string {
    if s != [] && s[0] == lead && TagRun(s[1..]) > 0 then s[1 + TagRun(s[1..])..] else s
  }

  predicate ValidVersion(s: string) {
    match TakeVersion(s) case None => false case Some((_, rest)) => SkipTag(SkipTag(rest, '-'), '+') == []
  }

  function OperatorRun(s: string): (n: nat)
    ensures n <= |s|
  {
    if s != [] && (s[0] == '^' || s[0] == '~' || s[0] == '>' || s[0] == '=' || s[0] == '<')
    then 1 + OperatorRun(s[1..])
    else 0
  }

  predicate ValidRange(s: string) {
    match TakeVersion(s[OperatorRun(s)..]) case None => false case Some((_, rest)) => SkipTag(rest, '-') == []
  }

  predicate ValidManifest(m: Manifest) {
    && ValidId(m.id) && m.name != "" && ValidVersion(m.version)
    && m.description != "" && m.author != "" && m.license != ""
    && (forall i :: 0 <= i < |m.dependencies| ==> ValidId(m.dependencies[i].0) && ValidRange(m.dependencies[i].1))
    && (forall i :: 0 <= i < |m.engine| ==> ValidRange(m.engine[i].1))
  }

  // ---------- registry ----------

  function EntriesOf(r: Registry, id: string): seq<Entry> { if id in r then r[id] else [] }

  predicate HasVersion(entries: seq<Entry>, version: string) {
    exists i :: 0 <= i < |entries| && entries[i].manifest.version == version
  }

  /** The newest entry of a plugin. */
  function GetPlugin(r: Registry, id: string): Option<Entry> {
    var entries := EntriesOf(r, id);
    if entries == [] then None else Some(entries[|entries| - 1])
  }

  function FindVersion(entries: seq<Entry>, version: string): Option<Entry> {
    if entries == [] then None
    else if entries[0].manifest.version == version then Some(entries[0])
    else FindVersion(entries[1..], version)
  }

  function GetPluginVersion(r: Registry, id: string, version: string): Option<Entry> {
    FindVersion(EntriesOf(r, id), version)
  }

  /** `version ? getPluginVersion : getPlugin` */
  function Resolve(r: Registry, id: string, version: Option<string>): Option<Entry> {
    if version.Some? && version.value != "" then GetPluginVersion(r, id, version.value) else GetPlugin(r, id)
  }

  function Register(m: Market, manifest: Manifest, now: string): (Market, Result) {
    var existing := EntriesOf(m.registry, manifest.id);
    if !ValidManifest(manifest) then (m, Refused(InvalidManifest))
    else if HasVersion(existing, manifest.version) then (m, Refused(Duplicate))
    else
      var published := if existing == [] then now else existing[|existing| - 1].publishedAt;
      (m.(registry := m.registry[manifest.id := existing + [Entry(manifest, 0, published, now)]]),
          Done(manifest.version))
  }

  /** The newest entry of the plugin counts the download, whichever version was installed. */
  function CountDownload(r: Registry, id: string): Registry {
    var entries := EntriesOf(r, id);
    if entries == [] then r
    else
      var n := |entries| - 1;
      r[id := entries[n := entries[n].(downloads := entries[n].downloads + 1)]]
  }

  // ---------- installer ----------

  type Runtime = map<string, string>

  predicate CompatibleWith(m: Manifest, runtime: Runtime) {
    forall i :: 0 <= i < |m.engine| ==>
      m.engine[i].0 in runtime && runtime[m.engine[i].0] != "" && SatisfiesRange(runtime[m.engine[i].0], m.engine[i].1)
  }

  predicate Present(installed: OMap<Installed>, id: string) {
    id in installed.at && installed.at[id].manifest.version != ""
  }

  predicate DependencyMet(installed: OMap<Installed>, dep: (string, string)) {
    Present(installed, dep.0) && SatisfiesRange(installed.at[dep.0].manifest.version, dep.1)
  }

  predicate AllPresent(installed: OMap<Installed>, m: Manifest) {
    forall i :: 0 <= i < |m.dependencies| ==> Present(installed, m.dependencies[i].0)
  }

  predicate AllMet(installed: OMap<Installed>, m: Manifest) {
    forall i :: 0 <= i < |m.dependencies| ==> DependencyMet(installed, m.dependencies[i])
  }

  function Install(m: Market, runtime: Runtime, id: string, version: Option<string>, now: string): (Market, Result) {
    if id in m.installed.at then (m, Refused(AlreadyInstalled))
    else match Resolve(m.registry, id, version)
         case None => (m, Refused(NotFound))
         case Some(entry) =>
           if !ValidManifest(entry.manifest) then (m, Refused(InvalidManifest))
           else if !CompatibleWith(entry.manifest, runtime) then (m, Refused(Incompatible))
           else if !AllPresent(m.installed, entry.manifest) then (m, Refused(MissingDependencies))
           else if !AllMet(m.installed, entry.manifest) then (m, Refused(DependencyConflicts))
           else
             var v := entry.manifest.version;
             (Market(CountDownload(m.registry, id), Put(m.installed, id, Installed(entry.manifest, now, [v]))), Done(v))
  }

  /**
   * `deps[pluginId]` is truthy: the plugin is named with a range that is not empty, or the lookup
   * reaches a property every JavaScript object inherits. `constructor` is the only such plugin id.
   */
  predicate DependsOn(m: Manifest, id: string) {
    id == "constructor"
    || exists i :: 0 <= i < |m.dependencies| && m.dependencies[i].0 == id && m.dependencies[i].1 != ""
  }

  predicate SomeDependsOn(installed: OMap<Installed>, id: string) {
    exists other :: other in installed.at && other != id && DependsOn(installed.at[other].manifest, id)
  }

  function Uninstall(m: Market, id: string): (Market, Result) {
    if id !in m.installed.at then (m, Refused(NotInstalled))
    else if SomeDependsOn(m.installed, id) then (m, Refused(DependedOn))
    else (m.(installed := Remove(m.installed, id)), Done(m.installed.at[id].manifest.version))
  }

  function Upgrade(m: Market, runtime: Runtime, id: string, target: Option<string>): (Market, Result) {
    if id !in m.installed.at then (m, Refused(NotInstalled))
    else
      var record := m.installed.at[id];
      match Resolve(m.registry, id, target)
      case None => (m, Refused(NotFound))
      case Some(entry) =>
        if entry.manifest.version == record.manifest.version then (m, Refused(SameVersion))
        else if !CompatibleWith(entry.manifest, runtime) then (m, Refused(Incompatible))
        else
          var history := record.versionHistory + [entry.manifest.version];
          var record' := record.(manifest := entry.manifest, versionHistory := history);
          (m.(installed := Put(m.installed, id, record')), Done(entry.manifest.version))
  }

  function Rollback(m: Market, id: string): (Market, Result) {
    if id !in m.installed.at then (m, Refused(NotInstalled))
    else
      var record := m.installed.at[id];
      var n := |record.versionHistory|;
      if n < 2 then (m, Refused(NoPreviousVersion))
      else
        var previous := record.versionHistory[n - 2];
        match GetPluginVersion(m.registry, id, previous)
        case None => (m, Refused(NotFound))
        case Some(entry) =>
          var record' := record.(manifest := entry.manifest, versionHistory := record.versionHistory[..n - 1]);
          (m.(installed := Put(m.installed, id, record')), Done(previous))
  }

  // ---------- runs ----------

  datatype Action =
    | RegisterAction(manifest: Manifest, now: string)
    | InstallAction(id: string, version: Option<string>, now: string)
    | UninstallAction(id: string)
    | UpgradeAction(id: string, version: Option<string>)
    | RollbackAction(id: string)

  function Act(m: Market, runtime: Runtime, a: Action): (Market, Result) {
    match a
    case RegisterAction(manifest, now) => Register(m, manifest, now)
    case InstallAction(id, version, now) => Install(m, runtime, id, version, now)
    case UninstallAction(id) => Uninstall(m, id)
    case UpgradeAction(id, version) => Upgrade(m, runtime, id, version)
    case RollbackAction(id) => Rollback(m, id)
  }

  const EMPTY_MARKET := Market(map[], Empty())

  function Run(runtime: Runtime, actions: seq<Action>): Market {
    if actions == [] then EMPTY_MARKET
    else Act(Run(runtime, actions[..|actions| - 1]), runtime, actions[|actions| - 1]).0
  }
}
