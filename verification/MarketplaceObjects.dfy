/** The plugin registry and the plugin installer as the mutable objects they are. */
module MarketplaceObjects {
  import opened Options
  import opened OrderedMap
  import opened Marketplace
  import opened MarketplaceChecks
  import Lists

  class PluginRegistry {
    var plugins: Registry

    constructor ()
      ensures plugins == map[]
    {
      plugins := map[];
    }

    method Register(raw: RawManifest, now: string) returns (result: Result)
      modifies this
      ensures forall o :: (Market(plugins, o), result) == RegisterRaw(Market(old(plugins), o), raw, now)
    {
      hide ValidManifest, ErrorsOf, WellTyped, Typed;
      var checked := ValidateManifest(raw);
      if checked != Errors([]) { return Refused(InvalidManifest); }
      var manifest := Typed(raw);
      var existing := EntriesOf(plugins, manifest.id);
      if exists i :: 0 <= i < |existing| && existing[i].manifest.version == manifest.version {
        return Refused(Duplicate);
      }
      var published := if |existing| == 0 then now else existing[|existing| - 1].publishedAt;
      existing := existing + [Entry(manifest, 0, published, now)];
      plugins := plugins[manifest.id := existing];
      result := Done(manifest.version);
    }

    /** The newest entry. */
    method GetPlugin(id: string) returns (entry: Option<Entry>)
      ensures entry == Marketplace.GetPlugin(plugins, id)
    {
      if id !in plugins || |plugins[id]| == 0 { return None; }
      entry := Some(plugins[id][|plugins[id]| - 1]);
    }

    /** The first entry of that version. */
    method GetPluginVersion(id: string, version: string) returns (entry: Option<Entry>)
      ensures entry == Marketplace.GetPluginVersion(plugins, id, version)
    {
      if id !in plugins { return None; }
      var entries := plugins[id];
      assert entries[0..] == entries;
      for i := 0 to |entries|
        invariant FindVersion(entries, version) == FindVersion(entries[i..], version)
      {
        if entries[i].manifest.version == version { return Some(entries[i]); }
        assert entries[i..][1..] == entries[i + 1..];
      }
      return None;
    }

    method Lookup(id: string, version: Option<string>) returns (entry: Option<Entry>)
      ensures entry == Resolve(plugins, id, version)
    {
      if version.Some? && version.value != "" {
        entry := GetPluginVersion(id, version.value);
      } else {
        entry := GetPlugin(id);
      }
    }

    method IncrementDownloads(id: string)
      modifies this
      ensures plugins == CountDownload(old(plugins), id)
    {
      if id in plugins && |plugins[id]| > 0 {
        var entries := plugins[id];
        var last := |entries| - 1;
        plugins := plugins[id := entries[last := entries[last].(downloads := entries[last].downloads + 1)]];
      }
    }
  }

  class PluginInstaller {
    var installed: OMap<Installed>
    const registry: PluginRegistry
    const runtimeVersions: Runtime

    constructor (registry: PluginRegistry, runtimeVersions: Runtime)
      ensures this.registry == registry && this.runtimeVersions == runtimeVersions
      ensures Valid(installed) && installed == Empty()
    {
      this.registry, this.runtimeVersions, installed := registry, runtimeVersions, Empty();
    }

    /** The registry and the installed plugins together. */
    ghost function State(): Market
      reads this, registry
    {
      Market(registry.plugins, installed)
    }

    method InstalledVersions() returns (versions: map<string, string>)
      requires Valid(installed)
      ensures VersionsOf(installed, versions)
    {
      versions := map[];
      for i := 0 to |installed.order|
        invariant forall id :: id in versions <==> id in installed.order[..i]
        invariant forall id :: id in versions ==> versions[id] == installed.at[id].manifest.version
      {
        var id := installed.order[i];
        versions := versions[id := installed.at[id].manifest.version];
        assert installed.order[..i + 1] == installed.order[..i] + [id];
      }
      assert installed.order[..|installed.order|] == installed.order;
    }

    method Install(id: string, version: Option<string>, now: string) returns (result: Result)
      requires Valid(installed)
      modifies `installed, registry
      ensures Valid(installed)
      ensures (State(), result) == Marketplace.Install(old(State()), runtimeVersions, id, version, now)
    {
      hide ValidManifest, CompatibleWith, AllPresent, AllMet, Resolve, CountDownload, Lists.Filter, VersionsOf, Valid;
      hide ErrorsOf, WellTyped, Typed, Raw;
      if id in installed.at { return Refused(AlreadyInstalled); }
      var entry := registry.Lookup(id, version);
      if entry == None { return Refused(NotFound); }
      var manifest := entry.value.manifest;
      var checked := ValidateManifest(Raw(manifest));
      RawIsTyped(manifest);
      if checked != Errors([]) { return Refused(InvalidManifest); }
      var issues := CheckCompatibility(manifest, runtimeVersions);
      if issues != [] { return Refused(Incompatible); }
      var versions := InstalledVersions();
      var _, conflicts, missing := ResolveDependencies(manifest, versions);
      ResolutionDecides(manifest, installed, versions);
      if missing != [] { return Refused(MissingDependencies); }
      if conflicts != [] { return Refused(DependencyConflicts); }
      PutValid(installed, id, Installed(manifest, now, [manifest.version]));
      installed := Put(installed, id, Installed(manifest, now, [manifest.version]));
      registry.IncrementDownloads(id);
      result := Done(manifest.version);
    }

    /** The scan stops at the first other plugin that names this one. */
    method Uninstall(id: string) returns (result: Result)
      requires Valid(installed)
      modifies `installed
      ensures Valid(installed)
      ensures (State(), result) == Marketplace.Uninstall(old(State()), id)
    {
      if id !in installed.at { return Refused(NotInstalled); }
      var record := installed.at[id];
      for i := 0 to |installed.order|
        invariant forall j :: 0 <= j < i ==>
            installed.order[j] == id || !DependsOn(installed.at[installed.order[j]].manifest, id)
      {
        var other := installed.order[i];
        if other != id && DependsOn(installed.at[other].manifest, id) { return Refused(DependedOn); }
      }
      assert !SomeDependsOn(installed, id);
      RemoveValid(installed, id);
      installed := Remove(installed, id);
      result := Done(record.manifest.version);
    }

    method Upgrade(id: string, target: Option<string>) returns (result: Result)
      requires Valid(installed)
      modifies `installed
      ensures Valid(installed)
      ensures (State(), result) == Marketplace.Upgrade(old(State()), runtimeVersions, id, target)
    {
      hide CompatibleWith, Resolve;
      if id !in installed.at { return Refused(NotInstalled); }
      var record := installed.at[id];
      var entry := registry.Lookup(id, target);
      if entry == None { return Refused(NotFound); }
      var manifest := entry.value.manifest;
      if manifest.version == record.manifest.version { return Refused(SameVersion); }
      var issues := CheckCompatibility(manifest, runtimeVersions);
      if issues != [] { return Refused(Incompatible); }
      record := record.(versionHistory := record.versionHistory + [manifest.version]);
      record := record.(manifest := manifest);
      installed := Put(installed, id, record);
      result := Done(manifest.version);
    }

    /** The history is popped before the previous version is looked up, and pushed back when it is not found. */
    method Rollback(id: string) returns (result: Result)
      requires Valid(installed)
      modifies `installed
      ensures Valid(installed)
      ensures (State(), result) == Marketplace.Rollback(old(State()), id)
    {
      hide FindVersion;
      if id !in installed.at { return Refused(NotInstalled); }
      var record := installed.at[id];
      var n := |record.versionHistory|;
      if n < 2 { return Refused(NoPreviousVersion); }
      var current := record.versionHistory[n - 1];
      var popped := record.(versionHistory := record.versionHistory[..n - 1]);
      installed := Put(installed, id, popped);
      var previous := popped.versionHistory[n - 2];
      var entry := registry.GetPluginVersion(id, previous);
      if entry == None {
        installed := Put(installed, id, popped.(versionHistory := popped.versionHistory + [current]));
        assert popped.versionHistory + [current] == record.versionHistory;
        assert installed.at == old(installed.at);
        return Refused(NotFound);
      }
      installed := Put(installed, id, popped.(manifest := entry.value.manifest));
      assert installed.at == old(installed.at)[id := popped.(manifest := entry.value.manifest)];
      result := Done(previous);
    }
  }
}
