/** What every reachable state of the marketplace keeps: version histories that can be rolled back. */
module MarketplaceLaws {
  import opened Options
  import opened OrderedMap
  import opened Marketplace

  // ---------- registry ----------

  ghost predicate DistinctVersions(entries: seq<Entry>) {
    forall i, j :: 0 <= i < j < |entries| ==> entries[i].manifest.version != entries[j].manifest.version
  }

  ghost predicate RegistryOk(r: Registry) {
    forall id :: id in r ==>
      && r[id] != [] && DistinctVersions(r[id])
      && forall i :: 0 <= i < |r[id]| ==> r[id][i].manifest.id == id && ValidManifest(r[id][i].manifest)
  }

  /** Every published manifest is still published, as it was. */
  ghost predicate Keeps(r: Registry, r': Registry) {
    forall id, v :: GetPluginVersion(r, id, v).Some? ==>
      GetPluginVersion(r', id, v).Some? && GetPluginVersion(r', id, v).value.manifest
        == GetPluginVersion(r, id, v).value.manifest
  }

  lemma {:induction false} FindVersionFacts(entries: seq<Entry>, v: string)
    ensures FindVersion(entries, v).Some? <==> HasVersion(entries, v)
    ensures FindVersion(entries, v).Some? ==>
        FindVersion(entries, v).value in entries && FindVersion(entries, v).value.manifest.version == v
  {
    if entries != [] {
      FindVersionFacts(entries[1..], v);
      if HasVersion(entries, v) && entries[0].manifest.version != v {
        var i :| 0 <= i < |entries| && entries[i].manifest.version == v;
        assert entries[1..][i - 1].manifest.version == v;
      }
      if HasVersion(entries[1..], v) {
        var i :| 0 <= i < |entries[1..]| && entries[1..][i].manifest.version == v;
        assert entries[i + 1].manifest.version == v;
      }
    }
  }

  lemma {:induction false} FindVersionAppend(entries: seq<Entry>, e: Entry, v: string)
    ensures FindVersion(entries, v).Some? ==> FindVersion(entries + [e], v) == FindVersion(entries, v)
  {
    if entries != [] {
      assert (entries + [e])[1..] == entries[1..] + [e];
      FindVersionAppend(entries[1..], e, v);
    }
  }

  lemma {:induction false} FindVersionCounted(entries: seq<Entry>, n: nat, downloads: nat, v: string)
    requires n < |entries|
    ensures var counted := entries[n := entries[n].(downloads := downloads)];
      && FindVersion(counted, v).Some? == FindVersion(entries, v).Some?
      && (FindVersion(entries, v).Some? ==>
           FindVersion(counted, v).value.manifest == FindVersion(entries, v).value.manifest)
  {
    if n > 0 && entries[0].manifest.version != v {
      assert entries[n := entries[n].(downloads := downloads)][1..]
        == entries[1..][n - 1 := entries[n].(downloads := downloads)];
      FindVersionCounted(entries[1..], n - 1, downloads, v);
    }
  }

  lemma RegisterKeeps(m: Market, manifest: Manifest, now: string)
    requires RegistryOk(m.registry)
    ensures var r' := Register(m, manifest, now).0.registry; RegistryOk(r') && Keeps(m.registry, r')
  {
    var r' := Register(m, manifest, now).0.registry;
    var existing := EntriesOf(m.registry, manifest.id);
    hide ValidManifest;
    if r' != m.registry {
      assert !HasVersion(existing, manifest.version);
      assert RegistryOk(r');
      forall id, v | GetPluginVersion(m.registry, id, v).Some?
        ensures GetPluginVersion(r', id, v) == GetPluginVersion(m.registry, id, v)
      {
        if id == manifest.id { FindVersionAppend(existing, r'[id][|existing|], v); }
      }
    }
  }

  lemma CountDownloadKeeps(r: Registry, id: string)
    requires RegistryOk(r)
    ensures RegistryOk(CountDownload(r, id)) && Keeps(r, CountDownload(r, id))
  {
    hide ValidManifest;
    var r' := CountDownload(r, id);
    forall id', v | GetPluginVersion(r, id', v).Some?
      ensures GetPluginVersion(r', id', v).Some?
          && GetPluginVersion(r', id', v).value.manifest == GetPluginVersion(r, id', v).value.manifest
    {
      if id' == id && r' != r { FindVersionCounted(r[id], |r[id]| - 1, r'[id][|r[id]| - 1].downloads, v); }
    }
  }

  /** What the registry resolves to is a valid manifest of that plugin, found again under its own version. */
  lemma ResolveFacts(r: Registry, id: string, version: Option<string>)
    requires RegistryOk(r) && Resolve(r, id, version).Some?
    ensures var manifest := Resolve(r, id, version).value.manifest;
      && ValidManifest(manifest) && manifest.id == id
      && GetPluginVersion(r, id, manifest.version).Some?
           && GetPluginVersion(r, id, manifest.version).value.manifest == manifest
  {
    hide ValidManifest;
    var entries := EntriesOf(r, id);
    var entry := Resolve(r, id, version).value;
    if version.Some? && version.value != "" {
      FindVersionFacts(entries, version.value);
    }
    assert entry in entries;
    var i :| 0 <= i < |entries| && entries[i] == entry;
    FindVersionFacts(entries, entry.manifest.version);
    var found := FindVersion(entries, entry.manifest.version).value;
    var j :| 0 <= j < |entries| && entries[j] == found;
    assert i == j;
  }

  // ---------- version history ----------

  /** The history ends in the installed version, never repeats a version in place, and is all still published. */
  ghost predicate HistoryOk(r: Registry, id: string, p: Installed) {
    var h := p.versionHistory;
    && h != [] && h[|h| - 1] == p.manifest.version
    && (forall i :: 0 < i < |h| ==> h[i - 1] != h[i])
    && (forall i :: 0 <= i < |h| ==> GetPluginVersion(r, id, h[i]).Some?)
    && GetPluginVersion(r, id, p.manifest.version).Some?
         && GetPluginVersion(r, id, p.manifest.version).value.manifest == p.manifest
    && ValidManifest(p.manifest)
  }

  ghost predicate HistoriesOk(m: Market) {
    && RegistryOk(m.registry) && Valid(m.installed)
    && forall id :: id in m.installed.at ==> HistoryOk(m.registry, id, m.installed.at[id])
  }

  lemma KeptHistory(r: Registry, r': Registry, id: string, p: Installed)
    requires Keeps(r, r') && HistoryOk(r, id, p)
    ensures HistoryOk(r', id, p)
  {
    hide ValidManifest, GetPluginVersion;
  }

  /** What is published under a version is a valid manifest of that version. */
  lemma Published(r: Registry, id: string, v: string)
    requires RegistryOk(r) && GetPluginVersion(r, id, v).Some?
    ensures var manifest := GetPluginVersion(r, id, v).value.manifest; manifest.version == v && ValidManifest(manifest)
  {
    hide ValidManifest;
    var entries := EntriesOf(r, id);
    FindVersionFacts(entries, v);
    var i :| 0 <= i < |entries| && entries[i] == FindVersion(entries, v).value;
  }

  /** `manifest` is what the registry holds under its own version. */
  ghost predicate IsPublished(r: Registry, id: string, manifest: Manifest) {
    && GetPluginVersion(r, id, manifest.version).Some?
         && GetPluginVersion(r, id, manifest.version).value.manifest == manifest
    && ValidManifest(manifest)
  }

  lemma HistoryPush(r: Registry, id: string, p: Installed, manifest: Manifest)
    requires HistoryOk(r, id, p) && IsPublished(r, id, manifest) && manifest.version != p.manifest.version
    ensures HistoryOk(r, id, p.(manifest := manifest, versionHistory := p.versionHistory + [manifest.version]))
  {
    hide ValidManifest, GetPluginVersion;
  }

  lemma HistoryPop(r: Registry, id: string, p: Installed, manifest: Manifest)
    requires HistoryOk(r, id, p) && |p.versionHistory| >= 2 && IsPublished(r, id, manifest)
    requires manifest.version == p.versionHistory[|p.versionHistory| - 2]
    ensures HistoryOk(r, id, p.(manifest := manifest, versionHistory := p.versionHistory[..|p.versionHistory| - 1]))
  {
    hide ValidManifest, GetPluginVersion;
  }

  lemma ActKeepsHistories(m: Market, runtime: Runtime, a: Action)
    requires HistoriesOk(m)
    ensures HistoriesOk(Act(m, runtime, a).0)
  {
    hide ValidManifest, CompatibleWith, AllMet, AllPresent, SomeDependsOn;
    var m' := Act(m, runtime, a).0;
    match a
    case RegisterAction(manifest, now) =>
      RegisterKeeps(m, manifest, now);
      forall id | id in m.installed.at ensures HistoryOk(m'.registry, id, m.installed.at[id]) {
        KeptHistory(m.registry, m'.registry, id, m.installed.at[id]);
      }
    case InstallAction(id, version, now) => InstallKeepsHistories(m, runtime, id, version, now);
    case UninstallAction(id) => RemoveValid(m.installed, id);
    case UpgradeAction(id, version) => UpgradeKeepsHistories(m, runtime, id, version);
    case RollbackAction(id) => RollbackKeepsHistories(m, id);
  }

  lemma InstallKeepsHistories(m: Market, runtime: Runtime, id: string, version: Option<string>, now: string)
    requires HistoriesOk(m)
    ensures HistoriesOk(Install(m, runtime, id, version, now).0)
  {
    hide ValidManifest, CompatibleWith, AllMet, AllPresent;
    var m' := Install(m, runtime, id, version, now).0;
    if m' != m {
      ResolveFacts(m.registry, id, version);
      CountDownloadKeeps(m.registry, id);
      PutValid(m.installed, id, m'.installed.at[id]);
      hide CountDownload, GetPluginVersion, Resolve, RegistryOk;
      assert HistoryOk(m.registry, id, m'.installed.at[id]);
      forall other | other in m'.installed.at ensures HistoryOk(m'.registry, other, m'.installed.at[other]) {
        KeptHistory(m.registry, m'.registry, other, m'.installed.at[other]);
      }
    }
  }

  lemma UpgradeKeepsHistories(m: Market, runtime: Runtime, id: string, version: Option<string>)
    requires HistoriesOk(m)
    ensures HistoriesOk(Upgrade(m, runtime, id, version).0)
  {
    hide HistoryOk, RegistryOk, Valid, ValidManifest, CompatibleWith, GetPluginVersion;
    var m' := Upgrade(m, runtime, id, version).0;
    if m' != m {
      ResolveFacts(m.registry, id, version);
      PutValid(m.installed, id, m'.installed.at[id]);
      hide Resolve;
      HistoryPush(m.registry, id, m.installed.at[id], m'.installed.at[id].manifest);
    }
  }

  lemma RollbackKeepsHistories(m: Market, id: string)
    requires HistoriesOk(m)
    ensures HistoriesOk(Rollback(m, id).0)
  {
    hide HistoryOk, RegistryOk, Valid, ValidManifest, GetPluginVersion;
    var m' := Rollback(m, id).0;
    if m' != m {
      var h := m.installed.at[id].versionHistory;
      Published(m.registry, id, h[|h| - 2]);
      PutValid(m.installed, id, m'.installed.at[id]);
      HistoryPop(m.registry, id, m.installed.at[id], m'.installed.at[id].manifest);
    }
  }

  /** In every reachable state every installed plugin has a sound history. */
  lemma {:induction false} HistoriesAlwaysOk(runtime: Runtime, actions: seq<Action>)
    ensures HistoriesOk(Run(runtime, actions))
  {
    if actions != [] {
      hide HistoryOk, RegistryOk, Act;
      var n := |actions| - 1;
      HistoriesAlwaysOk(runtime, actions[..n]);
      ActKeepsHistories(Run(runtime, actions[..n]), runtime, actions[n]);
    }
  }

  /** A rollback with a previous version to go to never misses it: the not-found branch is dead. */
  lemma RollbackFinds(runtime: Runtime, actions: seq<Action>, id: string)
    ensures Rollback(Run(runtime, actions), id).1 != Refused(NotFound)
    ensures var m := Run(runtime, actions);
      id in m.installed.at && |m.installed.at[id].versionHistory| >= 2 ==>
        Rollback(m, id).1 == Done(m.installed.at[id].versionHistory[|m.installed.at[id].versionHistory| - 2])
  {
    HistoriesAlwaysOk(runtime, actions);
    var m := Run(runtime, actions);
    hide Run, GetPluginVersion, ValidManifest, RegistryOk;
    if id in m.installed.at { assert HistoryOk(m.registry, id, m.installed.at[id]); }
  }

  // ---------- upgrades undone ----------

  /** Upgrade once per target; nothing when one of them is refused. */
  function Upgrades(m: Market, runtime: Runtime, id: string, targets: seq<Option<string>>): Option<Market> {
    if targets == [] then Some(m)
    else match Upgrades(m, runtime, id, targets[..|targets| - 1])
         case None => None
         case Some(before) =>
           var (after, result) := Upgrade(before, runtime, id, targets[|targets| - 1]);
           if result.Done? then Some(after) else None
  }

  function Rollbacks(m: Market, id: string, k: nat): Market
    decreases k
  {
    if k == 0 then m else Rollbacks(Rollback(m, id).0, id, k - 1)
  }

  lemma PutTwice(o: OMap<Installed>, id: string, p: Installed)
    requires Valid(o) && id in o.at
    ensures Put(Put(o, id, p), id, o.at[id]) == o
  {
    assert o.at[id := p][id := o.at[id]] == o.at;
  }

  lemma RollbackRestores(m: Market, id: string, p: Installed, manifest: Manifest)
    requires id in m.installed.at && p.versionHistory != []
    requires m.installed.at[id] == p.(manifest := manifest, versionHistory := p.versionHistory + [manifest.version])
    requires var found := GetPluginVersion(m.registry, id, p.versionHistory[|p.versionHistory| - 1]);
      found.Some? && found.value.manifest == p.manifest
    ensures Rollback(m, id).0 == m.(installed := Put(m.installed, id, p))
  {
    hide GetPluginVersion;
    var h := p.versionHistory + [manifest.version];
    assert h[..|h| - 1] == p.versionHistory;
  }

  /** A successful upgrade changes one record and nothing else. */
  lemma UpgradeShape(m: Market, runtime: Runtime, id: string, target: Option<string>)
    requires Upgrade(m, runtime, id, target).1.Done?
    ensures id in m.installed.at && Resolve(m.registry, id, target).Some?
    ensures var p := m.installed.at[id];
      var manifest := Resolve(m.registry, id, target).value.manifest;
      && manifest.version != p.manifest.version && CompatibleWith(manifest, runtime)
      && Upgrade(m, runtime, id, target).0
         == m.(installed := Put(m.installed, id,
             p.(manifest := manifest, versionHistory := p.versionHistory + [manifest.version])))
  {
    hide CompatibleWith, Resolve;
  }

  /** A rollback undoes an upgrade, record and all. */
  lemma RollbackUndoesUpgrade(m: Market, runtime: Runtime, id: string, target: Option<string>)
    requires HistoriesOk(m) && Upgrade(m, runtime, id, target).1.Done?
    ensures Rollback(Upgrade(m, runtime, id, target).0, id).0 == m
  {
    hide RegistryOk, Valid, ValidManifest, GetPluginVersion, Resolve, CompatibleWith, Rollback, Upgrade;
    UpgradeShape(m, runtime, id, target);
    var p := m.installed.at[id];
    assert HistoryOk(m.registry, id, p);
    hide HistoriesOk, HistoryOk;
    var m' := Upgrade(m, runtime, id, target).0;
    PutTwice(m.installed, id, m'.installed.at[id]);
    RollbackRestores(m', id, p, m'.installed.at[id].manifest);
  }

  /** Any number of upgrades is undone by as many rollbacks. */
  lemma {:induction false} RollbacksUndoUpgrades(m: Market, runtime: Runtime, id: string, targets: seq<Option<string>>)
    requires HistoriesOk(m) && Upgrades(m, runtime, id, targets).Some?
    ensures HistoriesOk(Upgrades(m, runtime, id, targets).value)
    ensures Rollbacks(Upgrades(m, runtime, id, targets).value, id, |targets|) == m
  {
    if targets != [] {
      hide HistoriesOk, Upgrade, Rollback;
      var n := |targets| - 1;
      RollbacksUndoUpgrades(m, runtime, id, targets[..n]);
      var before := Upgrades(m, runtime, id, targets[..n]).value;
      UpgradeKeepsHistories(before, runtime, id, targets[n]);
      RollbackUndoesUpgrade(before, runtime, id, targets[n]);
    }
  }
}
