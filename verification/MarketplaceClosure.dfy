/** Dependencies: met and acyclic after every run of install and uninstall, and exactly when an upgrade breaks them. */
module MarketplaceClosure {
  import opened Options
  import opened OrderedMap
  import opened Versions
  import opened Marketplace
  import opened MarketplaceLaws

  predicate Names(m: Manifest, id: string) {
    exists k :: 0 <= k < |m.dependencies| && m.dependencies[k].0 == id
  }

  /** Every installed plugin finds each of its dependencies installed, at a version in range. */
  ghost predicate Met(o: OMap<Installed>) {
    forall id :: id in o.at ==> AllMet(o, o.at[id].manifest)
  }

  ghost predicate Edge(o: OMap<Installed>, a: string, b: string) { a in o.at && Names(o.at[a].manifest, b) }

  ghost predicate Path(o: OMap<Installed>, p: seq<string>) {
    p != [] && forall i :: 0 <= i < |p| - 1 ==> Edge(o, p[i], p[i + 1])
  }

  ghost predicate Reaches(o: OMap<Installed>, a: string, b: string) {
    exists p :: Path(o, p) && p[0] == a && p[|p| - 1] == b
  }

  ghost predicate IsCycle(o: OMap<Installed>, p: seq<string>) { Path(o, p) && |p| >= 2 && p[0] == p[|p| - 1] }

  ghost predicate Acyclic(o: OMap<Installed>) { forall p :: !IsCycle(o, p) }

  // ---------- install and uninstall ----------

  /** Dependencies were installed before the plugins that need them. */
  ghost predicate InOrder(o: OMap<Installed>) {
    forall j, b :: 0 <= j < |o.order| && Edge(o, o.order[j], b) ==> b in o.order[..j]
  }

  ghost predicate AllValid(o: OMap<Installed>) {
    forall id :: id in o.at ==> ValidManifest(o.at[id].manifest)
  }

  ghost predicate Closed(o: OMap<Installed>) { Valid(o) && AllValid(o) && Met(o) && InOrder(o) }

  lemma ValidRangeIsText(m: Manifest, k: nat)
    requires ValidManifest(m) && k < |m.dependencies|
    ensures m.dependencies[k].1 != ""
  {
    assert ValidRange(m.dependencies[k].1);
  }

  lemma InstallKeepsClosed(m: Market, runtime: Runtime, id: string, version: Option<string>, now: string)
    requires Closed(m.installed)
    ensures Closed(Install(m, runtime, id, version, now).0.installed)
  {
    hide ValidManifest, CompatibleWith, Resolve, CountDownload, SatisfiesRange;
    var o, o' := m.installed, Install(m, runtime, id, version, now).0.installed;
    if o' != o {
      assert AllMet(o, o'.at[id].manifest);
      forall other | other in o'.at ensures AllMet(o', o'.at[other].manifest) {
        assert AllMet(o, o'.at[other].manifest);
        forall k | 0 <= k < |o'.at[other].manifest.dependencies|
          ensures DependencyMet(o', o'.at[other].manifest.dependencies[k]) {
          assert DependencyMet(o, o'.at[other].manifest.dependencies[k]);
        }
      }
      forall j, b | 0 <= j < |o'.order| && Edge(o', o'.order[j], b) ensures b in o'.order[..j] {
        if j < |o.order| {
          assert o'.order[j] == o.order[j] && o.order[j] in o.at;
          assert Edge(o, o.order[j], b);
          assert o'.order[..j] == o.order[..j];
        } else {
          var k :| 0 <= k < |o'.at[id].manifest.dependencies| && o'.at[id].manifest.dependencies[k].0 == b;
          assert DependencyMet(o, o'.at[id].manifest.dependencies[k]);
          assert o'.order[..j] == o.order;
        }
      }
    }
  }

  lemma {:induction false} DroppedBefore(order: seq<string>, key: string, a: string, b: string, j: nat)
    requires j < |Dropped(order, key)| && Dropped(order, key)[j] == b && a != key
    requires forall i :: 0 <= i < |order| && order[i] == b ==> a in order[..i]
    ensures a in Dropped(order, key)[..j]
  {
    var rest := order[1..];
    if order[0] == key {
      DroppedFacts(rest, key);
      assert b in Dropped(rest, key);
      forall i | 0 <= i < |rest| && rest[i] == b ensures a in rest[..i] {
        assert order[i + 1] == b && order[..i + 1] == [order[0]] + rest[..i];
      }
      DroppedBefore(rest, key, a, b, j);
    } else {
      if j == 0 {
        assert false;
      } else if order[0] == a {
        assert Dropped(order, key)[..j][0] == a;
      } else {
        forall i | 0 <= i < |rest| && rest[i] == b ensures a in rest[..i] {
          assert order[i + 1] == b && order[..i + 1] == [order[0]] + rest[..i];
        }
        DroppedBefore(rest, key, a, b, j - 1);
        assert Dropped(order, key)[..j] == [order[0]] + Dropped(rest, key)[..j - 1];
      }
    }
  }

  /** What the scan for dependents that lets an uninstall through means. */
  lemma NobodyNames(o: OMap<Installed>, id: string, other: string)
    requires AllValid(o) && !SomeDependsOn(o, id) && other in o.at && other != id
    ensures !Names(o.at[other].manifest, id)
  {
    hide ValidManifest;
    var m := o.at[other].manifest;
    if Names(m, id) {
      var k :| 0 <= k < |m.dependencies| && m.dependencies[k].0 == id;
      ValidRangeIsText(m, k);
      assert false;
    }
  }

  /** A plugin cannot be uninstalled exactly when another one names it, or is there at all if it is `constructor`. */
  lemma UninstallRefusedIff(m: Market, id: string)
    requires AllValid(m.installed) && id in m.installed.at
    ensures Uninstall(m, id).1 == Refused(DependedOn)
      <==> exists other :: other in m.installed.at && other != id
             && (id == "constructor" || Names(m.installed.at[other].manifest, id))
  {
    hide ValidManifest;
    var o := m.installed;
    if !SomeDependsOn(o, id) {
      forall other | other in o.at && other != id ensures !Names(o.at[other].manifest, id) {
        NobodyNames(o, id, other);
      }
    } else {
      var other :| other in o.at && other != id && DependsOn(o.at[other].manifest, id);
      assert id == "constructor" || Names(o.at[other].manifest, id);
    }
  }

  lemma UninstallKeepsClosed(m: Market, id: string)
    requires Closed(m.installed)
    ensures Closed(Uninstall(m, id).0.installed)
  {
    hide ValidManifest, SatisfiesRange, SomeDependsOn;
    var o, o' := m.installed, Uninstall(m, id).0.installed;
    if o' != o {
      RemoveValid(o, id);
      forall other | other in o'.at ensures !Names(o.at[other].manifest, id) && AllMet(o', o'.at[other].manifest) {
        NobodyNames(o, id, other);
        forall k | 0 <= k < |o.at[other].manifest.dependencies|
          ensures DependencyMet(o', o.at[other].manifest.dependencies[k]) {
          assert DependencyMet(o, o.at[other].manifest.dependencies[k]);
        }
      }
      forall j, b | 0 <= j < |o'.order| && Edge(o', o'.order[j], b) ensures b in o'.order[..j] {
        forall i | 0 <= i < |o.order| && o.order[i] == o'.order[j] ensures b in o.order[..i] {
          assert Edge(o, o.order[i], b);
        }
        DroppedBefore(o.order, id, b, o'.order[j], j);
      }
    }
  }

  ghost predicate NoReplacement(actions: seq<Action>) {
    forall i :: 0 <= i < |actions| ==> !actions[i].UpgradeAction? && !actions[i].RollbackAction?
  }

  lemma {:induction false} ClosedAlways(runtime: Runtime, actions: seq<Action>)
    requires NoReplacement(actions)
    ensures Closed(Run(runtime, actions).installed)
  {
    if actions != [] {
      hide Closed, Install, Uninstall, Register;
      var n := |actions| - 1;
      var m := Run(runtime, actions[..n]);
      ClosedAlways(runtime, actions[..n]);
      match actions[n]
      case RegisterAction(manifest, now) => RegisterInstalledSame(m, manifest, now);
      case InstallAction(id, version, now) => InstallKeepsClosed(m, runtime, id, version, now);
      case UninstallAction(id) => UninstallKeepsClosed(m, id);
      case UpgradeAction(_, _) => assert false;
      case RollbackAction(_) => assert false;
    }
  }

  lemma RegisterInstalledSame(m: Market, manifest: Manifest, now: string)
    ensures Register(m, manifest, now).0.installed == m.installed
  {
    hide ValidManifest;
  }

  /** Every path runs down the installation order. */
  lemma {:induction false} PathsGoDown(o: OMap<Installed>, p: seq<string>, j: nat)
    requires InOrder(o) && Path(o, p) && |p| >= 2 && j < |o.order| && o.order[j] == p[0]
    ensures p[|p| - 1] in o.order[..j]
    decreases |p|
  {
    assert Edge(o, p[0], p[1]);
    assert p[1] in o.order[..j];
    if |p| > 2 {
      var i :| 0 <= i < j && o.order[i] == p[1];
      var rest := p[1..];
      forall k | 0 <= k < |rest| - 1 ensures Edge(o, rest[k], rest[k + 1]) { assert Edge(o, p[k + 1], p[k + 2]); }
      PathsGoDown(o, rest, i);
      assert rest[|rest| - 1] == p[|p| - 1];
    }
  }

  lemma InOrderIsAcyclic(o: OMap<Installed>)
    requires Valid(o) && InOrder(o)
    ensures Acyclic(o)
  {
    forall p ensures !IsCycle(o, p) {
      if IsCycle(o, p) {
        assert Edge(o, p[0], p[1]);
        var j :| 0 <= j < |o.order| && o.order[j] == p[0];
        PathsGoDown(o, p, j);
        assert false;
      }
    }
  }

  /** After any run of registrations, installs and uninstalls, dependencies are met and never circular. */
  lemma DependencyClosure(runtime: Runtime, actions: seq<Action>)
    requires NoReplacement(actions)
    ensures var o := Run(runtime, actions).installed; Met(o) && Acyclic(o)
  {
    hide Met, Acyclic, Run, AllValid;
    ClosedAlways(runtime, actions);
    InOrderIsAcyclic(Run(runtime, actions).installed);
  }

  // ---------- replacing a manifest: upgrade and rollback ----------

  /** The dependencies of the incoming manifest, read against what is installed beside it. */
  predicate OwnMet(o: OMap<Installed>, id: string, manifest: Manifest) {
    forall k :: 0 <= k < |manifest.dependencies| ==>
      if manifest.dependencies[k].0 == id
      then manifest.version != "" && SatisfiesRange(manifest.version, manifest.dependencies[k].1)
      else DependencyMet(o, manifest.dependencies[k])
  }

  predicate Accepts(dependant: Manifest, id: string, version: string) {
    forall k :: 0 <= k < |dependant.dependencies| && dependant.dependencies[k].0 == id ==>
      version != "" && SatisfiesRange(version, dependant.dependencies[k].1)
  }

  predicate DependantsAccept(o: OMap<Installed>, id: string, version: string) {
    forall other :: other in o.at && other != id ==> Accepts(o.at[other].manifest, id, version)
  }

  /** Replacing a manifest keeps dependencies met exactly when its own are met and its dependants accept its version. */
  lemma ReplaceKeepsMetIff(o: OMap<Installed>, id: string, p: Installed)
    requires id in o.at && Met(o)
    ensures Met(Put(o, id, p)) <==> OwnMet(o, id, p.manifest) && DependantsAccept(o, id, p.manifest.version)
  {
    hide SatisfiesRange;
    var o' := Put(o, id, p);
    if Met(o') {
      assert AllMet(o', o'.at[id].manifest);
      forall k | 0 <= k < |p.manifest.dependencies| && p.manifest.dependencies[k].0 != id
        ensures DependencyMet(o, p.manifest.dependencies[k])
      {
        assert DependencyMet(o', p.manifest.dependencies[k]);
      }
      forall k | 0 <= k < |p.manifest.dependencies| && p.manifest.dependencies[k].0 == id
        ensures p.manifest.version != "" && SatisfiesRange(p.manifest.version, p.manifest.dependencies[k].1)
      {
        assert DependencyMet(o', p.manifest.dependencies[k]);
      }
      forall other | other in o.at && other != id ensures Accepts(o.at[other].manifest, id, p.manifest.version) {
        assert AllMet(o', o'.at[other].manifest);
        forall k | 0 <= k < |o.at[other].manifest.dependencies| && o.at[other].manifest.dependencies[k].0 == id
          ensures p.manifest.version != "" && SatisfiesRange(p.manifest.version, o.at[other].manifest.dependencies[k].1)
        {
          assert DependencyMet(o', o.at[other].manifest.dependencies[k]);
        }
      }
    }
    if OwnMet(o, id, p.manifest) && DependantsAccept(o, id, p.manifest.version) {
      forall other, k | other in o'.at && 0 <= k < |o'.at[other].manifest.dependencies|
        ensures DependencyMet(o', o'.at[other].manifest.dependencies[k])
      {
        if other != id {
          assert Accepts(o.at[other].manifest, id, p.manifest.version);
          assert AllMet(o, o.at[other].manifest);
          assert DependencyMet(o, o.at[other].manifest.dependencies[k]);
        }
      }
    }
  }

  lemma EdgesElsewhere(o: OMap<Installed>, id: string, p: Installed, path: seq<string>)
    requires id in o.at && path != [] && forall i :: 0 <= i < |path| - 1 ==> path[i] != id
    ensures Path(Put(o, id, p), path) <==> Path(o, path)
  {
    forall i | 0 <= i < |path| - 1
      ensures Edge(Put(o, id, p), path[i], path[i + 1]) <==> Edge(o, path[i], path[i + 1]) {}
  }

  lemma {:induction false} FirstVisit(path: seq<string>, id: string) returns (n: nat)
    requires id in path
    ensures n < |path| && path[n] == id && forall i :: 0 <= i < n ==> path[i] != id
  {
    n := 0;
    while path[n] != id
      invariant n < |path| && id in path[n..] && forall i :: 0 <= i < n ==> path[i] != id
      decreases |path| - n
    {
      assert path[n..] == [path[n]] + path[n + 1..];
      n := n + 1;
    }
  }

  lemma PathPart(o: OMap<Installed>, p: seq<string>, i: nat, j: nat)
    requires Path(o, p) && i < j <= |p|
    ensures Path(o, p[i..j])
  {
    forall k | 0 <= k < j - i - 1 ensures Edge(o, p[i..j][k], p[i..j][k + 1]) {
      assert Edge(o, p[i + k], p[i + k + 1]);
    }
  }

  lemma PathJoin(o: OMap<Installed>, p: seq<string>, q: seq<string>)
    requires Path(o, p) && Path(o, q) && p[|p| - 1] == q[0]
    ensures Path(o, p + q[1..])
  {
    var r := p + q[1..];
    forall k | 0 <= k < |r| - 1 ensures Edge(o, r[k], r[k + 1]) {
      if k < |p| - 1 {
        assert Edge(o, p[k], p[k + 1]);
      } else {
        assert r[k] == q[k + 1 - |p|] && r[k + 1] == q[k + 2 - |p|];
        assert Edge(o, q[k + 1 - |p|], q[k + 2 - |p|]);
      }
    }
  }

  ghost predicate ClosesLoop(o: OMap<Installed>, id: string, manifest: Manifest) {
    exists k :: 0 <= k < |manifest.dependencies| && Reaches(o, manifest.dependencies[k].0, id)
  }

  lemma ReachingMakesCycle(o: OMap<Installed>, id: string, p: Installed, k: nat)
    requires id in o.at && k < |p.manifest.dependencies| && Reaches(o, p.manifest.dependencies[k].0, id)
    ensures !Acyclic(Put(o, id, p))
  {
    var o' := Put(o, id, p);
    var path :| Path(o, path) && path[0] == p.manifest.dependencies[k].0 && path[|path| - 1] == id;
    var n := FirstVisit(path, id);
    PathPart(o, path, 0, n + 1);
    EdgesElsewhere(o, id, p, path[..n + 1]);
    assert Edge(o', id, path[0]);
    assert Path(o', [id, path[0]]);
    PathJoin(o', [id, path[0]], path[..n + 1]);
    assert IsCycle(o', [id, path[0]] + path[..n + 1][1..]);
  }

  /** A cycle through a plugin, walked from that plugin. */
  lemma Rotated(o: OMap<Installed>, id: string, c: seq<string>) returns (round: seq<string>)
    requires IsCycle(o, c) && id in c[..|c| - 1]
    ensures IsCycle(o, round) && round[0] == id
  {
    hide Edge, Path;
    var start := FirstVisit(c[..|c| - 1], id);
    PathPart(o, c, start, |c|);
    PathPart(o, c, 0, start + 1);
    PathJoin(o, c[start..|c|], c[0..start + 1]);
    round := c[start..|c|] + c[0..start + 1][1..];
  }

  /** The walk from a plugin back to itself leaves through a dependency and returns without passing it. */
  lemma LeavesAndReturns(o: OMap<Installed>, id: string, p: Installed, round: seq<string>)
    requires id in o.at && IsCycle(Put(o, id, p), round) && round[0] == id
    ensures Names(p.manifest, round[1]) && Reaches(o, round[1], id)
  {
    var o' := Put(o, id, p);
    assert Edge(o', round[0], round[1]);
    hide Edge, Path, Names;
    assert round[1..][|round| - 2] == id;
    var back := FirstVisit(round[1..], id);
    PathPart(o', round, 1, back + 2);
    var path := round[1..back + 2];
    assert forall i :: 0 <= i < |path| - 1 ==> path[i] == round[1..][i];
    EdgesElsewhere(o, id, p, path);
    assert path[0] == round[1] && path[|path| - 1] == id;
  }

  lemma CycleMeansReaching(o: OMap<Installed>, id: string, p: Installed, c: seq<string>)
    requires id in o.at && Acyclic(o) && IsCycle(Put(o, id, p), c)
    ensures ClosesLoop(o, id, p.manifest)
  {
    hide Edge, Path, Reaches;
    if id !in c[..|c| - 1] {
      assert forall i :: 0 <= i < |c| - 1 ==> c[i] == c[..|c| - 1][i];
      EdgesElsewhere(o, id, p, c);
      if IsCycle(o, c) { assert false; }
    } else {
      var round := Rotated(Put(o, id, p), id, c);
      LeavesAndReturns(o, id, p, round);
    }
  }

  /** Replacing a manifest keeps the graph acyclic exactly when none of its dependencies leads back to the plugin. */
  lemma ReplaceKeepsAcyclicIff(o: OMap<Installed>, id: string, p: Installed)
    requires id in o.at && Acyclic(o)
    ensures Acyclic(Put(o, id, p)) <==> !ClosesLoop(o, id, p.manifest)
  {
    if ClosesLoop(o, id, p.manifest) {
      var k :| 0 <= k < |p.manifest.dependencies| && Reaches(o, p.manifest.dependencies[k].0, id);
      ReachingMakesCycle(o, id, p, k);
    } else {
      forall c ensures !IsCycle(Put(o, id, p), c) {
        if IsCycle(Put(o, id, p), c) { CycleMeansReaching(o, id, p, c); }
      }
    }
  }

  /** An upgrade, which checks neither, keeps the closure exactly when the checks it leaves out would pass. */
  lemma UpgradeKeepsClosureIff(m: Market, runtime: Runtime, id: string, target: Option<string>)
    requires Met(m.installed) && Acyclic(m.installed) && Upgrade(m, runtime, id, target).1.Done?
    ensures id in m.installed.at && Resolve(m.registry, id, target).Some?
    ensures var manifest := Resolve(m.registry, id, target).value.manifest;
      var o' := Upgrade(m, runtime, id, target).0.installed;
      Met(o') && Acyclic(o') <==>
        OwnMet(m.installed, id, manifest) && DependantsAccept(m.installed, id, manifest.version)
          && !ClosesLoop(m.installed, id, manifest)
  {
    hide Upgrade, Resolve, OwnMet, DependantsAccept, ClosesLoop, Met, Acyclic, CompatibleWith;
    UpgradeShape(m, runtime, id, target);
    var p := m.installed.at[id];
    var manifest := Resolve(m.registry, id, target).value.manifest;
    var p' := p.(manifest := manifest, versionHistory := p.versionHistory + [manifest.version]);
    ReplaceKeepsMetIff(m.installed, id, p');
    ReplaceKeepsAcyclicIff(m.installed, id, p');
  }
}
