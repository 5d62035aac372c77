/** Runs of the marketplace in which an upgrade breaks a dependant. */
module MarketplaceExamples {
  import opened Options
  import opened OrderedMap
  import opened Versions
  import opened Marketplace
  import opened MarketplaceRanges
  import opened MarketplaceClosure

  /** Two versions of a plugin and an application that needs the first and does not accept the second. */
  ghost predicate Incompatibles(base1: Manifest, base2: Manifest, app: Manifest) {
    && ValidManifest(base1) && ValidManifest(base2) && ValidManifest(app)
    && base1.id == base2.id != app.id && base1.version != base2.version
    && base1.engine == base2.engine == app.engine == [] && base1.dependencies == []
    && |app.dependencies| == 1 && app.dependencies[0].0 == base1.id
    && SatisfiesRange(base1.version, app.dependencies[0].1) && !SatisfiesRange(base2.version, app.dependencies[0].1)
  }

  /** The base is published and installed, then the application, then the second version of the base is published. */
  function Setup(base1: Manifest, base2: Manifest, app: Manifest): seq<Action> {
    [RegisterAction(base1, ""), InstallAction(base1.id, None, ""),
     RegisterAction(app, ""), InstallAction(app.id, None, ""),
     RegisterAction(base2, "")]
  }

  // ---------- the steps of the run ----------

  lemma OneMore(runtime: Runtime, actions: seq<Action>, a: Action)
    ensures Run(runtime, actions + [a]) == Act(Run(runtime, actions), runtime, a).0
  {
    assert (actions + [a])[..|actions|] == actions;
  }

  lemma RegisterNew(m: Market, x: Manifest)
    requires ValidManifest(x) && x.id !in m.registry
    ensures Register(m, x, "").0 == m.(registry := m.registry[x.id := [Entry(x, 0, "", "")]])
  {
    hide ValidManifest;
    assert [] + [Entry(x, 0, "", "")] == [Entry(x, 0, "", "")];
  }

  lemma RegisterNext(m: Market, x: Manifest, e: Entry)
    requires ValidManifest(x) && x.id in m.registry && m.registry[x.id] == [e] && e.manifest.version != x.version
    ensures Register(m, x, "").0 == m.(registry := m.registry[x.id := [e, Entry(x, 0, e.publishedAt, "")]])
  {
    hide ValidManifest;
    assert [e] + [Entry(x, 0, e.publishedAt, "")] == [e, Entry(x, 0, e.publishedAt, "")];
  }

  function Fresh(x: Manifest): Installed { Installed(x, "", [x.version]) }

  lemma InstallSole(m: Market, runtime: Runtime, x: Manifest, e: Entry)
    requires ValidManifest(x) && x.engine == [] && e.manifest == x && x.id !in m.installed.at
    requires x.id in m.registry && m.registry[x.id] == [e] && AllMet(m.installed, x)
    ensures Install(m, runtime, x.id, None, "").0
         == Market(m.registry[x.id := [e.(downloads := e.downloads + 1)]], Put(m.installed, x.id, Fresh(x)))
  {
    hide ValidManifest, SatisfiesRange;
    assert AllPresent(m.installed, x);
    assert [e][0 := e.(downloads := e.downloads + 1)] == [e.(downloads := e.downloads + 1)];
  }

  /** What the setup reaches: the base and the application installed, two versions of the base published. */
  function Reached(base1: Manifest, base2: Manifest, app: Manifest): Market {
    Market(
      map[base1.id := [Entry(base1, 1, "", ""), Entry(base2, 0, "", "")], app.id := [Entry(app, 1, "", "")]],
      OMap([base1.id, app.id], map[base1.id := Fresh(base1), app.id := Fresh(app)]))
  }

  lemma BaseInstalled(runtime: Runtime, base1: Manifest, base2: Manifest, app: Manifest)
    requires Incompatibles(base1, base2, app)
    ensures Run(runtime, Setup(base1, base2, app)[..2])
         == Market(map[base1.id := [Entry(base1, 1, "", "")]], OMap([base1.id], map[base1.id := Fresh(base1)]))
  {
    hide ValidManifest, SatisfiesRange;
    var acts := Setup(base1, base2, app);
    assert Run(runtime, []) == EMPTY_MARKET;
    RegisterNew(EMPTY_MARKET, base1);
    OneMore(runtime, [], acts[0]);
    OneMore(runtime, acts[..1], acts[1]);
    assert [] + [acts[0]] == acts[..1] && acts[..1] + [acts[1]] == acts[..2];
    hide Run, Register, Install;
    var m1 := Market(map[base1.id := [Entry(base1, 0, "", "")]], Empty());
    InstallSole(m1, runtime, base1, Entry(base1, 0, "", ""));
  }

  lemma VersionIsText(x: Manifest)
    requires ValidManifest(x)
    ensures x.version != ""
  {
    hide ValidId, ValidRange, SkipTag;
    assert ValidVersion(x.version);
  }

  lemma AppFits(base1: Manifest, base2: Manifest, app: Manifest, o: OMap<Installed>)
    requires Incompatibles(base1, base2, app) && base1.id in o.at
    ensures o.at[base1.id].manifest == base1 ==> AllMet(o, app)
    ensures o.at[base1.id].manifest == base2 ==> !AllMet(o, app)
  {
    hide ValidManifest, SatisfiesRange;
    VersionIsText(base1);
    assert DependencyMet(o, app.dependencies[0]) <==> AllMet(o, app);
  }

  lemma SetupReaches(runtime: Runtime, base1: Manifest, base2: Manifest, app: Manifest)
    requires Incompatibles(base1, base2, app)
    ensures Run(runtime, Setup(base1, base2, app)) == Reached(base1, base2, app)
  {
    hide ValidManifest, SatisfiesRange, Run, Register, Install, AllMet;
    var acts := Setup(base1, base2, app);
    BaseInstalled(runtime, base1, base2, app);
    var m2 := Run(runtime, acts[..2]);
    RegisterNew(m2, app);
    var m3 := m2.(registry := m2.registry[app.id := [Entry(app, 0, "", "")]]);
    AppFits(base1, base2, app, m3.installed);
    InstallSole(m3, runtime, app, Entry(app, 0, "", ""));
    var m4 := Install(m3, runtime, app.id, None, "").0;
    RegisterNext(m4, base2, Entry(base1, 1, "", ""));
    OneMore(runtime, acts[..2], acts[2]);
    OneMore(runtime, acts[..3], acts[3]);
    OneMore(runtime, acts[..4], acts[4]);
    assert acts[..2] + [acts[2]] == acts[..3] && acts[..3] + [acts[3]] == acts[..4] && acts[..4] + [acts[4]] == acts;
  }

  // ---------- the upgrade ----------

  lemma UpgradeBase(runtime: Runtime, base1: Manifest, base2: Manifest, app: Manifest)
    requires Incompatibles(base1, base2, app)
    ensures var (m', result) := Upgrade(Reached(base1, base2, app), runtime, base1.id, None);
      result == Done(base2.version) && base1.id in m'.installed.at && m'.installed.at[base1.id].manifest == base2
      && app.id in m'.installed.at && m'.installed.at[app.id].manifest == app
  {
    hide ValidManifest, SatisfiesRange;
  }

  lemma MetBefore(base1: Manifest, base2: Manifest, app: Manifest)
    requires Incompatibles(base1, base2, app)
    ensures Met(Reached(base1, base2, app).installed)
  {
    hide AllMet, ValidManifest, SatisfiesRange;
    var o := Reached(base1, base2, app).installed;
    AppFits(base1, base2, app, o);
    EmptyIsMet(o, base1);
  }

  lemma EmptyIsMet(o: OMap<Installed>, x: Manifest)
    requires x.dependencies == []
    ensures AllMet(o, x)
  {
  }

  /**
   Whatever the runtime: after the setup all dependencies are met, and an upgrade of the base to a version the
   application does not accept is carried out all the same.
   */
  lemma UpgradeCanBreakDependants(runtime: Runtime, base1: Manifest, base2: Manifest, app: Manifest)
    requires Incompatibles(base1, base2, app)
    ensures var before := Run(runtime, Setup(base1, base2, app));
      && Met(before.installed)
      && Upgrade(before, runtime, base1.id, None).1 == Done(base2.version)
      && !Met(Upgrade(before, runtime, base1.id, None).0.installed)
  {
    hide Run, Upgrade, AllMet, ValidManifest, SatisfiesRange, Incompatibles, Setup;
    SetupReaches(runtime, base1, base2, app);
    UpgradeBase(runtime, base1, base2, app);
    MetBefore(base1, base2, app);
    AppFits(base1, base2, app, Upgrade(Reached(base1, base2, app), runtime, base1.id, None).0.installed);
    hide Reached;
  }

  // ---------- the plugin with an inherited name ----------

  /** Two valid plugins without requirements. */
  ghost predicate Unrelated(c: Manifest, other: Manifest) {
    && ValidManifest(c) && ValidManifest(other) && c.id != other.id
    && c.engine == other.engine == [] && c.dependencies == other.dependencies == []
  }

  function InstallBoth(c: Manifest, other: Manifest): seq<Action> {
    [RegisterAction(c, ""), InstallAction(c.id, None, ""), RegisterAction(other, ""), InstallAction(other.id, None, "")]
  }

  lemma InstallBothReaches(runtime: Runtime, c: Manifest, other: Manifest)
    requires Unrelated(c, other)
    ensures Run(runtime, InstallBoth(c, other)).installed
         == OMap([c.id, other.id], map[c.id := Fresh(c), other.id := Fresh(other)])
  {
    hide ValidManifest, SatisfiesRange, Register, Install, AllMet;
    var acts := InstallBoth(c, other);
    assert Run(runtime, []) == EMPTY_MARKET;
    hide Run;
    RegisterNew(EMPTY_MARKET, c);
    OneMore(runtime, [], acts[0]);
    OneMore(runtime, acts[..1], acts[1]);
    OneMore(runtime, acts[..2], acts[2]);
    OneMore(runtime, acts[..3], acts[3]);
    assert [] + [acts[0]] == acts[..1] && acts[..1] + [acts[1]] == acts[..2];
    assert acts[..2] + [acts[2]] == acts[..3] && acts[..3] + [acts[3]] == acts;
    var m1 := Run(runtime, acts[..1]);
    EmptyIsMet(m1.installed, c);
    InstallSole(m1, runtime, c, Entry(c, 0, "", ""));
    var m2 := Run(runtime, acts[..2]);
    RegisterNew(m2, other);
    var m3 := Run(runtime, acts[..3]);
    EmptyIsMet(m3.installed, other);
    InstallSole(m3, runtime, other, Entry(other, 0, "", ""));
  }

  lemma OnlyTheInherited(o: OMap<Installed>, c: Manifest, other: Manifest)
    requires Unrelated(c, other) && c.id == "constructor"
    requires o == OMap([c.id, other.id], map[c.id := Fresh(c), other.id := Fresh(other)])
    ensures SomeDependsOn(o, c.id) && !SomeDependsOn(o, other.id)
    ensures forall id :: id in o.at ==> !Names(o.at[id].manifest, c.id)
  {
    hide ValidManifest;
    assert other.id in o.at && DependsOn(o.at[other.id].manifest, c.id);
    assert !DependsOn(c, other.id);
    assert !Names(c, c.id) && !Names(other, c.id);
    hide DependsOn, Names;
  }

  /** Beside any other plugin, one called `constructor` cannot be uninstalled, though nothing names it. */
  lemma ConstructorIsStuck(runtime: Runtime, c: Manifest, other: Manifest)
    requires Unrelated(c, other) && c.id == "constructor"
    ensures var m := Run(runtime, InstallBoth(c, other));
      && Uninstall(m, c.id).1 == Refused(DependedOn)
      && Uninstall(m, other.id).1 == Done(other.version)
      && forall id :: id in m.installed.at ==> !Names(m.installed.at[id].manifest, c.id)
  {
    hide Run, Unrelated, SomeDependsOn, Names;
    InstallBothReaches(runtime, c, other);
    OnlyTheInherited(Run(runtime, InstallBoth(c, other)).installed, c, other);
  }

  // ---------- an instance ----------

  function Plugin(id: string, version: string, dependencies: seq<(string, string)>): Manifest {
    Manifest(id, "Name", version, "Text", "Author", "MIT", dependencies, [])
  }

  lemma TagText()
    ensures IsTag("a")
  {
  }

  lemma Texts(v: Version)
    ensures ValidVersion(PrintVersion(v)) && ValidRange(PrintRange(Caret, v))
  {
    hide ValidVersion, ValidRange, IsTag, PrintVersion;
    TagText();
    PrintedVersionIsValid(v, "a", '-');
    PrintedRangeIsValid("^", v);
  }

  lemma CaretMajor(v: Version, w: Version)
    requires v.major != w.major
    ensures SatisfiesRange(PrintVersion(v), PrintRange(Caret, v))
        && !SatisfiesRange(PrintVersion(w), PrintRange(Caret, v))
  {
    hide PrintVersion, ParseSemver, SplitRange, PrintRange;
    ParseSemverPrinted(v);
    ParseSemverPrinted(w);
    SplitRangePrinted(Caret, v);
  }

  /** Any two versions with different majors, and an application that pins the first one by a caret. */
  lemma CaretBreaks(v: Version, w: Version)
    requires v.major != w.major
    ensures var (base1, base2) := (Plugin("base", PrintVersion(v), []), Plugin("base", PrintVersion(w), []));
      Incompatibles(base1, base2, Plugin("app", PrintVersion(v), [("base", PrintRange(Caret, v))]))
  {
    hide SatisfiesRange, PrintVersion, PrintRange, ValidVersion, ValidRange;
    assert ValidId("base") && ValidId("app");
    hide ValidId;
    Texts(v);
    Texts(w);
    CaretMajor(v, w);
  }
  /** Such plugins exist. */
  lemma ConstructorIsValid(v: Version)
    ensures Unrelated(Plugin("constructor", PrintVersion(v), []), Plugin("app", PrintVersion(v), []))
  {
    hide PrintVersion, ValidVersion, ValidRange;
    assert ValidId("constructor") && ValidId("app");
    hide ValidId;
    Texts(v);
  }
}
