/** Which errors a manifest gets, one by one, and in which order they stand. */
module MarketplaceErrors {
  import opened Lists
  import opened Versions
  import opened Marketplace
  import opened MarketplaceChecks

  ghost predicate Blank(f: Field) { f == Other || f == Text("") }

  ghost predicate Bad(f: Field) { f == Other || !ValidRange(f.value) }

  ghost predicate Requires(m: RawMap, name: string, range: Field) {
    m.Properties? && exists i :: 0 <= i < |m.entries| && m.entries[i] == (name, range)
  }

  ghost predicate RequiresSome(m: RawMap, name: string) { exists range :: Requires(m, name, range) }

  /** What an error says of the manifest. */
  ghost predicate Broken(m: RawManifest, e: ManifestError) {
    match e
    case NoId => Blank(m.id)
    case InvalidId(id) => m.id == Text(id) && id != "" && !ValidId(id)
    case NoName => Blank(m.name)
    case NoVersion => Blank(m.version)
    case InvalidVersion(version) => m.version == Text(version) && version != "" && !ValidVersion(version)
    case NoDescription => Blank(m.description)
    case NoAuthor => Blank(m.author)
    case NoLicense => Blank(m.license)
    case DependenciesNotObject => m.dependencies == NotObject
    case InvalidDependencyId(id) => RequiresSome(m.dependencies, id) && !ValidId(id)
    case InvalidDependencyRange(range, id) => Requires(m.dependencies, id, range) && Bad(range)
    case KeywordsNotArray => m.keywords == NotArray
    case KeywordNotText => m.keywords.Items? && exists i :: 0 <= i < |m.keywords.items| && m.keywords.items[i] == Other
    case EngineNotObject => m.engine == Null || m.engine == Falsy || m.engine == NotObject
    case InvalidEngineRange(range, engine) => Requires(m.engine, engine, range) && Bad(range)
  }

  /** The place of the field an error is about. */
  ghost function Place(e: ManifestError): nat {
    match e
    case NoId => 0 case InvalidId(_) => 0
    case NoName => 1
    case NoVersion => 2 case InvalidVersion(_) => 2
    case NoDescription => 3
    case NoAuthor => 4
    case NoLicense => 5
    case DependenciesNotObject => 6 case InvalidDependencyId(_) => 6 case InvalidDependencyRange(_, _) => 6
    case KeywordsNotArray => 7 case KeywordNotText => 7
    case EngineNotObject => 8 case InvalidEngineRange(_, _) => 8
  }

  ghost predicate InPlaces(errors: seq<ManifestError>, low: nat, high: nat) {
    && (forall i :: 0 <= i < |errors| ==> low <= Place(errors[i]) <= high)
    && (forall i, j :: 0 <= i < j < |errors| ==> Place(errors[i]) <= Place(errors[j]))
  }

  ghost predicate Tells(errors: seq<ManifestError>, m: RawManifest, low: nat, high: nat) {
    && InPlaces(errors, low, high)
    && forall e :: e in errors <==> low <= Place(e) <= high && Broken(m, e)
  }

  lemma Join(a: seq<ManifestError>, b: seq<ManifestError>, m: RawManifest, low: nat, middle: nat, high: nat)
    requires Tells(a, m, low, middle) && Tells(b, m, middle + 1, high) && low <= middle < high
    ensures Tells(a + b, m, low, high)
  {
    hide Broken, Place;
    assert forall e :: e in a + b <==> e in a || e in b;
  }

  // ---------- the fields in front ----------

  /** At this place the manifest has at most one error: this one, if the rule is broken. */
  ghost predicate OneError(m: RawManifest, broken: bool, e: ManifestError, p: nat) {
    Place(e) == p && forall x :: Place(x) == p ==> (Broken(m, x) <==> broken && x == e)
  }

  lemma FirstTells(m: RawManifest, broken: bool, e: ManifestError)
    requires OneError(m, broken, e, 0)
    ensures Tells(PushIf([], broken, e), m, 0, 0)
  {
    hide Broken, Place;
  }

  lemma PushTells(errors: seq<ManifestError>, m: RawManifest, broken: bool, e: ManifestError, p: nat)
    requires p > 0 && Tells(errors, m, 0, p - 1) && OneError(m, broken, e, p)
    ensures Tells(PushIf(errors, broken, e), m, 0, p)
  {
    hide Broken, Place;
    assert forall x :: x in errors + [e] <==> x in errors || x == e;
  }

  lemma FieldsTell(m: RawManifest)
    ensures Tells(FieldErrors(m), m, 0, 5)
  {
    hide ValidId, ValidVersion, PushIf, Tells;
    EmptyIsInvalid();
    var (id, version) := (TextOf(m.id), TextOf(m.version));
    var e0 := if id == "" then NoId else InvalidId(id);
    var e2 := if version == "" then NoVersion else InvalidVersion(version);
    FirstTells(m, !ValidId(id), e0);
    var s0 := PushIf([], !ValidId(id), e0);
    PushTells(s0, m, TextOf(m.name) == "", NoName, 1);
    var s1 := PushIf(s0, TextOf(m.name) == "", NoName);
    PushTells(s1, m, !ValidVersion(version), e2, 2);
    OthersTell(m);
  }

  lemma OthersTell(m: RawManifest)
    requires Tells(NameErrors(m), m, 0, 2)
    ensures Tells(FieldErrors(m), m, 0, 5)
  {
    hide NameErrors, PushIf, Tells;
    PushTells(NameErrors(m), m, TextOf(m.description) == "", NoDescription, 3);
    var s3 := PushIf(NameErrors(m), TextOf(m.description) == "", NoDescription);
    PushTells(s3, m, TextOf(m.author) == "", NoAuthor, 4);
    var s4 := PushIf(s3, TextOf(m.author) == "", NoAuthor);
    PushTells(s4, m, TextOf(m.license) == "", NoLicense, 5);
  }

  // ---------- dependencies, keywords and engines ----------

  lemma {:induction false} IssuesMembers(
    s: seq<RawRequirement>, f: RawRequirement -> seq<ManifestError>, e: ManifestError)
    ensures e in Issues(s, f) <==> exists i :: 0 <= i < |s| && e in f(s[i])
  {
    if s != [] {
      var n := |s| - 1;
      IssuesMembers(s[..n], f, e);
      var (before, last) := (Issues(s[..n], f), f(s[n]));
      assert Issues(s, f) == before + last;
      hide Issues;
      assert e in before + last <==> e in before || e in last;
      assert forall i :: 0 <= i < n ==> s[..n][i] == s[i];
    }
  }

  /** Errors of one place stand in order whatever they are. */
  lemma OnePlace(errors: seq<ManifestError>, m: RawManifest, p: nat)
    requires forall e :: e in errors <==> Place(e) == p && Broken(m, e)
    ensures Tells(errors, m, p, p)
  {
    hide Broken, Place;
    assert forall i :: 0 <= i < |errors| ==> errors[i] in errors;
  }

  lemma RequiresSomeIs(m: RawMap, name: string)
    requires m.Properties?
    ensures RequiresSome(m, name) <==> exists i :: 0 <= i < |m.entries| && m.entries[i].0 == name
  {
    if exists i :: 0 <= i < |m.entries| && m.entries[i].0 == name {
      var i :| 0 <= i < |m.entries| && m.entries[i].0 == name;
      assert Requires(m, name, m.entries[i].1);
    }
  }

  lemma DependenciesTell(m: RawManifest)
    ensures Tells(DependencyErrors(m.dependencies), m, 6, 6)
  {
    hide ValidId, ValidRange, Issues, Tells;
    var errors := DependencyErrors(m.dependencies);
    forall e ensures e in errors <==> Place(e) == 6 && Broken(m, e) {
      if m.dependencies.Properties? {
        var s := m.dependencies.entries;
        IssuesMembers(s, DependencyIssues, e);
        if e.InvalidDependencyId? { RequiresSomeIs(m.dependencies, e.id); }
        forall i | 0 <= i < |s|
          ensures e in DependencyIssues(s[i]) <==>
            (e == InvalidDependencyId(s[i].0) && !ValidId(s[i].0)) ||
            (e == InvalidDependencyRange(s[i].1, s[i].0) && Bad(s[i].1)) {}
        hide Issues, DependencyIssues, Bad, RequiresSome;
      }
    }
    OnePlace(errors, m, 6);
  }

  lemma KeywordsTell(m: RawManifest)
    ensures Tells(KeywordErrors(m.keywords), m, 7, 7)
  {
    hide Tells;
    OnePlace(KeywordErrors(m.keywords), m, 7);
  }

  lemma EngineTells(m: RawManifest)
    requires m.engine != Null
    ensures Tells(EngineErrors(m.engine), m, 8, 8)
  {
    hide ValidRange, Issues, Tells;
    var errors := EngineErrors(m.engine);
    forall e ensures e in errors <==> Place(e) == 8 && Broken(m, e) {
      if m.engine.Properties? {
        var s := m.engine.entries;
        IssuesMembers(s, EngineIssues, e);
        forall i | 0 <= i < |s|
          ensures e in EngineIssues(s[i]) <==> e == InvalidEngineRange(s[i].1, s[i].0) && Bad(s[i].1) {}
        hide Issues, EngineIssues, Bad;
      }
    }
    OnePlace(errors, m, 8);
  }

  /**
   A manifest gets exactly the errors that say something true of it, those of a field behind those of the fields before
   it; the engine's `null` is the one that throws.
   */
  lemma ErrorsTell(m: RawManifest)
    ensures ErrorsOf(m) == TypeError <==> m.engine == Null
    ensures ErrorsOf(m).Errors? ==> forall e :: e in ErrorsOf(m).errors <==> Broken(m, e)
    ensures ErrorsOf(m).Errors? ==> InPlaces(ErrorsOf(m).errors, 0, 8)
  {
    FieldsTell(m);
    DependenciesTell(m);
    KeywordsTell(m);
    hide FieldErrors, DependencyErrors, KeywordErrors, EngineErrors, Broken, InPlaces;
    if m.engine != Null {
      EngineTells(m);
      var (a, b, c, d) :=
        (FieldErrors(m), DependencyErrors(m.dependencies), KeywordErrors(m.keywords), EngineErrors(m.engine));
      Join(a, b, m, 0, 5, 6);
      Join(a + b, c, m, 0, 6, 7);
      Join(a + b + c, d, m, 0, 7, 8);
      assert ErrorsOf(m).errors == a + b + c + d;
    }
  }

  /** A registration is refused as invalid, and changes nothing, exactly when the manifest has errors or throws. */
  lemma RawRegistration(m: Market, raw: RawManifest, now: string)
    ensures RegisterRaw(m, raw, now).1 == Refused(InvalidManifest) <==> ErrorsOf(raw) != Errors([])
    ensures ErrorsOf(raw) != Errors([]) ==> RegisterRaw(m, raw, now).0 == m
    ensures ErrorsOf(raw) == Errors([]) ==> WellTyped(raw) && RegisterRaw(m, raw, now) == Register(m, Typed(raw), now)
  {
    NoErrorsIsValid(raw);
    hide ErrorsOf, WellTyped, ValidManifest, Typed;
  }

  // ---------- requirements ----------

  ghost predicate InRange(versions: map<string, string>, d: Requirement) {
    d.0 in versions && versions[d.0] != "" && SatisfiesRange(versions[d.0], d.1)
  }

  ghost predicate NoVersionOf(versions: map<string, string>, name: string) {
    name !in versions || versions[name] == ""
  }

  /** Without a version a requirement is missing, with one out of range conflicting, and in both cases unmet. */
  lemma ReportsMean(s: seq<Requirement>, versions: map<string, string>, d: Requirement)
    ensures d in Filter(s, Missing(versions)) <==> d in s && NoVersionOf(versions, d.0)
    ensures d in Filter(s, Conflicting(versions)) <==>
      d in s && !NoVersionOf(versions, d.0) && !InRange(versions, d)
    ensures d in Filter(s, Unmet(versions)) <==> d in s && !InRange(versions, d)
    ensures Resolves(versions, d, d.0) <==> InRange(versions, d)
  {
    hide Filter, SatisfiesRange;
    FilterMembers(s, Missing(versions));
    FilterMembers(s, Conflicting(versions));
    FilterMembers(s, Unmet(versions));
  }
}
