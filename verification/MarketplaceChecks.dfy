/** The marketplace's checks: manifest errors, dependency resolution, engine compatibility. */
module MarketplaceChecks {
  import opened Lists
  import opened OrderedMap
  import opened Versions
  import opened Marketplace

  type Requirement = (string, string)

  // ---------- manifests as they come ----------

  /** A value that is a text or something else. */
  datatype Field = Text(value: string) | Other

  type RawRequirement = (string, Field)

  /** What should be an object: `null`, another falsy value, an array or a non-object, or an object's properties. */
  datatype RawMap = Undefined | Null | Falsy | NotObject | Properties(entries: seq<RawRequirement>)

  datatype RawList = NoList | NotArray | Items(items: seq<Field>)

  /** A manifest before it is checked; its fields need not have their declared types. */
  datatype RawManifest = RawManifest(
    id: Field, name: Field, version: Field, description: Field, author: Field, license: Field,
    dependencies: RawMap, keywords: RawList, engine: RawMap)

  /** One error per broken rule, with the texts its message quotes. */
  datatype ManifestError =
    | NoId | InvalidId(id: string) | NoName | NoVersion | InvalidVersion(version: string)
    | NoDescription | NoAuthor | NoLicense
    | DependenciesNotObject | InvalidDependencyId(id: string) | InvalidDependencyRange(range: Field, id: string)
    | KeywordsNotArray | KeywordNotText
    | EngineNotObject | InvalidEngineRange(range: Field, engine: string)

  /** `Object.entries(null)` throws. */
  datatype Checked = Errors(errors: seq<ManifestError>) | TypeError

  function TextOf(f: Field): string { if f.Text? then f.value else "" }

  function PushIf(errors: seq<ManifestError>, broken: bool, e: ManifestError): (r: seq<ManifestError>)
    ensures r == [] <==> errors == [] && !broken
  {
    if broken then errors + [e] else errors
  }

  function NameErrors(m: RawManifest): seq<ManifestError> {
    var (id, version) := (TextOf(m.id), TextOf(m.version));
    var e1 := PushIf([], !ValidId(id), if id == "" then NoId else InvalidId(id));
    var e2 := PushIf(e1, TextOf(m.name) == "", NoName);
    PushIf(e2, !ValidVersion(version), if version == "" then NoVersion else InvalidVersion(version))
  }

  function FieldErrors(m: RawManifest): seq<ManifestError> {
    var e1 := PushIf(NameErrors(m), TextOf(m.description) == "", NoDescription);
    var e2 := PushIf(e1, TextOf(m.author) == "", NoAuthor);
    PushIf(e2, TextOf(m.license) == "", NoLicense)
  }

  predicate GoodRange(f: Field) { f.Text? && ValidRange(f.value) }

  function DependencyIssues(d: RawRequirement): (issues: seq<ManifestError>)
    ensures issues == [] <==> ValidId(d.0) && GoodRange(d.1)
  {
    (if ValidId(d.0) then [] else [InvalidDependencyId(d.0)])
    + (if GoodRange(d.1) then [] else [InvalidDependencyRange(d.1, d.0)])
  }

  function EngineIssues(e: RawRequirement): (issues: seq<ManifestError>)
    ensures issues == [] <==> GoodRange(e.1)
  {
    if GoodRange(e.1) then [] else [InvalidEngineRange(e.1, e.0)]
  }

  /** The issues of each element, in order. */
  function Issues(s: seq<RawRequirement>, f: RawRequirement -> seq<ManifestError>): seq<ManifestError> {
    if s == [] then [] else Issues(s[..|s| - 1], f) + f(s[|s| - 1])
  }

  function DependencyErrors(m: RawMap): seq<ManifestError> {
    match m
    case Properties(entries) => Issues(entries, DependencyIssues)
    case NotObject => [DependenciesNotObject]
    case _ => []
  }

  predicate AllTexts(items: seq<Field>) { forall i :: 0 <= i < |items| ==> items[i].Text? }

  function KeywordErrors(l: RawList): seq<ManifestError> {
    match l
    case NoList => []
    case NotArray => [KeywordsNotArray]
    case Items(items) => if AllTexts(items) then [] else [KeywordNotText]
  }

  function EngineErrors(m: RawMap): seq<ManifestError> {
    match m
    case Properties(entries) => Issues(entries, EngineIssues)
    case Undefined => []
    case _ => [EngineNotObject]
  }

  function ErrorsBeforeEngine(m: RawManifest): seq<ManifestError> {
    FieldErrors(m) + DependencyErrors(m.dependencies) + KeywordErrors(m.keywords)
  }

  function ErrorsOf(m: RawManifest): Checked {
    if m.engine.Null? then TypeError else Errors(ErrorsBeforeEngine(m) + EngineErrors(m.engine))
  }

  // ---------- what passes has its declared types ----------

  predicate TextRanges(m: RawMap) {
    m.Properties? ==> forall i :: 0 <= i < |m.entries| ==> m.entries[i].1.Text?
  }

  predicate WellTyped(m: RawManifest) {
    && m.id.Text? && m.name.Text? && m.version.Text? && m.description.Text? && m.author.Text? && m.license.Text?
    && !m.dependencies.NotObject? && TextRanges(m.dependencies)
    && !m.keywords.NotArray? && (m.keywords.Items? ==> AllTexts(m.keywords.items))
    && (m.engine.Undefined? || m.engine.Properties?) && TextRanges(m.engine)
  }

  function Requirements(m: RawMap): seq<Requirement>
    requires TextRanges(m)
  {
    if m.Properties? then seq(|m.entries|, i requires 0 <= i < |m.entries| => (m.entries[i].0, m.entries[i].1.value))
    else []
  }

  /** A well-typed manifest as the registry and the installer use it. */
  function Typed(m: RawManifest): Manifest
    requires WellTyped(m)
  {
    Manifest(m.id.value, m.name.value, m.version.value, m.description.value, m.author.value, m.license.value,
             Requirements(m.dependencies), Requirements(m.engine))
  }

  /** A manifest without its declared types, which the checks report or throw on, changes nothing. */
  function RegisterRaw(m: Market, raw: RawManifest, now: string): (Market, Result) {
    if WellTyped(raw) then Register(m, Typed(raw), now) else (m, Refused(InvalidManifest))
  }

  function RawRequirements(s: seq<Requirement>): seq<RawRequirement> {
    seq(|s|, i requires 0 <= i < |s| => (s[i].0, Text(s[i].1)))
  }

  /** A stored manifest as the checks see it. */
  function Raw(m: Manifest): RawManifest {
    RawManifest(Text(m.id), Text(m.name), Text(m.version), Text(m.description), Text(m.author), Text(m.license),
                Properties(RawRequirements(m.dependencies)), NoList, Properties(RawRequirements(m.engine)))
  }

  lemma RawIsTyped(m: Manifest)
    ensures WellTyped(Raw(m)) && Typed(Raw(m)) == m
  {
    assert Requirements(Properties(RawRequirements(m.dependencies))) == m.dependencies;
    assert Requirements(Properties(RawRequirements(m.engine))) == m.engine;
  }

  lemma {:induction false} IssuesNone(s: seq<RawRequirement>, f: RawRequirement -> seq<ManifestError>)
    ensures Issues(s, f) == [] <==> forall i :: 0 <= i < |s| ==> f(s[i]) == []
  {
    if s != [] {
      var n := |s| - 1;
      IssuesNone(s[..n], f);
      assert |Issues(s, f)| == |Issues(s[..n], f)| + |f(s[n])|;
      assert forall i :: 0 <= i < n ==> s[i] == s[..n][i];
    }
  }

  lemma IssuesStep(s: seq<RawRequirement>, f: RawRequirement -> seq<ManifestError>, i: nat)
    requires i < |s|
    ensures Issues(s[..i + 1], f) == Issues(s[..i], f) + f(s[i])
  {
    assert s[..i + 1][..i] == s[..i];
  }

  predicate GoodFields(m: RawManifest) {
    && m.id.Text? && m.name.Text? && m.version.Text? && m.description.Text? && m.author.Text? && m.license.Text?
    && ValidId(m.id.value) && m.name.value != "" && ValidVersion(m.version.value)
    && m.description.value != "" && m.author.value != "" && m.license.value != ""
  }

  lemma EmptyIsInvalid()
    ensures !ValidId("") && !ValidVersion("")
  {
  }

  lemma FieldsGood(m: RawManifest)
    ensures FieldErrors(m) == [] <==> GoodFields(m)
  {
    hide ValidId, ValidVersion, PushIf;
    EmptyIsInvalid();
  }

  predicate GoodDependencies(m: RawMap) {
    !m.NotObject? && (m.Properties? ==>
      forall i :: 0 <= i < |m.entries| ==> ValidId(m.entries[i].0) && GoodRange(m.entries[i].1))
  }

  predicate GoodEngine(m: RawMap) {
    m.Undefined? || (m.Properties? && forall i :: 0 <= i < |m.entries| ==> GoodRange(m.entries[i].1))
  }

  lemma DependenciesGood(m: RawMap)
    ensures DependencyErrors(m) == [] <==> GoodDependencies(m)
  {
    hide Issues, DependencyIssues, ValidId, GoodRange;
    if m.Properties? { IssuesNone(m.entries, DependencyIssues); }
  }

  lemma EngineGood(m: RawMap)
    ensures EngineErrors(m) == [] <==> GoodEngine(m)
  {
    hide Issues, EngineIssues, GoodRange;
    if m.Properties? { IssuesNone(m.entries, EngineIssues); }
  }

  lemma RequirementsGood(m: RawMap)
    requires TextRanges(m)
    ensures GoodDependencies(m) <==> !m.NotObject? && ValidDependencies(Requirements(m))
    ensures GoodEngine(m) <==> (m.Undefined? || m.Properties?) && ValidRanges(Requirements(m))
  {
    hide ValidId, ValidRange;
    if m.Properties? {
      var rs := Requirements(m);
      assert forall i :: 0 <= i < |rs| ==> rs[i].0 == m.entries[i].0 && rs[i].1 == m.entries[i].1.value;
      assert forall i :: 0 <= i < |rs| ==> GoodRange(m.entries[i].1) == ValidRange(rs[i].1);
    }
  }

  predicate ValidDependencies(s: seq<Requirement>) {
    forall i :: 0 <= i < |s| ==> ValidId(s[i].0) && ValidRange(s[i].1)
  }

  predicate ValidRanges(s: seq<Requirement>) { forall i :: 0 <= i < |s| ==> ValidRange(s[i].1) }

  /** The good parts together are a well-typed and valid manifest. */
  lemma GoodIsValid(m: RawManifest)
    ensures GoodFields(m) && GoodDependencies(m.dependencies) && KeywordErrors(m.keywords) == [] && GoodEngine(m.engine)
       <==> WellTyped(m) && ValidManifest(Typed(m))
  {
    hide ValidId, ValidVersion, ValidRange;
    if TextRanges(m.dependencies) { RequirementsGood(m.dependencies); }
    if TextRanges(m.engine) { RequirementsGood(m.engine); }
    hide Requirements;
  }

  /** No error is found exactly in manifests that have their declared types and are valid. */
  lemma NoErrorsIsValid(m: RawManifest)
    ensures ErrorsOf(m) == Errors([]) <==> WellTyped(m) && ValidManifest(Typed(m))
  {
    FieldsGood(m);
    DependenciesGood(m.dependencies);
    EngineGood(m.engine);
    GoodIsValid(m);
    hide FieldErrors, DependencyErrors, KeywordErrors, EngineErrors, WellTyped, Typed, ValidManifest;
    hide GoodFields, GoodDependencies;
    if !m.engine.Null? {
      assert |ErrorsOf(m).errors| == |FieldErrors(m)| + |DependencyErrors(m.dependencies)| + |KeywordErrors(m.keywords)|
                                     + |EngineErrors(m.engine)|;
    }
  }

  // ---------- the loops ----------

  method ValidateFields(m: RawManifest) returns (errors: seq<ManifestError>)
    ensures errors == FieldErrors(m)
  {
    errors := ValidateNames(m);
    hide ValidId, ValidVersion, NameErrors;
    if !m.description.Text? || m.description.value == "" { errors := errors + [NoDescription]; }
    if !m.author.Text? || m.author.value == "" { errors := errors + [NoAuthor]; }
    if !m.license.Text? || m.license.value == "" { errors := errors + [NoLicense]; }
  }

  /** The id, the name and the version. */
  method ValidateNames(m: RawManifest) returns (errors: seq<ManifestError>)
    ensures errors == NameErrors(m)
  {
    hide ValidId, ValidVersion;
    EmptyIsInvalid();
    errors := [];
    if !m.id.Text? || m.id.value == "" {
      errors := errors + [NoId];
    } else if !ValidId(m.id.value) {
      errors := errors + [InvalidId(m.id.value)];
    }
    if !m.name.Text? || m.name.value == "" { errors := errors + [NoName]; }
    if !m.version.Text? || m.version.value == "" {
      errors := errors + [NoVersion];
    } else if !ValidVersion(m.version.value) {
      errors := errors + [InvalidVersion(m.version.value)];
    }
  }

  method ValidateDependencies(m: RawMap) returns (errors: seq<ManifestError>)
    ensures errors == DependencyErrors(m)
  {
    hide ValidId, ValidRange, Issues;
    if m.NotObject? { return [DependenciesNotObject]; }
    errors := [];
    if m.Properties? {
      assert Issues(m.entries[..0], DependencyIssues) == [] by { IssuesNone(m.entries[..0], DependencyIssues); }
      for i := 0 to |m.entries|
        invariant errors == Issues(m.entries[..i], DependencyIssues)
      {
        IssuesStep(m.entries, DependencyIssues, i);
        var (id, range) := m.entries[i];
        if !ValidId(id) { errors := errors + [InvalidDependencyId(id)]; }
        if !range.Text? || !ValidRange(range.value) { errors := errors + [InvalidDependencyRange(range, id)]; }
      }
      assert m.entries[..|m.entries|] == m.entries;
    }
  }

  method ValidateKeywords(l: RawList) returns (errors: seq<ManifestError>)
    ensures errors == KeywordErrors(l)
  {
    if l.NotArray? { return [KeywordsNotArray]; }
    errors := [];
    if l.Items? {
      for i := 0 to |l.items|
        invariant errors == [] && forall j :: 0 <= j < i ==> l.items[j].Text?
      {
        if !l.items[i].Text? {
          errors := errors + [KeywordNotText];
          break;
        }
      }
    }
  }

  method ValidateEngine(m: RawMap) returns (errors: seq<ManifestError>)
    requires !m.Null?
    ensures errors == EngineErrors(m)
  {
    hide ValidRange, Issues;
    if m.Falsy? || m.NotObject? { return [EngineNotObject]; }
    errors := [];
    if m.Properties? {
      assert Issues(m.entries[..0], EngineIssues) == [] by { IssuesNone(m.entries[..0], EngineIssues); }
      for i := 0 to |m.entries|
        invariant errors == Issues(m.entries[..i], EngineIssues)
      {
        IssuesStep(m.entries, EngineIssues, i);
        var (engine, range) := m.entries[i];
        if !range.Text? || !ValidRange(range.value) { errors := errors + [InvalidEngineRange(range, engine)]; }
      }
      assert m.entries[..|m.entries|] == m.entries;
    }
  }

  /** The errors in the order they are found; none exactly when the manifest is well-typed and valid. */
  method ValidateManifest(m: RawManifest) returns (checked: Checked)
    ensures checked == ErrorsOf(m)
    ensures checked == Errors([]) <==> WellTyped(m) && ValidManifest(Typed(m))
  {
    NoErrorsIsValid(m);
    hide FieldErrors, DependencyErrors, KeywordErrors, EngineErrors, WellTyped, Typed, ValidManifest;
    var fields := ValidateFields(m);
    var dependencies := ValidateDependencies(m.dependencies);
    var keywords := ValidateKeywords(m.keywords);
    if m.engine.Null? { return TypeError; }
    var engine := ValidateEngine(m.engine);
    checked := Errors(fields + dependencies + keywords + engine);
  }

  // ---------- dependencies and engines ----------

  predicate Known(versions: map<string, string>, name: string) { name in versions && versions[name] != "" }

  function Missing(versions: map<string, string>): Requirement -> bool { (d: Requirement) => !Known(versions, d.0) }

  function Conflicting(versions: map<string, string>): Requirement -> bool {
    (d: Requirement) => Known(versions, d.0) && !SatisfiesRange(versions[d.0], d.1)
  }

  predicate Resolves(versions: map<string, string>, d: Requirement, id: string) {
    d.0 == id && Known(versions, id) && SatisfiesRange(versions[id], d.1)
  }

  /** The requirements nothing answers, those answered by a version out of range, and the versions of the others. */
  method ResolveDependencies(m: Manifest, versions: map<string, string>)
    returns (resolved: map<string, string>, conflicts: seq<Requirement>, missing: seq<Requirement>)
    ensures missing == Filter(m.dependencies, Missing(versions))
    ensures conflicts == Filter(m.dependencies, Conflicting(versions))
    ensures forall id :: id in resolved <==>
      exists k :: 0 <= k < |m.dependencies| && Resolves(versions, m.dependencies[k], id)
    ensures forall id :: id in resolved ==> id in versions && resolved[id] == versions[id]
  {
    hide SatisfiesRange, Filter;
    FilterNone(m.dependencies[..0], Missing(versions));
    FilterNone(m.dependencies[..0], Conflicting(versions));
    resolved, conflicts, missing := map[], [], [];
    for i := 0 to |m.dependencies|
      invariant missing == Filter(m.dependencies[..i], Missing(versions))
      invariant conflicts == Filter(m.dependencies[..i], Conflicting(versions))
      invariant forall id :: id in resolved <==>
        exists k :: 0 <= k < i && Resolves(versions, m.dependencies[k], id)
      invariant forall id :: id in resolved ==> id in versions && resolved[id] == versions[id]
    {
      FilterStep(m.dependencies, Missing(versions), i);
      FilterStep(m.dependencies, Conflicting(versions), i);
      var (depId, range) := m.dependencies[i];
      if !Known(versions, depId) {
        missing := missing + [m.dependencies[i]];
      } else if SatisfiesRange(versions[depId], range) {
        resolved := resolved[depId := versions[depId]];
      } else {
        conflicts := conflicts + [m.dependencies[i]];
      }
    }
    assert m.dependencies[..|m.dependencies|] == m.dependencies;
  }

  function Unmet(runtime: Runtime): Requirement -> bool {
    (d: Requirement) => !Known(runtime, d.0) || !SatisfiesRange(runtime[d.0], d.1)
  }

  /** The engine requirements the runtime does not meet; none exactly when the manifest fits it. */
  method CheckCompatibility(m: Manifest, runtime: Runtime) returns (issues: seq<Requirement>)
    ensures issues == Filter(m.engine, Unmet(runtime))
    ensures issues == [] <==> CompatibleWith(m, runtime)
  {
    hide SatisfiesRange;
    issues := [];
    for i := 0 to |m.engine|
      invariant issues == Filter(m.engine[..i], Unmet(runtime))
    {
      FilterStep(m.engine, Unmet(runtime), i);
      var (engine, range) := m.engine[i];
      if !Known(runtime, engine) || !SatisfiesRange(runtime[engine], range) {
        issues := issues + [m.engine[i]];
      }
    }
    assert m.engine[..|m.engine|] == m.engine;
    FilterNone(m.engine, Unmet(runtime));
  }

  /** `versions` are the versions of what is installed. */
  ghost predicate VersionsOf(o: OMap<Installed>, versions: map<string, string>) {
    && (forall id :: id in versions <==> id in o.at)
    && (forall id :: id in o.at ==> versions[id] == o.at[id].manifest.version)
  }

  /** What the resolution reports decides installation as the installed plugins themselves would. */
  lemma ResolutionDecides(m: Manifest, o: OMap<Installed>, versions: map<string, string>)
    requires VersionsOf(o, versions)
    ensures Filter(m.dependencies, Missing(versions)) == [] <==> AllPresent(o, m)
    ensures Filter(m.dependencies, Missing(versions)) == [] && Filter(m.dependencies, Conflicting(versions)) == []
        <==> AllMet(o, m)
  {
    hide SatisfiesRange;
    var d := m.dependencies;
    FilterNone(d, Missing(versions));
    FilterNone(d, Conflicting(versions));
    hide Filter;
    assert forall i :: 0 <= i < |d| ==> (!Missing(versions)(d[i]) <==> Present(o, d[i].0));
    assert forall i :: 0 <= i < |d| ==>
      (!Missing(versions)(d[i]) && !Conflicting(versions)(d[i]) <==> DependencyMet(o, d[i]));
  }
}
