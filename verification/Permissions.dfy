/** The permission engine's decision: which profiles allow an action, and the filter that stands for all of them. */
module Permissions {
  import opened Options

  datatype Action = Create | Read | Update | Delete

  /** A view filter maps field names to conditions; what a condition means to a record is a parameter. */
  type Filters<C> = map<string, C>

  datatype ObjectPermissions<C> = ObjectPermissions(
    allowCreate: bool, allowRead: bool, allowEdit: bool, allowDelete: bool, viewFilters: Option<Filters<C>>)

  type PermissionSet<C> = map<string, ObjectPermissions<C>>

  /** What a check hands to the query: no restriction, one filter, or the `$or` of several. */
  datatype Restriction<C> = Unrestricted | One(filters: Filters<C>) | AnyOf(alternatives: seq<Filters<C>>)

  datatype Reason = NotGiven | DefaultAllow | NoSet | NoPermission(action: Action, objectName: string)

  datatype CheckResult<C> = CheckResult(allowed: bool, reason: Reason, filters: Restriction<C>)

  predicate ActionAllowed<C>(p: ObjectPermissions<C>, action: Action) {
    match action
    case Create => p.allowCreate
    case Read => p.allowRead
    case Update => p.allowEdit
    case Delete => p.allowDelete
  }

  predicate HasFilters<C>(p: ObjectPermissions<C>) { p.viewFilters.Some? && p.viewFilters.value != map[] }

  predicate Allows<C>(permissions: PermissionSet<C>, profile: string, action: Action) {
    profile in permissions && ActionAllowed(permissions[profile], action)
  }

  /** A profile that is kept and has a filter to give. */
  predicate Gives<C>(permissions: PermissionSet<C>, profile: string, keep: ObjectPermissions<C> -> bool) {
    profile in permissions && keep(permissions[profile]) && HasFilters(permissions[profile])
  }

  /** The filters of the kept profiles, in the order the user holds them. */
  function Gathered<C>(
    permissions: PermissionSet<C>, profiles: seq<string>, keep: ObjectPermissions<C> -> bool): seq<Filters<C>>
  {
    if profiles == [] then []
    else
      var (rest, last) := (profiles[..|profiles| - 1], profiles[|profiles| - 1]);
      Gathered(permissions, rest, keep)
      + if Gives(permissions, last, keep) then [permissions[last].viewFilters.value] else []
  }

  function Allowing<C>(action: Action): ObjectPermissions<C> -> bool { p => ActionAllowed(p, action) }

  function Collected<C>(permissions: PermissionSet<C>, profiles: seq<string>, action: Action): seq<Filters<C>> {
    Gathered(permissions, profiles, Allowing(action))
  }

  predicate AnyAllows<C>(permissions: PermissionSet<C>, profiles: seq<string>, action: Action) {
    exists i :: 0 <= i < |profiles| && Allows(permissions, profiles[i], action)
  }

  predicate AnyUnfiltered<C>(permissions: PermissionSet<C>, profiles: seq<string>, action: Action) {
    exists i :: 0 <= i < |profiles| && Allows(permissions, profiles[i], action) && !HasFilters(permissions[profiles[i]])
  }

  function Combined<C>(collected: seq<Filters<C>>): Restriction<C> {
    if collected == [] then Unrestricted else if |collected| == 1 then One(collected[0]) else AnyOf(collected)
  }

  /** The decision under a stored permission set. */
  function Decision<C>(
    permissions: PermissionSet<C>, profiles: seq<string>, objectName: string, action: Action): CheckResult<C>
  {
    if !AnyAllows(permissions, profiles, action) then CheckResult(false, NoPermission(action, objectName), Unrestricted)
    else
      CheckResult(true, NotGiven,
                  if AnyUnfiltered(permissions, profiles, action) then Unrestricted
                  else Combined(Collected(permissions, profiles, action)))
  }

  /** The answer computed without the cache. */
  function Evaluate<C>(
      stored: Option<PermissionSet<C>>, profiles: seq<string>, objectName: string,
        action: Action, defaultDeny: bool): CheckResult<C>
  {
    match stored
    case None => CheckResult(!defaultDeny, if defaultDeny then NoSet else DefaultAllow, Unrestricted)
    case Some(permissions) => Decision(permissions, profiles, objectName, action)
  }

  /** The switch over the four actions. */
  method CheckActionPermission<C>(p: ObjectPermissions<C>, action: Action) returns (allowed: bool)
    ensures allowed == ActionAllowed(p, action)
  {
    if action == Create { return p.allowCreate; }
    if action == Read { return p.allowRead; }
    if action == Update { return p.allowEdit; }
    return p.allowDelete;
  }

  /** The loop over the user's profiles. */
  method Decide<C>(permissions: PermissionSet<C>, profiles: seq<string>, objectName: string, action: Action)
    returns (result: CheckResult<C>)
    ensures result == Decision(permissions, profiles, objectName, action)
  {
    hide ActionAllowed;
    var allowed, hasFullAccess := false, false;
    var collectedFilters := [];
    for i := 0 to |profiles|
      invariant allowed <==> exists j :: 0 <= j < i && Allows(permissions, profiles[j], action)
      invariant hasFullAccess <==>
        exists j :: 0 <= j < i && Allows(permissions, profiles[j], action) && !HasFilters(permissions[profiles[j]])
      invariant collectedFilters == Gathered(permissions, profiles[..i], Allowing(action))
    {
      var profile := profiles[i];
      assert profiles[..i + 1][..i] == profiles[..i];
      if profile in permissions {
        var profilePermissions := permissions[profile];
        var actionAllowed := CheckActionPermission(profilePermissions, action);
        if actionAllowed {
          assert Allows(permissions, profiles[i], action);
          allowed := true;
          if profilePermissions.viewFilters.Some? && |profilePermissions.viewFilters.value| > 0 {
            collectedFilters := collectedFilters + [profilePermissions.viewFilters.value];
          } else {
            hasFullAccess := true;
          }
        }
      }
    }
    assert profiles[..|profiles|] == profiles;
    var finalFilters := Unrestricted;
    if allowed {
      if hasFullAccess {
        finalFilters := Unrestricted;
      } else if |collectedFilters| > 0 {
        finalFilters := if |collectedFilters| == 1 then One(collectedFilters[0]) else AnyOf(collectedFilters);
      }
    }
    result := CheckResult(allowed, if allowed then NotGiven else NoPermission(action, objectName), finalFilters);
  }

  // ---------- what the combined filter accepts ----------

  /** Whether a record meets a filter. */
  type Meets<!C, !R> = (Filters<C>, R) -> bool

  ghost predicate Accepts<C, R>(meets: Meets<C, R>, restriction: Restriction<C>, record: R) {
    match restriction
    case Unrestricted => true
    case One(filters) => meets(filters, record)
    case AnyOf(alternatives) => exists i :: 0 <= i < |alternatives| && meets(alternatives[i], record)
  }

  /** A profile shows a record when it has no filter or the record meets it. */
  ghost predicate Shows<C, R>(meets: Meets<C, R>, p: ObjectPermissions<C>, record: R) {
    HasFilters(p) ==> meets(p.viewFilters.value, record)
  }

  ghost predicate SomeShows<C, R>(
    meets: Meets<C, R>, permissions: PermissionSet<C>, profiles: seq<string>, action: Action, record: R)
  {
    exists i :: 0 <= i < |profiles| && Allows(permissions, profiles[i], action)
      && Shows(meets, permissions[profiles[i]], record)
  }

  ghost predicate SomeGives<C, R>(
      meets: Meets<C, R>, permissions: PermissionSet<C>, profiles: seq<string>,
        keep: ObjectPermissions<C> -> bool, record: R)
  {
    exists i :: 0 <= i < |profiles| && Gives(permissions, profiles[i], keep)
      && meets(permissions[profiles[i]].viewFilters.value, record)
  }

  lemma {:induction false} GatheredHolds<C, R>(
      meets: Meets<C, R>, permissions: PermissionSet<C>, profiles: seq<string>,
        keep: ObjectPermissions<C> -> bool, record: R)
    ensures Accepts(meets, AnyOf(Gathered(permissions, profiles, keep)), record)
        <==> SomeGives(meets, permissions, profiles, keep, record)
    ensures Gathered(permissions, profiles, keep) == []
        <==> forall i :: 0 <= i < |profiles| ==> !Gives(permissions, profiles[i], keep)
  {
    if profiles != [] {
      assert forall q :: Gives(permissions, q, keep) ==> q in permissions && HasFilters(permissions[q]);
      hide HasFilters, Gives;
      var n := |profiles| - 1;
      var (rest, last) := (profiles[..n], profiles[n]);
      GatheredHolds(meets, permissions, rest, keep, record);
      var (before, after) := (Gathered(permissions, rest, keep), Gathered(permissions, profiles, keep));
      if Gives(permissions, last, keep) {
        AcceptsPushed(meets, before, permissions[last].viewFilters.value, record);
        assert Gives(permissions, profiles[n], keep);
      } else {
        assert after == before;
      }
      SomeGivesPushed(meets, permissions, profiles, keep, record);
    }
  }

  lemma AcceptsPushed<C, R>(meets: Meets<C, R>, before: seq<Filters<C>>, filters: Filters<C>, record: R)
    ensures Accepts(meets, AnyOf(before + [filters]), record)
        <==> Accepts(meets, AnyOf(before), record) || meets(filters, record)
  {
    var after := before + [filters];
    assert after[|before|] == filters;
    assert forall i :: 0 <= i < |before| ==> after[i] == before[i];
  }

  lemma SomeGivesPushed<C, R>(
      meets: Meets<C, R>, permissions: PermissionSet<C>, profiles: seq<string>,
        keep: ObjectPermissions<C> -> bool, record: R)
    requires profiles != []
    ensures var n := |profiles| - 1;
      SomeGives(meets, permissions, profiles, keep, record)
      <==> SomeGives(meets, permissions, profiles[..n], keep, record)
           || (Gives(permissions, profiles[n], keep) && meets(permissions[profiles[n]].viewFilters.value, record))
  {
    assert forall q :: Gives(permissions, q, keep) ==> q in permissions && HasFilters(permissions[q]);
    var rest := profiles[..|profiles| - 1];
    assert forall i :: 0 <= i < |rest| ==> rest[i] == profiles[i];
  }

  /**
   Under a stored permission set an action is allowed exactly when some profile allows it, and its filter is their
   union.
   */
  lemma FilterIsUnion<C, R>(
      meets: Meets<C, R>, permissions: PermissionSet<C>, profiles: seq<string>, objectName: string,
        action: Action, deny: bool, record: R)
    ensures var result := Evaluate(Some(permissions), profiles, objectName, action, deny);
      && (result.allowed <==> AnyAllows(permissions, profiles, action))
      && (result.allowed ==> (Accepts(meets, result.filters, record)
           <==> SomeShows(meets, permissions, profiles, action, record)))
  {
    hide ActionAllowed, HasFilters;
    var collected := Collected(permissions, profiles, action);
    GatheredHolds(meets, permissions, profiles, Allowing(action), record);
    hide Gathered;
    if |collected| == 1 { assert Accepts(meets, AnyOf(collected), record) <==> meets(collected[0], record); }
  }

  /** Holding more profiles, in any order, takes nothing away. */
  lemma MoreProfilesShowMore<C, R>(
      meets: Meets<C, R>, permissions: PermissionSet<C>, fewer: seq<string>, more: seq<string>,
        objectName: string, action: Action,
      deny: bool, record: R)
    requires forall p :: p in fewer ==> p in more
    ensures var (a, b) :=
        (Evaluate(Some(permissions), fewer, objectName, action, deny),
         Evaluate(Some(permissions), more, objectName, action, deny));
      && (a.allowed ==> b.allowed)
      && (a.allowed && Accepts(meets, a.filters, record) ==> Accepts(meets, b.filters, record))
  {
    hide ActionAllowed, Shows, Evaluate, Accepts;
    FilterIsUnion(meets, permissions, fewer, objectName, action, deny, record);
    FilterIsUnion(meets, permissions, more, objectName, action, deny, record);
    if AnyAllows(permissions, fewer, action) {
      var i :| 0 <= i < |fewer| && Allows(permissions, fewer[i], action);
      assert fewer[i] in more;
    }
    if SomeShows(meets, permissions, fewer, action, record) {
      var i :| 0 <= i < |fewer| && Allows(permissions, fewer[i], action) && Shows(meets, permissions[fewer[i]], record);
      assert fewer[i] in more;
    }
  }

  /** The order in which a user holds the same profiles makes no difference. */
  lemma OrderDoesNotMatter<C, R>(
      meets: Meets<C, R>, permissions: PermissionSet<C>, one: seq<string>, other: seq<string>,
        objectName: string, action: Action,
      deny: bool, record: R)
    requires forall p :: p in one <==> p in other
    ensures var (a, b) :=
        (Evaluate(Some(permissions), one, objectName, action, deny),
         Evaluate(Some(permissions), other, objectName, action, deny));
      && a.allowed == b.allowed
      && (a.allowed ==> (Accepts(meets, a.filters, record) <==> Accepts(meets, b.filters, record)))
  {
    hide Evaluate, Accepts;
    MoreProfilesShowMore(meets, permissions, one, other, objectName, action, deny, record);
    MoreProfilesShowMore(meets, permissions, other, one, objectName, action, deny, record);
  }

  // ---------- the record filters of a user ----------

  /** `getRecordFilters` before its templates are filled in: filters count whether or not their profile may read. */
  function AllFilters<C>(permissions: PermissionSet<C>, profiles: seq<string>): seq<Filters<C>> {
    Gathered(permissions, profiles, Any())
  }

  function Any<C>(): ObjectPermissions<C> -> bool { p => true }

  function RecordFilters<C>(stored: Option<PermissionSet<C>>, profiles: seq<string>): Restriction<C> {
    match stored
    case None => Unrestricted
    case Some(permissions) =>
      if AnyUnfiltered(permissions, profiles, Read) then Unrestricted else Combined(AllFilters(permissions, profiles))
  }

  /**
   * For a user who may read, the record filters accept what the read check accepts and, on top of it, what meets the
   * filter of a profile that may not read.
   */
  lemma RecordFiltersAcceptMore<C, R>(
      meets: Meets<C, R>, permissions: PermissionSet<C>, profiles: seq<string>, objectName: string,
        deny: bool, record: R)
    requires AnyAllows(permissions, profiles, Read)
    ensures Accepts(meets, RecordFilters(Some(permissions), profiles), record)
      <==> Accepts(meets, Evaluate(Some(permissions), profiles, objectName, Read, deny).filters, record)
           || exists i :: 0 <= i < |profiles| && profiles[i] in permissions && !permissions[profiles[i]].allowRead
                          && HasFilters(permissions[profiles[i]])
                               && meets(permissions[profiles[i]].viewFilters.value, record)
  {
    FilterIsUnion(meets, permissions, profiles, objectName, Read, deny, record);
    GatheredHolds(meets, permissions, profiles, Any(), record);
    var all := AllFilters(permissions, profiles);
    hide Gathered, Evaluate, HasFilters;
    if |all| == 1 { assert Accepts(meets, AnyOf(all), record) <==> meets(all[0], record); }
  }

  /** The loop over the user's profiles that collects their filters, once the stored set is there. */
  method GetRecordFilters<C>(stored: Option<PermissionSet<C>>, profiles: seq<string>) returns (r: Restriction<C>)
    ensures r == RecordFilters(stored, profiles)
  {
    if stored == None { return Unrestricted; }
    var permissions := stored.value;
    var hasFullAccess, collectedFilters := false, [];
    for i := 0 to |profiles|
      invariant hasFullAccess <==>
        exists j :: 0 <= j < i && Allows(permissions, profiles[j], Read) && !HasFilters(permissions[profiles[j]])
      invariant collectedFilters == Gathered(permissions, profiles[..i], Any())
    {
      var profile := profiles[i];
      assert profiles[..i + 1][..i] == profiles[..i];
      if profile in permissions {
        var profilePermissions := permissions[profile];
        if profilePermissions.viewFilters.Some? && |profilePermissions.viewFilters.value| > 0 {
          collectedFilters := collectedFilters + [profilePermissions.viewFilters.value];
        } else if profilePermissions.allowRead {
          assert Allows(permissions, profiles[i], Read);
          hasFullAccess := true;
        }
      }
    }
    assert profiles[..|profiles|] == profiles;
    r := Unrestricted;
    if !hasFullAccess && |collectedFilters| > 0 {
      r := if |collectedFilters| == 1 then One(collectedFilters[0]) else AnyOf(collectedFilters);
    }
  }
}
