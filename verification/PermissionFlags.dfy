/** The permission decision on the fields of the stored profiles: which flag decides which action, and what is shown. */
module PermissionFlags {
  import opened Options
  import opened Permissions

  type Flag<!C> = ObjectPermissions<C> -> bool

  function HasCreate<C>(): Flag<C> { (p: ObjectPermissions<C>) => p.allowCreate }

  function HasRead<C>(): Flag<C> { (p: ObjectPermissions<C>) => p.allowRead }

  function HasEdit<C>(): Flag<C> { (p: ObjectPermissions<C>) => p.allowEdit }

  function HasDelete<C>(): Flag<C> { (p: ObjectPermissions<C>) => p.allowDelete }

  /** Some profile of the user is stored and has the flag. */
  ghost predicate SomeHas<C>(permissions: PermissionSet<C>, profiles: seq<string>, flag: Flag<C>) {
    exists p :: p in profiles && p in permissions && flag(permissions[p])
  }

  /** Create is decided by `allowCreate`, read by `allowRead`, update by `allowEdit`, and delete by `allowDelete`. */
  lemma AllowedByFlags<C>(permissions: PermissionSet<C>, profiles: seq<string>, objectName: string, deny: bool)
    ensures Evaluate(Some(permissions), profiles, objectName, Create, deny).allowed
      <==> SomeHas(permissions, profiles, HasCreate())
    ensures Evaluate(Some(permissions), profiles, objectName, Read, deny).allowed
      <==> SomeHas(permissions, profiles, HasRead())
    ensures Evaluate(Some(permissions), profiles, objectName, Update, deny).allowed
      <==> SomeHas(permissions, profiles, HasEdit())
    ensures Evaluate(Some(permissions), profiles, objectName, Delete, deny).allowed
      <==> SomeHas(permissions, profiles, HasDelete())
  {
    AnyHas(permissions, profiles, Create, HasCreate());
    AnyHas(permissions, profiles, Read, HasRead());
    AnyHas(permissions, profiles, Update, HasEdit());
    AnyHas(permissions, profiles, Delete, HasDelete());
  }

  lemma AnyHas<C>(permissions: PermissionSet<C>, profiles: seq<string>, action: Action, flag: Flag<C>)
    requires forall p: ObjectPermissions<C> :: flag(p) == ActionAllowed(p, action)
    ensures AnyAllows(permissions, profiles, action) <==> SomeHas(permissions, profiles, flag)
  {
    hide ActionAllowed;
    if AnyAllows(permissions, profiles, action) {
      var i :| 0 <= i < |profiles| && Allows(permissions, profiles[i], action);
      assert profiles[i] in profiles && flag(permissions[profiles[i]]);
    }
    if SomeHas(permissions, profiles, flag) {
      var p :| p in profiles && p in permissions && flag(permissions[p]);
      var i :| 0 <= i < |profiles| && profiles[i] == p;
      assert Allows(permissions, profiles[i], action);
    }
  }

  /** A profile has the flag and shows the record: it has no filter, an empty one, or one the record meets. */
  ghost predicate SomeShowsBy<C, R>(
    meets: Meets<C, R>, permissions: PermissionSet<C>, profiles: seq<string>, flag: Flag<C>, record: R)
  {
    exists p :: p in profiles && p in permissions && flag(permissions[p]) && match permissions[p].viewFilters
      case None => true
      case Some(filters) => filters == map[] || meets(filters, record)
  }

  /** A user who may act sees exactly the records some profile with the flag of the action shows. */
  lemma ShownByFlags<C, R>(
    meets: Meets<C, R>, permissions: PermissionSet<C>, profiles: seq<string>, objectName: string, deny: bool, record: R)
    ensures var result := Evaluate(Some(permissions), profiles, objectName, Create, deny);
      result.allowed ==> (Accepts(meets, result.filters, record)
        <==> SomeShowsBy(meets, permissions, profiles, HasCreate(), record))
    ensures var result := Evaluate(Some(permissions), profiles, objectName, Read, deny);
      result.allowed ==> (Accepts(meets, result.filters, record)
        <==> SomeShowsBy(meets, permissions, profiles, HasRead(), record))
    ensures var result := Evaluate(Some(permissions), profiles, objectName, Update, deny);
      result.allowed ==> (Accepts(meets, result.filters, record)
        <==> SomeShowsBy(meets, permissions, profiles, HasEdit(), record))
    ensures var result := Evaluate(Some(permissions), profiles, objectName, Delete, deny);
      result.allowed ==> (Accepts(meets, result.filters, record)
        <==> SomeShowsBy(meets, permissions, profiles, HasDelete(), record))
  {
    hide Accepts, Evaluate;
    ShownBy(meets, permissions, profiles, objectName, Create, deny, record, HasCreate());
    ShownBy(meets, permissions, profiles, objectName, Read, deny, record, HasRead());
    ShownBy(meets, permissions, profiles, objectName, Update, deny, record, HasEdit());
    ShownBy(meets, permissions, profiles, objectName, Delete, deny, record, HasDelete());
  }

  lemma ShownBy<C, R>(
    meets: Meets<C, R>, permissions: PermissionSet<C>, profiles: seq<string>, objectName: string, action: Action,
    deny: bool, record: R, flag: Flag<C>)
    requires forall p: ObjectPermissions<C> :: flag(p) == ActionAllowed(p, action)
    ensures var result := Evaluate(Some(permissions), profiles, objectName, action, deny);
      result.allowed ==>
        (Accepts(meets, result.filters, record) <==> SomeShowsBy(meets, permissions, profiles, flag, record))
  {
    hide ActionAllowed, Accepts, Evaluate;
    FilterIsUnion(meets, permissions, profiles, objectName, action, deny, record);
    if SomeShows(meets, permissions, profiles, action, record) {
      var i :| 0 <= i < |profiles| && Allows(permissions, profiles[i], action)
        && Shows(meets, permissions[profiles[i]], record);
      assert profiles[i] in profiles && flag(permissions[profiles[i]]);
    }
    if SomeShowsBy(meets, permissions, profiles, flag, record) {
      var p :| p in profiles && p in permissions && flag(permissions[p]) && match permissions[p].viewFilters
        case None => true
        case Some(filters) => filters == map[] || meets(filters, record);
      var i :| 0 <= i < |profiles| && profiles[i] == p;
      assert Allows(permissions, profiles[i], action) && Shows(meets, permissions[profiles[i]], record);
    }
  }

  /** Without a stored set the default decides, and nothing is filtered; a reason is given for refusals and defaults. */
  lemma DefaultsAndReasons<C>(
    stored: Option<PermissionSet<C>>, profiles: seq<string>, objectName: string, action: Action, deny: bool)
    ensures var result := Evaluate(stored, profiles, objectName, action, deny);
      && (stored == None ==> result.allowed != deny && result.filters == Unrestricted)
      && (!result.allowed ==> result.filters == Unrestricted)
      && result.reason == (if stored == None then (if result.allowed then DefaultAllow else NoSet)
                           else if result.allowed then NotGiven else NoPermission(action, objectName))
  {
    hide ActionAllowed;
  }

  // ---------- record filters ----------

  ghost predicate Free<C>(p: ObjectPermissions<C>) { p.viewFilters == None || p.viewFilters == Some(map[]) }

  /** Some listed profile may read and has no filter. */
  ghost predicate SomeReadsFreely<C>(permissions: PermissionSet<C>, profiles: seq<string>) {
    exists p :: p in profiles && p in permissions && permissions[p].allowRead && Free(permissions[p])
  }

  /** Some listed profile, whatever it may do, has a filter that the record meets. */
  ghost predicate SomeFilterMet<C, R>(
    meets: Meets<C, R>, permissions: PermissionSet<C>, profiles: seq<string>, record: R)
  {
    exists p :: p in profiles && p in permissions && !Free(permissions[p])
      && meets(permissions[p].viewFilters.value, record)
  }

  ghost predicate NoFilters<C>(permissions: PermissionSet<C>, profiles: seq<string>) {
    forall p :: p in profiles && p in permissions ==> Free(permissions[p])
  }

  lemma UnfilteredIs<C>(permissions: PermissionSet<C>, profiles: seq<string>)
    ensures AnyUnfiltered(permissions, profiles, Read) <==> SomeReadsFreely(permissions, profiles)
  {
    if AnyUnfiltered(permissions, profiles, Read) {
      var i :| 0 <= i < |profiles|
        && Allows(permissions, profiles[i], Read) && !HasFilters(permissions[profiles[i]]);
      assert profiles[i] in profiles;
    }
    if SomeReadsFreely(permissions, profiles) {
      var p :| p in profiles && p in permissions && permissions[p].allowRead && Free(permissions[p]);
      var i :| 0 <= i < |profiles| && profiles[i] == p;
      assert Allows(permissions, profiles[i], Read) && !HasFilters(permissions[profiles[i]]);
    }
  }

  lemma GivenIs<C, R>(meets: Meets<C, R>, permissions: PermissionSet<C>, profiles: seq<string>, record: R)
    ensures SomeGives(meets, permissions, profiles, Any(), record)
      <==> SomeFilterMet(meets, permissions, profiles, record)
    ensures (forall i :: 0 <= i < |profiles| ==> !Gives(permissions, profiles[i], Any()))
      <==> NoFilters(permissions, profiles)
  {
    forall p: string ensures Gives(permissions, p, Any()) <==> p in permissions && !Free(permissions[p]) {}
    hide Gives;
    if SomeGives(meets, permissions, profiles, Any(), record) {
      var i :| 0 <= i < |profiles| && Gives(permissions, profiles[i], Any())
        && meets(permissions[profiles[i]].viewFilters.value, record);
      assert profiles[i] in profiles;
    }
    forall p | p in profiles ensures exists i :: 0 <= i < |profiles| && profiles[i] == p {}
  }

  /**
   The record filters of any user, reader or not: without a stored set nothing is filtered; otherwise a record is
   accepted when a listed profile reads freely, when it meets the filter of a listed profile, or when none has a filter.
   */
  lemma RecordFiltersMeaning<C, R>(
    meets: Meets<C, R>, permissions: PermissionSet<C>, profiles: seq<string>, record: R)
    ensures RecordFilters<C>(None, profiles) == Unrestricted
    ensures Accepts(meets, RecordFilters(Some(permissions), profiles), record) <==>
      (SomeReadsFreely(permissions, profiles) || SomeFilterMet(meets, permissions, profiles, record) ||
       NoFilters(permissions, profiles))
  {
    UnfilteredIs(permissions, profiles);
    GivenIs(meets, permissions, profiles, record);
    GatheredHolds(meets, permissions, profiles, Any(), record);
    var all := AllFilters(permissions, profiles);
    hide Gathered, SomeGives, AnyUnfiltered, SomeReadsFreely, SomeFilterMet, NoFilters, Gives;
    if |all| == 1 { assert Accepts(meets, AnyOf(all), record) <==> meets(all[0], record); }
  }
}
