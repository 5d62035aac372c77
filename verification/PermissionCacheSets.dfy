/** Exactly when a clear makes all later answers rest on permission sets read after it. */
module PermissionCacheSets {
  import opened Permissions
  import opened PermissionKeys
  import opened PermissionCacheModel
  import opened PermissionCacheLaws
  import opened PermissionCacheTheorems

  /** Every answer to the user from position `n` on rests on a permission set read at `t` or later. */
  ghost predicate SetsFrom<C>(s: State<C>, u: string, n: nat, t: int) {
    forall i {:trigger s.given[i]} :: n <= i < |s.given| && s.given[i].userId == u ==> s.given[i].origin.fetched >= t
  }

  /** After the clear, whatever follows, no answer to the user rests on a permission set read before it. */
  ghost predicate ClearRenewsSets<C(!new)>(
    config: Config, history: History<C>, trace: seq<Event>, e: Event, u: string)
  {
    forall more: seq<Event> :: Proper(trace + [e] + more) ==>
      SetsFrom(Run(config, history, trace + [e] + more), u, |Run(config, history, trace).given|, e.now)
  }

  ghost predicate HoldsAt<C>(c: Check<C>, u: string, t: int) { c.userId == u && c.stage.Fetched? && c.stage.at < t }

  /** A suspended check of the user has already received a permission set, and an older one. */
  ghost predicate HoldsOlder<C>(s: State<C>, u: string, t: int) {
    exists i :: 0 <= i < |s.pending| && HoldsAt(s.pending[i], u, t)
  }

  ghost predicate RenewedEntry<C>(s: State<C>, u: string, o: string, a: Action, t: int) {
    var key := CacheKey(u, o, a);
    key in s.cache ==> key in s.origins && s.origins[key].fetched >= t
  }

  ghost predicate Renewed<C(!new)>(s: State<C>, u: string, n: nat, t: int) {
    && n <= |s.given| && SetsFrom(s, u, n, t)
    && (forall i :: 0 <= i < |s.pending| ==> !HoldsAt(s.pending[i], u, t))
    && (forall o: string, a: Action :: RenewedEntry(s, u, o, a, t))
  }

  // ---------- every step keeps it ----------

  lemma RenewedAsk<C(!new)>(
    config: Config, history: History<C>, s: State<C>, e: Event, u: string, n: nat, t: int)
    requires Renewed(s, u, n, t) && e.Ask? && t <= e.now
    ensures Renewed(AskStep(config, history, s, e), u, n, t)
  {
    hide CacheKey, TimeToLive, ProfilesOf;
    var s' := AskStep(config, history, s, e);
    assert e.userId == u ==> RenewedEntry(s, u, e.objectName, e.action, t);
    forall o: string, a: Action ensures RenewedEntry(s', u, o, a, t) { assert RenewedEntry(s, u, o, a, t); }
  }

  lemma RenewedDecide<C(!new)>(
    config: Config, s: State<C>, i: nat, now: int, u: string, n: nat, t: int)
    requires Renewed(s, u, n, t) && ':' !in u && forall k :: 0 <= k < |s.pending| ==> ':' !in s.pending[k].userId
    ensures Renewed(DecideStep(config, s, i, now), u, n, t)
  {
    hide CacheKey, TimeToLive, Evaluate;
    var s' := DecideStep(config, s, i, now);
    if i < |s.pending| && s.pending[i].stage.Fetched? {
      var c := s.pending[i];
      assert !HoldsAt(c, u, t);
      forall o: string, a: Action ensures RenewedEntry(s', u, o, a, t) {
        assert RenewedEntry(s, u, o, a, t);
        if CacheKey(u, o, a) == CacheKey(c.userId, c.objectName, c.action) {
          KeysAreDistinct(u, o, a, c.userId, c.objectName, c.action);
        }
      }
      forall k | 0 <= k < |s'.pending| ensures !HoldsAt(s'.pending[k], u, t) {
        assert s'.pending[k] == s.pending[if k < i then k else k + 1];
      }
    }
  }

  lemma RenewedRest<C(!new)>(
    config: Config, history: History<C>, s: State<C>, e: Event, u: string, n: nat, t: int)
    requires Renewed(s, u, n, t) && !e.Ask? && !e.Decide? && t <= e.now
    ensures Renewed(Step(config, history, s, e), u, n, t)
  {
    hide CacheKey, StoredSet, OfUser;
    var s' := Step(config, history, s, e);
    forall o: string, a: Action ensures RenewedEntry(s', u, o, a, t) { assert RenewedEntry(s, u, o, a, t); }
    forall k | 0 <= k < |s'.pending| ensures !HoldsAt(s'.pending[k], u, t) {
      assert !HoldsAt(s.pending[if e.Fail? && s' != s && k >= e.check then k + 1 else k], u, t);
    }
  }

  lemma RenewedStep<C(!new)>(
    config: Config, history: History<C>, s: State<C>, e: Event, u: string, n: nat, t: int)
    requires Renewed(s, u, n, t) && t <= e.now && ':' !in u
    requires forall k :: 0 <= k < |s.pending| ==> ':' !in s.pending[k].userId
    ensures Renewed(Step(config, history, s, e), u, n, t)
  {
    hide Renewed, AskStep, DecideStep;
    match e
    case Ask(_, _, _, _) => RenewedAsk(config, history, s, e, u, n, t);
    case Decide(i, now) => RenewedDecide(config, s, i, now, u, n, t);
    case _ => RenewedRest(config, history, s, e, u, n, t);
  }

  lemma PendingIds<C(!new)>(config: Config, history: History<C>, trace: seq<Event>, now: int)
    requires Proper(trace) && NotAfter(trace, now)
    ensures var s := Run(config, history, trace); forall k :: 0 <= k < |s.pending| ==> ':' !in s.pending[k].userId
  {
    hide Run, Proper, Within, EntryOk, GivenOk;
    var longest := Longest(config, history, trace);
    WithinLongest(config, history, trace);
    AlwaysSound(config, history, trace, longest, now);
    var s := Run(config, history, trace);
    forall k | 0 <= k < |s.pending| ensures ':' !in s.pending[k].userId {
      assert CheckOk(config, history, s, s.pending[k], now);
    }
  }

  lemma {:induction false} RenewedForever<C(!new)>(
    config: Config, history: History<C>, trace: seq<Event>, m: nat, u: string, n: nat, t: int)
    requires Proper(trace) && 0 < m <= |trace| && ':' !in u && t <= trace[m - 1].now
    requires Renewed(Run(config, history, trace[..m]), u, n, t)
    ensures Renewed(Run(config, history, trace), u, n, t)
    decreases |trace|
  {
    hide Renewed, Step;
    if m == |trace| {
      assert trace[..m] == trace;
    } else {
      var k := |trace| - 1;
      PrefixKeeps(trace, m);
      ProperPrefix(trace);
      hide Proper;
      RenewedForever(config, history, trace[..k], m, u, n, t);
      PendingIds(config, history, trace[..k], trace[k].now);
      RenewedStep(config, history, Run(config, history, trace[..k]), trace[k], u, n, t);
    }
  }

  // ---------- both directions ----------

  lemma RenewedStart<C(!new)>(config: Config, history: History<C>, s: State<C>, e: Event, u: string)
    requires Clears(e, u) && ':' !in u && !HoldsOlder(s, u, e.now)
    ensures Renewed(Step(config, history, s, e), u, |s.given|, e.now)
  {
    hide CacheKey, OfUser;
    var s' := Step(config, history, s, e);
    forall o: string, a: Action ensures CacheKey(u, o, a) !in s'.cache { PrefixIsUser(u, o, a, u); }
  }

  /** The check decides by the set it holds. */
  lemma HeldSetAnswers<C>(config: Config, history: History<C>, s: State<C>, e: Event, u: string, i: nat)
    requires Clears(e, u) && i < |s.pending| && HoldsAt(s.pending[i], u, e.now)
    ensures !SetsFrom(Step(config, history, Step(config, history, s, e), Decide(i, e.now)), u, |s.given|, e.now)
  {
    hide CacheKey, OfUser, Evaluate;
    var s0 := Step(config, history, s, e);
    assert s0.pending == s.pending && s0.given == s.given;
    var s1 := DecideStep(config, s0, i, e.now);
    assert s1.given[|s.given|].origin.fetched == s.pending[i].stage.at;
  }

  /**
   After clearing a user, or everything, all answers to the user rest on permission sets read from then on exactly when
   no suspended check of the user already holds an older one.
   */
  lemma ClearRenewsSetsIff<C(!new)>(config: Config, history: History<C>, trace: seq<Event>, e: Event, u: string)
    requires Proper(trace + [e]) && Clears(e, u) && ':' !in u
    ensures ClearRenewsSets(config, history, trace, e, u) <==> !HoldsOlder(Run(config, history, trace), u, e.now)
  {
    hide Step, SetsFrom, Run, HoldsAt;
    var s := Run(config, history, trace);
    RunSnoc(config, history, trace, e);
    if !HoldsOlder(s, u, e.now) {
      RenewedStart(config, history, s, e, u);
      forall more: seq<Event> | Proper(trace + [e] + more)
        ensures SetsFrom(Run(config, history, trace + [e] + more), u, |s.given|, e.now)
      {
        var all := trace + [e] + more;
        assert all[..|trace| + 1] == trace + [e] && all[|trace|] == e;
        RenewedForever(config, history, all, |trace| + 1, u, |s.given|, e.now);
      }
    } else {
      var i :| 0 <= i < |s.pending| && HoldsAt(s.pending[i], u, e.now);
      HeldSetAnswers(config, history, s, e, u, i);
      RunSnoc(config, history, trace + [e], Decide(i, e.now));
      ProperMore(trace + [e], [Decide(i, e.now)], e.now);
      assert !SetsFrom(Run(config, history, trace + [e] + [Decide(i, e.now)]), u, |s.given|, e.now);
    }
  }
}
