/**
 The permission engine as an object. A check is split at its await: `CheckPermission` runs up to the request for the
 permission set, `SetArrives` is the storage's answer, and `Resume` is the rest.
 */
module PermissionEngine {
  import opened Options
  import opened Permissions
  import opened PermissionKeys
  import Model = PermissionCacheModel

  class PermissionEngine<C(==)> {
    var cache: Model.Cache<C>
    const config: Model.Config
    /** The checks at their await, and how many were asked. */
    var pending: seq<Model.Check<C>>
    var asked: nat
    ghost var origins: map<string, Model.Origin>
    ghost var given: seq<Model.Given<C>>

    ghost function View(): Model.State<C>
      reads this
    {
      Model.State(cache, pending, asked, origins, given)
    }

    constructor (config: Model.Config)
      ensures this.config == config && View() == Model.Initial()
    {
      this.config := config;
      cache, pending, asked, origins, given := map[], [], 0, map[], [];
    }

    method GetFromCache(key: string, now: int) returns (result: Option<CheckResult<C>>)
      modifies `cache
      ensures (result, cache) == Model.FromCache(config, old(cache), key, now)
    {
      if key !in cache { return None; }
      var entry := cache[key];
      var ttl := if config.cacheTTL == 0 then 60000 else config.cacheTTL;
      if now - entry.timestamp > ttl {
        cache := cache - {key};
        return None;
      }
      result := Some(entry.result);
    }

    method SetCache(key: string, result: CheckResult<C>, now: int)
      modifies `cache
      ensures cache == Model.WithEntry(config, old(cache), key, result, now)
    {
      if config.enableCache {
        cache := cache[key := Model.CacheEntry(result, now)];
      }
    }

    /** The cached answer, or none while the check waits for the stored set. */
    method CheckPermission(
      userId: string, profiles: seq<string>, objectName: string, action: Action, now: int,
        ghost history: Model.History<C>)
      returns (answer: Option<CheckResult<C>>)
      requires profiles == Model.ProfilesOf(history(now), userId)
      modifies this
      ensures View() == Model.Step(config, history, old(View()), Model.Ask(userId, objectName, action, now))
      ensures answer.Some? ==> |given| == |old(given)| + 1 && given[|given| - 1].result == answer.value
      ensures answer.None? ==> |pending| == |old(pending)| + 1
    {
      hide CacheKey;
      var cacheKey := CacheKey(userId, objectName, action);
      var serial := asked;
      asked := asked + 1;
      answer := None;
      if config.enableCache {
        answer := GetFromCache(cacheKey, now);
      }
      if answer.Some? {
        ghost var origin := if cacheKey in origins then origins[cacheKey] else Model.Origin(serial, now, now, now);
        given := given + [Model.Given(serial, userId, objectName, action, answer.value, now, origin)];
        return;
      }
      pending := pending + [Model.Check(serial, userId, objectName, action, profiles, now, Model.Waiting)];
    }

    method SetArrives(i: nat, stored: Option<PermissionSet<C>>, now: int, ghost history: Model.History<C>)
      requires i < |pending| && pending[i].stage.Waiting?
          && stored == Model.StoredSet(history(now), pending[i].objectName)
      modifies this
      ensures View() == Model.Step(config, history, old(View()), Model.Fetch(i, now))
    {
      pending := pending[i := pending[i].(stage := Model.Fetched(stored, now))];
    }

    /** The storage throws, and the check with it. */
    method SetFails(i: nat, now: int, ghost history: Model.History<C>)
      requires i < |pending| && pending[i].stage.Waiting?
      modifies this
      ensures View() == Model.Step(config, history, old(View()), Model.Fail(i, now))
    {
      pending := pending[..i] + pending[i + 1..];
    }

    method Resume(i: nat, now: int, ghost history: Model.History<C>) returns (result: CheckResult<C>)
      requires i < |pending| && pending[i].stage.Fetched?
      modifies this
      ensures View() == Model.Step(config, history, old(View()), Model.Decide(i, now))
      ensures |given| == |old(given)| + 1 && given[|given| - 1].result == result
    {
      hide Decision, CacheKey;
      var check := pending[i];
      pending := pending[..i] + pending[i + 1..];
      var cacheKey := CacheKey(check.userId, check.objectName, check.action);
      if check.stage.stored == None {
        result := CheckResult(!config.defaultDeny, if config.defaultDeny then NoSet else DefaultAllow, Unrestricted);
      } else {
        result := Decide(check.stage.stored.value, check.profiles, check.objectName, check.action);
      }
      SetCache(cacheKey, result, now);
      ghost var origin := Model.Origin(check.serial, check.asked, check.stage.at, now);
      if config.enableCache { origins := origins[cacheKey := origin]; }
      given := given + [Model.Given(check.serial, check.userId, check.objectName, check.action, result, now, origin)];
    }

    method ClearCache(now: int, ghost history: Model.History<C>)
      modifies this
      ensures View() == Model.Step(config, history, old(View()), Model.ClearAll(now))
    {
      cache := map[];
    }

    /** Collects the user's keys, then deletes them one by one. */
    method ClearUserCache(userId: string, now: int, ghost history: Model.History<C>)
      modifies this
      ensures View() == Model.Step(config, history, old(View()), Model.ClearUser(userId, now))
    {
      hide OfUser;
      var keysToDelete := set k | k in cache && OfUser(k, userId);
      ghost var before := cache;
      while keysToDelete != {}
        invariant View() == old(View()).(cache := cache)
        invariant forall k :: k in keysToDelete ==> k in before && OfUser(k, userId)
        invariant forall k :: k in cache <==> k in before && (!OfUser(k, userId) || k in keysToDelete)
        invariant forall k :: k in cache ==> cache[k] == before[k]
        decreases |keysToDelete|
      {
        var key :| key in keysToDelete;
        cache := cache - {key};
        keysToDelete := keysToDelete - {key};
      }
    }
  }
}
