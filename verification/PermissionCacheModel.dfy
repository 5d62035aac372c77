/**
 The permission engine and its cache as a state machine. A check that is not answered from the cache awaits the
 stored permission set; while it waits anything else may happen: other checks, clears, changes of what is stored.
 */
module PermissionCacheModel {
  import opened Options
  import opened Permissions
  import opened PermissionKeys

  datatype Config = Config(defaultDeny: bool, enableCache: bool, cacheTTL: int)

  /** `cacheTTL || 60000` */
  function TimeToLive(config: Config): int { if config.cacheTTL == 0 then 60000 else config.cacheTTL }

  datatype CacheEntry<C> = CacheEntry(result: CheckResult<C>, timestamp: int)

  type Cache<C> = map<string, CacheEntry<C>>

  /** What is stored: permission sets by object name, profiles by user id. */
  datatype World<C> = World(sets: map<string, PermissionSet<C>>, profiles: map<string, seq<string>>)

  /** What was stored at each moment. */
  type History<!C> = int -> World<C>

  function StoredSet<C>(w: World<C>, objectName: string): Option<PermissionSet<C>> {
    if objectName in w.sets then Some(w.sets[objectName]) else None
  }

  function ProfilesOf<C>(w: World<C>, userId: string): seq<string> {
    if userId in w.profiles then w.profiles[userId] else []
  }

  /** A check waits for its permission set, or has received it and is about to resume. */
  datatype Stage<C> = Waiting | Fetched(stored: Option<PermissionSet<C>>, at: int)

  /** Checks are numbered in the order they are asked. */
  datatype Check<C> = Check(
    serial: nat, userId: string, objectName: string, action: Action, profiles: seq<string>, asked: int, stage: Stage<C>)

  /** The check that computed an answer, and when it was asked, got its permission set, and decided. */
  datatype Origin = Origin(serial: nat, asked: int, fetched: int, decided: int)

  /** An answer given to check number `serial`. */
  datatype Given<C> = Given(
    serial: nat, userId: string, objectName: string, action: Action, result: CheckResult<C>, at: int, origin: Origin)

  datatype State<C> = State(
    cache: Cache<C>, pending: seq<Check<C>>,
    // what has happened: checks asked, the origin of every entry ever made, and the answers given
    asked: nat, origins: map<string, Origin>, given: seq<Given<C>>)

  datatype Event =
    | Ask(userId: string, objectName: string, action: Action, now: int)
    | Fetch(check: nat, now: int)
    | Decide(check: nat, now: int)
    | Fail(check: nat, now: int)
    | ClearUser(user: string, now: int)
    | ClearAll(now: int)

  function Initial<C>(): State<C> { State(map[], [], 0, map[], []) }

  /** The entry under a key, unless it is missing or its time is over; an entry whose time is over is removed. */
  function FromCache<C>(config: Config, cache: Cache<C>, key: string, now: int): (Option<CheckResult<C>>, Cache<C>) {
    if key !in cache then (None, cache)
    else if now - cache[key].timestamp > TimeToLive(config) then (None, cache - {key})
    else (Some(cache[key].result), cache)
  }

  function WithEntry<C>(config: Config, cache: Cache<C>, key: string, result: CheckResult<C>, now: int): Cache<C> {
    if config.enableCache then cache[key := CacheEntry(result, now)] else cache
  }

  function WithoutUser<C>(cache: Cache<C>, userId: string): Cache<C> {
    map k | k in cache && !OfUser(k, userId) :: cache[k]
  }

  /** A check up to its answer from the cache or to the await of the stored set. */
  function AskStep<C>(config: Config, history: History<C>, s: State<C>, e: Event): State<C>
    requires e.Ask?
  {
    var key := CacheKey(e.userId, e.objectName, e.action);
    var (cached, cache) := if config.enableCache then FromCache(config, s.cache, key, e.now) else (None, s.cache);
    var s' := s.(cache := cache, asked := s.asked + 1);
    match cached
    case Some(result) =>
      var origin := if key in s.origins then s.origins[key] else Origin(s.asked, e.now, e.now, e.now);
      s'.(given := s.given + [Given(s.asked, e.userId, e.objectName, e.action, result, e.now, origin)])
    case None =>
      var profiles := ProfilesOf(history(e.now), e.userId);
      s'.(pending := s.pending + [Check(s.asked, e.userId, e.objectName, e.action, profiles, e.now, Waiting)])
  }

  /** The storage answers a waiting check with what is stored now. */
  function FetchStep<C>(history: History<C>, s: State<C>, i: nat, now: int): State<C> {
    if i >= |s.pending| || !s.pending[i].stage.Waiting? then s
    else
      var stored := StoredSet(history(now), s.pending[i].objectName);
      s.(pending := s.pending[i := s.pending[i].(stage := Fetched(stored, now))])
  }

  function Without<T>(s: seq<T>, i: nat): seq<T>
    requires i < |s|
  {
    s[..i] + s[i + 1..]
  }

  /** A check resumes with its permission set: it decides, fills the cache and answers. */
  function DecideStep<C>(config: Config, s: State<C>, i: nat, now: int): State<C> {
    if i >= |s.pending| || !s.pending[i].stage.Fetched? then s
    else
      var c := s.pending[i];
      var key := CacheKey(c.userId, c.objectName, c.action);
      var result := Evaluate(c.stage.stored, c.profiles, c.objectName, c.action, config.defaultDeny);
      var origin := Origin(c.serial, c.asked, c.stage.at, now);
      s.(cache := WithEntry(config, s.cache, key, result, now),
         origins := if config.enableCache then s.origins[key := origin] else s.origins,
         pending := Without(s.pending, i),
         given := s.given + [Given(c.serial, c.userId, c.objectName, c.action, result, now, origin)])
  }

  function Step<C>(config: Config, history: History<C>, s: State<C>, e: Event): State<C> {
    match e
    case Ask(_, _, _, _) => AskStep(config, history, s, e)
    case Fetch(i, now) => FetchStep(history, s, i, now)
    case Decide(i, now) => DecideStep(config, s, i, now)
    case Fail(i, _) =>
      if i < |s.pending| && s.pending[i].stage.Waiting? then s.(pending := Without(s.pending, i)) else s
    case ClearUser(user, _) => s.(cache := WithoutUser(s.cache, user))
    case ClearAll(_) => s.(cache := map[])
  }

  function Run<C>(config: Config, history: History<C>, trace: seq<Event>): State<C> {
    if trace == [] then Initial()
    else Step(config, history, Run(config, history, trace[..|trace| - 1]), trace[|trace| - 1])
  }
}
