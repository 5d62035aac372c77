/** What a loader remembers, and which loads it answers at once, told from the events of the run. */
module DataLoaderCache {
  import opened Options
  import opened DataLoaderModel

  /** Position `i` is the last of the batch that asks for the key and gets a value. */
  ghost predicate LastFound<V>(batch: seq<Load>, results: seq<Option<V>>, key: string, i: nat) {
    && Found(batch, results, key, i)
    && forall j :: i < j < |batch| ==> !Found(batch, results, key, j)
  }

  ghost predicate Found<V>(batch: seq<Load>, results: seq<Option<V>>, key: string, i: nat) {
    i < |batch| && i < |results| && batch[i].key == key && results[i].Some?
  }

  ghost predicate NotFound<V>(batch: seq<Load>, results: seq<Option<V>>, key: string) {
    forall i :: 0 <= i < |batch| ==> !Found(batch, results, key, i)
  }

  /** What a returning batch leaves of a key: the last value found for it, or what was remembered before. */
  ghost predicate Updates<V>(
    batch: seq<Load>, results: seq<Option<V>>, key: string, was: Option<V>, now: Option<V>) {
    && (NotFound(batch, results, key) ==> now == was)
    && forall i: nat :: LastFound(batch, results, key, i) ==> now == results[i]
  }

  ghost function At<V>(cache: map<string, V>, key: string): Option<V> {
    if key in cache then Some(cache[key]) else None
  }

  lemma {:induction false} CacheAllUpdates<V>(
    cache: map<string, V>, batch: seq<Load>, results: seq<Option<V>>, key: string)
    ensures Updates(batch, results, key, At(cache, key), At(CacheAll(cache, batch, results), key))
  {
    if batch != [] {
      CacheAllUpdates(cache, batch[..|batch| - 1], results, key);
      LastPosition(batch, results, key);
      hide LastFound, NotFound;
    }
  }

  /** The last position decides if it finds the key; otherwise those before it do. */
  lemma LastPosition<V>(batch: seq<Load>, results: seq<Option<V>>, key: string)
    requires batch != []
    ensures var (n, before) := (|batch| - 1, batch[..|batch| - 1]);
      if Found(batch, results, key, n) then
        !NotFound(batch, results, key) && forall i: nat :: LastFound(batch, results, key, i) ==> i == n
      else
        && (NotFound(batch, results, key) ==> NotFound(before, results, key))
        && forall i: nat :: LastFound(batch, results, key, i) ==> LastFound(before, results, key, i)
  {
    var (n, before) := (|batch| - 1, batch[..|batch| - 1]);
    forall i | 0 <= i < n ensures Found(batch, results, key, i) <==> Found(before, results, key, i) {}
    forall i: nat | LastFound(batch, results, key, i) ensures i == n || !Found(batch, results, key, n) {}
  }

  /** What an event makes of what is remembered under a key. */
  ghost predicate Remembers<V>(cfg: Config, s: State<V>, e: Event<V>, key: string, was: Option<V>, now: Option<V>) {
    if !cfg.cacheEnabled then e.ClearCache? || now == was
    else match e
      case Prime(k, value) => now == if k == key then Some(value) else was
      case ClearCache => now == None
      case Return(b, results) => if b < |s.inFlight| then Updates(s.inFlight[b], results, key, was, now) else now == was
      case _ => now == was
  }

  /**
   Each event changes what is remembered as it is told to. A load is answered at once, with that value, exactly when
   its key is remembered, and waits at the end of the list otherwise.
   */
  lemma StepRemembers<V>(cfg: Config, s: State<V>, e: Event<V>, key: string)
    ensures Remembers(cfg, s, e, key, At(s.cache, key), At(Step(cfg, s, e).cache, key))
  {
    match e
    case Return(b, results) =>
      if b < |s.inFlight| && cfg.cacheEnabled { CacheAllUpdates(s.cache, s.inFlight[b], results, key); }
      hide CacheAll, SettleAll, Updates;
    case Throw(b) => hide RejectAll;
    case _ =>
  }

  /** Without caching nothing is ever remembered. */
  lemma {:induction false} DisabledIsEmpty<V>(cfg: Config, trace: seq<Event<V>>)
    requires !cfg.cacheEnabled
    ensures Run(cfg, Initial<V>(), trace).cache == map[]
  {
    if trace != [] {
      DisabledIsEmpty(cfg, trace[..|trace| - 1]);
      hide SettleAll, RejectAll;
    }
  }

  /** A load of a remembered key is answered at once; any other waits at the end of the list. */
  lemma LoadMeaning<V>(cfg: Config, trace: seq<Event<V>>, key: string)
    ensures var (s, s') := (Run(cfg, Initial<V>(), trace), Run(cfg, Initial<V>(), trace + [MakeLoad(key)]));
      var ticket := |s.keys|;
      && s'.keys == s.keys + [key] && s'.cache == s.cache
      && match At(s.cache, key)
         case Some(value) => s'.settled == s.settled[ticket := Resolved(Some(value))] && s'.pending == s.pending
         case None => s'.settled == s.settled && s'.pending == s.pending + [Load(ticket, key)]
  {
    assert (trace + [MakeLoad(key)])[..|trace|] == trace;
    if !cfg.cacheEnabled { DisabledIsEmpty(cfg, trace); }
    hide Run;
  }
}
