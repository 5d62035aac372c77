/**
 The abstract LRU cache: one sequence of entries, most recently used first.
 `LruCache` shows that the map-plus-linked-list implementation behaves exactly like it.
 */
module LruSpec {
  import opened Options

  datatype Entry<V> = Entry(
    key: string, value: V, expiresAt: Option<int>,
    createdAt: int, accessedAt: int, accessCount: nat)

  /** `defaultTtl` and time-to-live arguments are in seconds, clock readings in milliseconds. */
  datatype Config = Config(maxSize: int, defaultTtl: Option<int>) {
    /** A size below one still lets one entry in: eviction of an empty cache does nothing. */
    function Capacity(): nat { if maxSize < 1 then 1 else maxSize }
  }

  datatype Cache<V> = Cache(entries: seq<Entry<V>>, hits: nat, misses: nat, evictions: nat)

  function Empty<V>(): Cache<V> { Cache([], 0, 0, 0) }

  function Lookup<V>(s: seq<Entry<V>>, key: string): Option<Entry<V>> {
    if s == [] then None else if s[0].key == key then Some(s[0]) else Lookup(s[1..], key)
  }

  function Without<V>(s: seq<Entry<V>>, key: string): seq<Entry<V>> {
    if s == [] then [] else if s[0].key == key then Without(s[1..], key) else [s[0]] + Without(s[1..], key)
  }

  /** An expiry of zero counts as none, as does an expiry equal to the current time. */
  predicate Expired<V>(e: Entry<V>, now: int) {
    e.expiresAt.Some? && e.expiresAt.value != 0 && e.expiresAt.value < now
  }

  function Alive<V>(s: seq<Entry<V>>, now: int): seq<Entry<V>> {
    if s == [] then [] else if Expired(s[0], now) then Alive(s[1..], now) else [s[0]] + Alive(s[1..], now)
  }

  /** A time-to-live of zero, given or by default, means no expiry. */
  function ExpiryFor(cfg: Config, ttl: Option<int>, now: int): Option<int> {
    var effective := if ttl.Some? then ttl else cfg.defaultTtl;
    if effective.Some? && effective.value != 0 then Some(now + effective.value * 1000) else None
  }

  function Get<V>(c: Cache<V>, key: string, now: int): (Cache<V>, Option<V>) {
    match Lookup(c.entries, key)
    case None => (c.(misses := c.misses + 1), None)
    case Some(e) =>
      var rest := Without(c.entries, key);
      if Expired(e, now) then (c.(entries := rest, misses := c.misses + 1), None)
      else (c.(entries := [e.(accessedAt := now, accessCount := e.accessCount + 1)] + rest, hits := c.hits + 1),
            Some(e.value))
  }

  function EvictLru<V>(c: Cache<V>): Cache<V> {
    if c.entries == [] then c
    else c.(entries := c.entries[..|c.entries| - 1], evictions := c.evictions + 1)
  }

  function Set<V>(cfg: Config, c: Cache<V>, key: string, value: V, ttl: Option<int>, now: int): Cache<V> {
    var expiry := ExpiryFor(cfg, ttl, now);
    match Lookup(c.entries, key)
    case Some(e) =>
      var updated := e.(value := value, accessedAt := now, accessCount := e.accessCount + 1, expiresAt := expiry);
      c.(entries := [updated] + Without(c.entries, key))
    case None =>
      var room := if |c.entries| >= cfg.maxSize then EvictLru(c) else c;
      room.(entries := [Entry(key, value, expiry, now, now, 1)] + room.entries)
  }

  function Delete<V>(c: Cache<V>, key: string): (Cache<V>, bool) {
    (c.(entries := Without(c.entries, key)), Lookup(c.entries, key).Some?)
  }

  function Has<V>(c: Cache<V>, key: string, now: int): (Cache<V>, bool) {
    match Lookup(c.entries, key)
    case None => (c, false)
    case Some(e) =>
      if Expired(e, now) then (c.(entries := Without(c.entries, key)), false) else (c, true)
  }

  function CleanExpired<V>(c: Cache<V>, now: int): Cache<V> {
    c.(entries := Alive(c.entries, now))
  }

  // ---------- runs ----------

  datatype Op<V> =
    | GetOp(key: string)
    | SetOp(key: string, value: V, ttl: Option<int>)
    | DeleteOp(key: string)
    | HasOp(key: string)
    | CleanOp
    | ClearOp

  datatype Call<V> = Call(op: Op<V>, now: int)

  datatype Answer<V> = Found(value: Option<V>) | Flag(b: bool) | Done

  function Step<V>(cfg: Config, c: Cache<V>, call: Call<V>): (Cache<V>, Answer<V>) {
    match call.op
    case GetOp(k) => var (c', v) := Get(c, k, call.now); (c', Found(v))
    case SetOp(k, v, ttl) => (Set(cfg, c, k, v, ttl, call.now), Done)
    case DeleteOp(k) => var (c', b) := Delete(c, k); (c', Flag(b))
    case HasOp(k) => var (c', b) := Has(c, k, call.now); (c', Flag(b))
    case CleanOp => (CleanExpired(c, call.now), Done)
    case ClearOp => (Empty(), Done)
  }

  /** The state after all calls of a trace, starting from a fresh cache. */
  function Run<V>(cfg: Config, trace: seq<Call<V>>): Cache<V> {
    if trace == [] then Empty() else Step(cfg, Run(cfg, trace[..|trace| - 1]), trace[|trace| - 1]).0
  }

  /** What call number `i` of a trace answers. */
  function AnswerAt<V>(cfg: Config, trace: seq<Call<V>>, i: nat): Answer<V>
    requires i < |trace|
  {
    Step(cfg, Run(cfg, trace[..i]), trace[i]).1
  }

  // ---------- basic facts ----------

  ghost predicate Distinct<V>(s: seq<Entry<V>>) {
    forall i, j :: 0 <= i < j < |s| ==> s[i].key != s[j].key
  }

  lemma {:induction false} LookupFacts<V>(s: seq<Entry<V>>, key: string)
    ensures Lookup(s, key).Some? <==> exists i :: 0 <= i < |s| && s[i].key == key
    ensures Lookup(s, key).Some? ==> Lookup(s, key).value.key == key && Lookup(s, key).value in s
  {
    if s != [] {
      LookupFacts(s[1..], key);
      if s[0].key != key && exists i :: 0 <= i < |s| && s[i].key == key {
        var i :| 0 <= i < |s| && s[i].key == key;
        assert s[1..][i - 1].key == key;
      }
    }
  }

  lemma DistinctTail<V>(s: seq<Entry<V>>, t: seq<Entry<V>>)
    requires s != [] && Distinct(s) && Distinct(t)
    requires forall e :: e in t ==> e in s[1..]
    ensures Distinct([s[0]] + t)
  {
    forall j | 0 <= j < |t| ensures t[j].key != s[0].key {
      assert t[j] in s[1..];
      var m :| 0 <= m < |s[1..]| && s[1..][m] == t[j];
      assert s[m + 1].key != s[0].key;
    }
  }

  lemma {:induction false} WithoutFacts<V>(s: seq<Entry<V>>, key: string)
    ensures forall e {:trigger e in Without(s, key)} :: e in Without(s, key) ==> e in s && e.key != key
    ensures forall e {:trigger e in s} :: e in s && e.key != key ==> e in Without(s, key)
    ensures Lookup(Without(s, key), key) == None
    ensures Lookup(s, key) == None ==> Without(s, key) == s
    ensures |Without(s, key)| <= |s|
    ensures Distinct(s) ==> Distinct(Without(s, key))
    ensures Distinct(s) ==> |Without(s, key)| == |s| - (if Lookup(s, key).Some? then 1 else 0)
  {
    if s != [] {
      assert s == [s[0]] + s[1..];
      WithoutFacts(s[1..], key);
      var t := Without(s[1..], key);
      if Distinct(s) {
        DistinctTail(s, t);
        if s[0].key == key {
          LookupFacts(s[1..], key);
          assert Lookup(s[1..], key) == None;
        }
      }
    }
  }

  /** At the position of a key, removal by key is removal by position. */
  lemma {:induction false} WithoutAt<V>(s: seq<Entry<V>>, i: nat)
    requires i < |s| && Distinct(s)
    ensures Lookup(s, s[i].key) == Some(s[i])
    ensures Without(s, s[i].key) == s[..i] + s[i + 1..]
  {
    if i == 0 {
      LookupFacts(s[1..], s[0].key);
      WithoutFacts(s[1..], s[0].key);
    } else {
      assert s[1..][i - 1] == s[i];
      WithoutAt(s[1..], i - 1);
      assert s[..i] + s[i + 1..] == [s[0]] + (s[1..][..i - 1] + s[1..][i..]);
    }
  }

  lemma {:induction false} AliveFacts<V>(s: seq<Entry<V>>, now: int)
    ensures forall e {:trigger e in Alive(s, now)} :: e in Alive(s, now) ==> e in s && !Expired(e, now)
    ensures forall e {:trigger e in s} :: e in s && !Expired(e, now) ==> e in Alive(s, now)
    ensures |Alive(s, now)| <= |s|
    ensures Distinct(s) ==> Distinct(Alive(s, now))
  {
    if s != [] {
      assert s == [s[0]] + s[1..];
      AliveFacts(s[1..], now);
      if Distinct(s) {
        DistinctTail(s, Alive(s[1..], now));
      }
    }
  }

  /** Forgetting one expired entry does not change what is alive. */
  lemma {:induction false} AliveForgets<V>(s: seq<Entry<V>>, key: string, now: int)
    requires Distinct(s) && Lookup(s, key).Some? && Expired(Lookup(s, key).value, now)
    ensures Alive(Without(s, key), now) == Alive(s, now)
  {
    if s[0].key == key {
      LookupFacts(s[1..], key);
      WithoutFacts(s[1..], key);
    } else {
      AliveForgets(s[1..], key, now);
      assert Without(s, key)[1..] == Without(s[1..], key);
    }
  }

  lemma {:induction false} AliveAll<V>(s: seq<Entry<V>>, now: int)
    requires forall e :: e in s ==> !Expired(e, now)
    ensures Alive(s, now) == s
  {
    if s != [] {
      assert s == [s[0]] + s[1..];
      AliveAll(s[1..], now);
    }
  }

  lemma PushDistinct<V>(e: Entry<V>, s: seq<Entry<V>>)
    requires Distinct(s)
    requires Lookup(s, e.key) == None
    ensures Distinct([e] + s)
  {
    LookupFacts(s, e.key);
  }

  // ---------- what every call keeps ----------

  ghost predicate WellFormed<V>(cfg: Config, c: Cache<V>) {
    Distinct(c.entries) && |c.entries| <= cfg.Capacity()
  }

  lemma {:induction false} StepKeeps<V>(cfg: Config, c: Cache<V>, call: Call<V>)
    requires WellFormed(cfg, c)
    ensures WellFormed(cfg, Step(cfg, c, call).0)
  {
    match call.op
    case CleanOp => AliveFacts(c.entries, call.now);
    case ClearOp =>
    case SetOp(k, v, ttl) => SetKeeps(cfg, c, k, v, ttl, call.now);
    case _ =>
      WithoutFacts(c.entries, call.op.key);
      LookupFacts(c.entries, call.op.key);
      if Lookup(c.entries, call.op.key).Some? {
        var e := Lookup(c.entries, call.op.key).value;
        PushDistinct(e.(accessedAt := call.now, accessCount := e.accessCount + 1), Without(c.entries, call.op.key));
      }
  }

  lemma SetKeeps<V>(cfg: Config, c: Cache<V>, key: string, value: V, ttl: Option<int>, now: int)
    requires WellFormed(cfg, c)
    ensures WellFormed(cfg, Set(cfg, c, key, value, ttl, now))
  {
    LookupFacts(c.entries, key);
    WithoutFacts(c.entries, key);
    var c' := Set(cfg, c, key, value, ttl, now);
    if Lookup(c.entries, key).Some? {
      PushDistinct(c'.entries[0], Without(c.entries, key));
    } else {
      LookupFacts(c'.entries[1..], key);
      PushDistinct(c'.entries[0], c'.entries[1..]);
    }
  }

  // ---------- how long an entry lives ----------

  /**
   The time to live in seconds a set gives an entry: its own if there is one, the default otherwise, none if it is
   zero.
   */
  function Lifetime(cfg: Config, ttl: Option<int>): Option<int> {
    match ttl
    case Some(seconds) => if seconds == 0 then None else Some(seconds)
    case None => if cfg.defaultTtl == Some(0) then None else cfg.defaultTtl
  }

  /**
   A value that was set is found up to and including the last millisecond of its lifetime, for ever without one; an
   expiry at time zero counts as none.
   */
  lemma SetThenGet<V>(cfg: Config, c: Cache<V>, key: string, value: V, ttl: Option<int>, at: int, now: int)
    ensures var c' := Set(cfg, c, key, value, ttl, at);
      var found := Lifetime(cfg, ttl).None? || at + 1000 * Lifetime(cfg, ttl).value == 0
        || now <= at + 1000 * Lifetime(cfg, ttl).value;
      Get(c', key, now).1 == (if found then Some(value) else None) && Has(c', key, now).1 == found
  {
    LookupFacts(c.entries, key);
    var s := Set(cfg, c, key, value, ttl, at).entries;
    assert s[0].key == key && Lookup(s, key) == Some(s[0]);
  }

  /** Setting one key in a cache with room neither loses nor changes what is found under another. */
  lemma SetKeepsOthers<V>(
    cfg: Config, c: Cache<V>, key: string, value: V, ttl: Option<int>, at: int, other: string, now: int)
    requires other != key && (Lookup(c.entries, key).Some? || |c.entries| < cfg.maxSize)
    ensures Get(Set(cfg, c, key, value, ttl, at), other, now).1 == Get(c, other, now).1
  {
    LookupFacts(c.entries, key);
    LookupWithout(c.entries, key, other);
    var s := Set(cfg, c, key, value, ttl, at).entries;
    assert s[1..] == (if Lookup(c.entries, key).Some? then Without(c.entries, key) else c.entries);
    assert Lookup(s, other) == Lookup(s[1..], other);
  }

  lemma {:induction false} LookupWithout<V>(s: seq<Entry<V>>, key: string, other: string)
    requires other != key
    ensures Lookup(Without(s, key), other) == Lookup(s, other)
  {
    if s != [] { LookupWithout(s[1..], key, other); }
  }
}
