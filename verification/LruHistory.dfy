/** What a key holds, told from the calls alone: the value of its last set, unless that was undone or has expired. */
module LruHistory {
  import opened Options
  import opened LruSpec
  import opened LruRecency

  /** The last set of the key that no later delete of the key and no later clear undoes. */
  ghost function LastSet<V>(trace: seq<Call<V>>, key: string): Option<Call<V>> {
    if trace == [] then None
    else
      var last := trace[|trace| - 1];
      match last.op
      case SetOp(k, _, _) => if k == key then Some(last) else LastSet(trace[..|trace| - 1], key)
      case DeleteOp(k) => if k == key then None else LastSet(trace[..|trace| - 1], key)
      case ClearOp => None
      case _ => LastSet(trace[..|trace| - 1], key)
  }

  lemma {:induction false} LastSetSets<V>(trace: seq<Call<V>>, key: string)
    ensures LastSet(trace, key).Some? ==> LastSet(trace, key).value.op.SetOp? && LastSet(trace, key).value.op.key == key
  {
    if trace != [] { LastSetSets(trace[..|trace| - 1], key); }
  }

  /** The lifetime of the set reaches the moment: for ever without one, or when it ends at time zero. */
  ghost predicate Reaches<V>(cfg: Config, call: Call<V>, now: int)
    requires call.op.SetOp?
  {
    var life := Lifetime(cfg, call.op.ttl);
    life.None? || call.now + 1000 * life.value == 0 || now <= call.now + 1000 * life.value
  }

  /** The entry holds what the call set. */
  ghost predicate Holds<V>(cfg: Config, e: Entry<V>, call: Call<V>) {
    && call.op.SetOp? && call.op.key == e.key && e.value == call.op.value
    && e.expiresAt == ExpiryFor(cfg, call.op.ttl, call.now)
  }

  ghost predicate Told<V>(cfg: Config, trace: seq<Call<V>>, s: seq<Entry<V>>) {
    forall e :: e in s ==> LastSet(trace, e.key).Some? && Holds(cfg, e, LastSet(trace, e.key).value)
  }

  lemma HoldsExpires<V>(cfg: Config, e: Entry<V>, call: Call<V>, now: int)
    requires Holds(cfg, e, call)
    ensures Expired(e, now) <==> !Reaches(cfg, call, now)
  {
  }

  // ---------- nothing else is found ----------

  lemma LastSetAfterSet<V>(trace: seq<Call<V>>, key: string, value: V, ttl: Option<int>, now: int, other: string)
    ensures var call := Call(SetOp(key, value, ttl), now);
      LastSet(trace + [call], other) == if other == key then Some(call) else LastSet(trace, other)
  {
    var longer := trace + [Call(SetOp(key, value, ttl), now)];
    assert longer[..|longer| - 1] == trace;
  }

  lemma ToldSet<V>(cfg: Config, trace: seq<Call<V>>, c: Cache<V>, key: string, value: V, ttl: Option<int>, now: int)
    requires Told(cfg, trace, c.entries)
    ensures Told(cfg, trace + [Call(SetOp(key, value, ttl), now)], Set(cfg, c, key, value, ttl, now).entries)
  {
    hide Lookup, Without, LastSet, ExpiryFor;
    var longer := trace + [Call(SetOp(key, value, ttl), now)];
    LookupFacts(c.entries, key);
    WithoutFacts(c.entries, key);
    var s := Set(cfg, c, key, value, ttl, now).entries;
    forall e | e in s ensures LastSet(longer, e.key).Some? && Holds(cfg, e, LastSet(longer, e.key).value) {
      LastSetAfterSet(trace, key, value, ttl, now, e.key);
      if e != s[0] {
        assert e in s[1..] && e in c.entries && e.key != key;
      }
    }
  }

  lemma LastSetAfterRead<V>(trace: seq<Call<V>>, call: Call<V>, other: string)
    requires call.op.GetOp? || call.op.HasOp? || call.op.CleanOp? || (call.op.DeleteOp? && call.op.key != other)
    ensures LastSet(trace + [call], other) == LastSet(trace, other)
  {
    assert (trace + [call])[..|trace|] == trace;
  }

  lemma ToldGet<V>(cfg: Config, trace: seq<Call<V>>, c: Cache<V>, key: string, now: int)
    requires Told(cfg, trace, c.entries)
    ensures Told(cfg, trace + [Call(GetOp(key), now)], Get(c, key, now).0.entries)
  {
    hide Lookup, Without, LastSet, ExpiryFor, Expired;
    var longer := trace + [Call(GetOp(key), now)];
    LookupFacts(c.entries, key);
    WithoutFacts(c.entries, key);
    var s := Get(c, key, now).0.entries;
    forall e | e in s ensures LastSet(longer, e.key).Some? && Holds(cfg, e, LastSet(longer, e.key).value) {
      LastSetAfterRead(trace, Call(GetOp(key), now), e.key);
      if e !in c.entries { assert e == s[0]; }
    }
  }

  lemma ToldRest<V>(cfg: Config, trace: seq<Call<V>>, c: Cache<V>, call: Call<V>)
    requires Told(cfg, trace, c.entries) && !call.op.SetOp? && !call.op.GetOp?
    ensures Told(cfg, trace + [call], Step(cfg, c, call).0.entries)
  {
    hide Lookup, Without, Alive, LastSet, Holds;
    match call.op {
      case CleanOp => AliveFacts(c.entries, call.now);
      case ClearOp =>
      case DeleteOp(k) => WithoutFacts(c.entries, k);
      case HasOp(k) => WithoutFacts(c.entries, k);
    }
    forall e | e in Step(cfg, c, call).0.entries
      ensures LastSet(trace + [call], e.key).Some? && Holds(cfg, e, LastSet(trace + [call], e.key).value)
    {
      LastSetAfterRead(trace, call, e.key);
    }
  }

  lemma {:induction false} AllTold<V>(cfg: Config, trace: seq<Call<V>>)
    ensures Told(cfg, trace, Run(cfg, trace).entries)
  {
    if trace != [] {
      hide Told, Set, Get;
      var (before, call) := (trace[..|trace| - 1], trace[|trace| - 1]);
      AllTold(cfg, before);
      assert trace == before + [call];
      match call.op
      case SetOp(k, v, ttl) => ToldSet(cfg, before, Run(cfg, before), k, v, ttl, call.now);
      case GetOp(k) => ToldGet(cfg, before, Run(cfg, before), k, call.now);
      case _ => ToldRest(cfg, before, Run(cfg, before), call);
    }
  }

  /**
   A key is found only with the value of its last set, which no delete of the key and no clear came after, and only as
   long as that set's lifetime reaches.
   */
  lemma FoundIsLastSet<V>(cfg: Config, trace: seq<Call<V>>, key: string, now: int)
    ensures var (found, last) := (Get(Run(cfg, trace), key, now).1, LastSet(trace, key));
      && (found.Some? ==>
            last.Some? && last.value.op.SetOp? && found.value == last.value.op.value && Reaches(cfg, last.value, now))
      && Has(Run(cfg, trace), key, now).1 == found.Some?
  {
    AllTold(cfg, trace);
    hide Run;
    var c := Run(cfg, trace);
    LookupFacts(c.entries, key);
    if Lookup(c.entries, key).Some? {
      HoldsExpires(cfg, Lookup(c.entries, key).value, LastSet(trace, key).value, now);
    }
  }

  // ---------- with room for all keys everything is found ----------

  /** Time does not run backwards, up to a last moment. */
  ghost predicate Ordered<V>(trace: seq<Call<V>>, now: int) {
    && (forall i, j :: 0 <= i < j < |trace| ==> trace[i].now <= trace[j].now)
    && (trace != [] ==> trace[|trace| - 1].now <= now)
  }

  ghost predicate SetsOnly<V>(trace: seq<Call<V>>, keys: set<string>) {
    forall i :: 0 <= i < |trace| && trace[i].op.SetOp? ==> trace[i].op.key in keys
  }

  /** The last set of the key is not undone, and its lifetime reaches the moment. */
  ghost predicate Expects<V>(cfg: Config, trace: seq<Call<V>>, key: string, now: int) {
    var last := LastSet(trace, key);
    last.Some? && last.value.op.SetOp? && Reaches(cfg, last.value, now)
  }

  ghost predicate Complete<V>(cfg: Config, trace: seq<Call<V>>, c: Cache<V>, now: int) {
    forall key {:trigger LastSet(trace, key)} :: Expects(cfg, trace, key, now) ==> Lookup(c.entries, key).Some?
  }

  ghost predicate KeysIn<V>(s: seq<Entry<V>>, keys: set<string>) { forall e :: e in s ==> e.key in keys }

  lemma {:induction false} FewEntries<V>(s: seq<Entry<V>>, keys: set<string>)
    requires Distinct(s) && KeysIn(s, keys)
    ensures |s| <= |keys|
  {
    if s != [] {
      assert s[0] in s;
      forall e | e in s[1..] ensures e.key in keys - {s[0].key} {
        var i :| 0 <= i < |s| - 1 && s[1..][i] == e;
        assert s[i + 1] == e;
      }
      FewEntries(s[1..], keys - {s[0].key});
    }
  }

  lemma {:induction false} KeysOfSets<V>(cfg: Config, trace: seq<Call<V>>, keys: set<string>)
    requires SetsOnly(trace, keys)
    ensures KeysIn(Run(cfg, trace).entries, keys)
  {
    AllTold(cfg, trace);
    hide Run;
    forall e | e in Run(cfg, trace).entries ensures e.key in keys { LastSetIn(trace, e.key, keys); }
  }

  lemma {:induction false} LastSetIn<V>(trace: seq<Call<V>>, key: string, keys: set<string>)
    requires SetsOnly(trace, keys) && LastSet(trace, key).Some?
    ensures key in keys
  {
    var last := trace[|trace| - 1];
    if !(last.op.SetOp? && last.op.key == key) { LastSetIn(trace[..|trace| - 1], key, keys); }
  }

  lemma RoomForAll<V>(cfg: Config, s: seq<Entry<V>>, key: string, keys: set<string>)
    requires Distinct(s) && KeysIn(s, keys) && key in keys && Lookup(s, key) == None && |keys| <= cfg.Capacity()
    ensures s == [] || |s| < cfg.maxSize
  {
    LookupFacts(s, key);
    forall e | e in s ensures e.key in keys - {key} {
      var i :| 0 <= i < |s| && s[i] == e;
    }
    FewEntries(s, keys - {key});
  }

  lemma CompleteSet<V>(
    cfg: Config, trace: seq<Call<V>>, c: Cache<V>, key: string, value: V, ttl: Option<int>, now: int,
    keys: set<string>)
    requires Complete(cfg, trace, c, now) && Distinct(c.entries) && KeysIn(c.entries, keys) && key in keys
    requires |keys| <= cfg.Capacity()
    ensures Complete(cfg, trace + [Call(SetOp(key, value, ttl), now)], Set(cfg, c, key, value, ttl, now), now)
  {
    var call := Call(SetOp(key, value, ttl), now);
    var longer := trace + [call];
    assert longer[..|longer| - 1] == trace;
    LookupFacts(c.entries, key);
    if Lookup(c.entries, key) == None { RoomForAll(cfg, c.entries, key, keys); }
    var c' := Set(cfg, c, key, value, ttl, now);
    forall k | Expects(cfg, longer, k, now) ensures Lookup(c'.entries, k).Some? {
      LookupWithoutSome(c.entries, key, k);
      assert c'.entries[1..] == if Lookup(c.entries, key).Some? then Without(c.entries, key) else c.entries;
      assert k != key ==> LastSet(trace, k).Some?;
    }
  }

  lemma LookupWithoutSome<V>(s: seq<Entry<V>>, key: string, other: string)
    ensures other != key ==> Lookup(Without(s, key), other) == Lookup(s, other)
  {
    if other != key { LookupWithout(s, key, other); }
  }

  lemma CompleteRead<V>(cfg: Config, trace: seq<Call<V>>, c: Cache<V>, call: Call<V>)
    requires Complete(cfg, trace, c, call.now) && Told(cfg, trace, c.entries) && (call.op.GetOp? || call.op.HasOp?)
    ensures Complete(cfg, trace + [call], Step(cfg, c, call).0, call.now)
  {
    var (longer, key, now) := (trace + [call], call.op.key, call.now);
    assert longer[..|longer| - 1] == trace;
    LookupFacts(c.entries, key);
    var c' := Step(cfg, c, call).0;
    hide Told, Without;
    forall k | Expects(cfg, longer, k, now) ensures Lookup(c'.entries, k).Some? {
      assert LastSet(longer, k) == LastSet(trace, k);
      LookupWithoutSome(c.entries, key, k);
      if k == key { StillHeld(cfg, trace, c, key, now); }
    }
  }

  /** An entry whose set still reaches has not expired. */
  lemma StillHeld<V>(cfg: Config, trace: seq<Call<V>>, c: Cache<V>, key: string, now: int)
    requires Told(cfg, trace, c.entries) && Lookup(c.entries, key).Some? && Expects(cfg, trace, key, now)
    ensures !Expired(Lookup(c.entries, key).value, now)
  {
    LookupFacts(c.entries, key);
    HoldsExpires(cfg, Lookup(c.entries, key).value, LastSet(trace, key).value, now);
  }

  lemma CompleteRest<V>(cfg: Config, trace: seq<Call<V>>, c: Cache<V>, call: Call<V>)
    requires Complete(cfg, trace, c, call.now) && Told(cfg, trace, c.entries)
    requires call.op.DeleteOp? || call.op.CleanOp? || call.op.ClearOp?
    ensures Complete(cfg, trace + [call], Step(cfg, c, call).0, call.now)
  {
    var (longer, now) := (trace + [call], call.now);
    assert longer[..|longer| - 1] == trace;
    var c' := Step(cfg, c, call).0;
    hide Told, Without, Alive;
    forall k | Expects(cfg, longer, k, now) ensures Lookup(c'.entries, k).Some? {
      assert LastSet(longer, k) == LastSet(trace, k);
      if call.op.DeleteOp? {
        LookupWithoutSome(c.entries, call.op.key, k);
      } else {
        StillHeld(cfg, trace, c, k, now);
        AliveFacts(c.entries, now);
        LookupFacts(c.entries, k);
        LookupFacts(Alive(c.entries, now), k);
        assert Lookup(c.entries, k).value in Alive(c.entries, now);
      }
    }
  }

  lemma CompleteLater<V>(cfg: Config, trace: seq<Call<V>>, c: Cache<V>, now: int, later: int)
    requires Complete(cfg, trace, c, now) && now <= later
    ensures Complete(cfg, trace, c, later)
  {
    forall k | Expects(cfg, trace, k, later) ensures Lookup(c.entries, k).Some? {
      assert Reaches(cfg, LastSet(trace, k).value, now);
    }
  }

  lemma {:induction false} AllComplete<V>(cfg: Config, trace: seq<Call<V>>, keys: set<string>, now: int)
    requires Ordered(trace, now) && SetsOnly(trace, keys) && |keys| <= cfg.Capacity()
    ensures Complete(cfg, trace, Run(cfg, trace), now)
  {
    if trace == [] {
      assert forall key :: !Expects(cfg, trace, key, now);
    } else {
      var (before, call) := (trace[..|trace| - 1], trace[|trace| - 1]);
      assert trace == before + [call];
      AllComplete(cfg, before, keys, call.now);
      AllTold(cfg, before);
      KeysOfSets(cfg, before, keys);
      RecencyOrder(cfg, before);
      hide Complete, Told, Set, Get, KeysIn;
      match call.op {
        case SetOp(k, v, ttl) => CompleteSet(cfg, before, Run(cfg, before), k, v, ttl, call.now, keys);
        case GetOp(_) => CompleteRead(cfg, before, Run(cfg, before), call);
        case HasOp(_) => CompleteRead(cfg, before, Run(cfg, before), call);
        case _ => CompleteRest(cfg, before, Run(cfg, before), call);
      }
      CompleteLater(cfg, trace, Run(cfg, trace), call.now, now);
    }
  }

  /** While no more keys are set than the cache has room for, it is a map whose entries end with their lifetime. */
  lemma RoomyCacheIsMap<V>(cfg: Config, trace: seq<Call<V>>, keys: set<string>, key: string, now: int)
    requires Ordered(trace, now) && SetsOnly(trace, keys) && |keys| <= cfg.Capacity()
    ensures var last := LastSet(trace, key);
      Get(Run(cfg, trace), key, now).1
      == if Expects(cfg, trace, key, now) then Some(last.value.op.value) else None
  {
    AllComplete(cfg, trace, keys, now);
    FoundIsLastSet(cfg, trace, key, now);
    AllTold(cfg, trace);
    hide Run, LastSet;
    var (c, last) := (Run(cfg, trace), LastSet(trace, key));
    if Expects(cfg, trace, key, now) {
      StillHeld(cfg, trace, c, key, now);
    }
  }

  // ---------- a delete and a clean on any state ----------

  /** After a delete the key is never found, every other key is as before, and the answer tells what was there. */
  lemma DeleteForgets<V>(c: Cache<V>, key: string, other: string, now: int)
    ensures var (c', answer) := Delete(c, key);
      && Get(c', key, now).1 == None && !Has(c', key, now).1
      && (other != key ==>
            Get(c', other, now).1 == Get(c, other, now).1 && Has(c', other, now).1 == Has(c, other, now).1)
      && (answer <==> exists e :: e in c.entries && e.key == key)
      && c'.hits == c.hits && c'.misses == c.misses && c'.evictions == c.evictions
  {
    WithoutFacts(c.entries, key);
    LookupFacts(c.entries, key);
    LookupWithoutSome(c.entries, key, other);
  }

  /** A clean removes exactly what has expired and keeps the order of the rest; counters stay. */
  lemma CleanRemovesExpired<V>(c: Cache<V>, now: int)
    ensures var c' := CleanExpired(c, now);
      && c'.entries == Kept(c.entries, now) && c'.(entries := c.entries) == c
  {
    AliveIsKept(c.entries, now);
  }

  /** The entries whose lifetime has no end, or an end at zero or not before the moment. */
  function Kept<V>(s: seq<Entry<V>>, now: int): seq<Entry<V>> {
    if s == [] then []
    else
      var (rest, e) := (Kept(s[..|s| - 1], now), s[|s| - 1]);
      match e.expiresAt
      case None => rest + [e]
      case Some(end) => if end == 0 || now <= end then rest + [e] else rest
  }

  lemma {:induction false} AliveSnoc<V>(s: seq<Entry<V>>, e: Entry<V>, now: int)
    ensures Alive(s + [e], now) == Alive(s, now) + if Expired(e, now) then [] else [e]
  {
    if s == [] {
      assert [e][1..] == [];
    } else {
      assert (s + [e])[1..] == s[1..] + [e];
      AliveSnoc(s[1..], e, now);
    }
  }

  lemma {:induction false} AliveIsKept<V>(s: seq<Entry<V>>, now: int)
    ensures Alive(s, now) == Kept(s, now)
  {
    if s != [] {
      AliveIsKept(s[..|s| - 1], now);
      AliveSnoc(s[..|s| - 1], s[|s| - 1], now);
      assert s == s[..|s| - 1] + [s[|s| - 1]];
    }
  }

  // ---------- the counters and the dates of an entry ----------

  /** How many gets of the trace since the last clear answered with a value, or with none. */
  ghost function Gets<V>(cfg: Config, trace: seq<Call<V>>, found: bool): nat {
    if trace == [] || trace[|trace| - 1].op.ClearOp? then 0
    else
      var n := |trace| - 1;
      Gets(cfg, trace[..n], found)
      + if trace[n].op.GetOp? && AnswerAt(cfg, trace, n).Found? && AnswerAt(cfg, trace, n).value.Some? == found then 1
        else 0
  }

  lemma CountersStep<V>(cfg: Config, c: Cache<V>, call: Call<V>)
    ensures var (c', answer) := Step(cfg, c, call);
      if call.op.ClearOp? then c'.hits == c'.misses == 0
      else
        && c'.hits == c.hits + (if call.op.GetOp? && answer.value.Some? then 1 else 0)
        && c'.misses == c.misses + (if call.op.GetOp? && answer.value.None? then 1 else 0)
  {
    hide Lookup, Without, Alive, Expired;
  }

  /** Hits and misses are the gets since the last clear that found something, and those that did not. */
  lemma {:induction false} CountersAreTold<V>(cfg: Config, trace: seq<Call<V>>)
    ensures Run(cfg, trace).hits == Gets(cfg, trace, true) && Run(cfg, trace).misses == Gets(cfg, trace, false)
  {
    if trace != [] {
      var n := |trace| - 1;
      CountersAreTold(cfg, trace[..n]);
      CountersStep(cfg, Run(cfg, trace[..n]), trace[n]);
      AnswerKind(cfg, Run(cfg, trace[..n]), trace[n]);
      hide Step;
    }
  }

  /** A set of a key that is not there, while the cache is full. */
  ghost predicate Evicts<V>(cfg: Config, c: Cache<V>, call: Call<V>) {
    && call.op.SetOp? && |c.entries| >= 1 && |c.entries| >= cfg.maxSize
    && forall i :: 0 <= i < |c.entries| ==> c.entries[i].key != call.op.key
  }

  ghost function Evictions<V>(cfg: Config, trace: seq<Call<V>>): nat {
    if trace == [] || trace[|trace| - 1].op.ClearOp? then 0
    else
      var n := |trace| - 1;
      Evictions(cfg, trace[..n]) + if Evicts(cfg, Run(cfg, trace[..n]), trace[n]) then 1 else 0
  }

  lemma EvictionsStep<V>(cfg: Config, c: Cache<V>, call: Call<V>)
    ensures Step(cfg, c, call).0.evictions ==
      if call.op.ClearOp? then 0 else c.evictions + if Evicts(cfg, c, call) then 1 else 0
  {
    if call.op.SetOp? { LookupFacts(c.entries, call.op.key); }
    hide Lookup, Without, Alive, Expired;
  }

  /** Evictions are the sets of new keys since the last clear that found the cache full. */
  lemma {:induction false} EvictionsAreTold<V>(cfg: Config, trace: seq<Call<V>>)
    ensures Run(cfg, trace).evictions == Evictions(cfg, trace)
  {
    if trace != [] {
      var n := |trace| - 1;
      EvictionsAreTold(cfg, trace[..n]);
      EvictionsStep(cfg, Run(cfg, trace[..n]), trace[n]);
      hide Step, Evicts;
    }
  }

  lemma AnswerKind<V>(cfg: Config, c: Cache<V>, call: Call<V>)
    ensures call.op.GetOp? ==> Step(cfg, c, call).1.Found?
  {
  }
  /** When a key came in, when it was last touched, and how often since it came in. */
  datatype Dates = Dates(createdAt: int, accessedAt: int, uses: nat)

  ghost predicate Present<V>(s: seq<Entry<V>>, key: string) { exists e :: e in s && e.key == key }

  /** The dates of a key after one call; `Touches` says whether the call touches it. */
  ghost function DatesAfter<V>(d: Dates, c: Cache<V>, call: Call<V>, answer: Answer<V>, key: string): Dates {
    if !Touches(call.op, answer, key) then d
    else if Present(c.entries, key) then Dates(d.createdAt, call.now, d.uses + 1)
    else Dates(call.now, call.now, 1)
  }

  ghost function DatesOf<V>(cfg: Config, trace: seq<Call<V>>, key: string): Dates {
    if trace == [] then Dates(0, 0, 0)
    else
      var n := |trace| - 1;
      DatesAfter(DatesOf(cfg, trace[..n], key), Run(cfg, trace[..n]), trace[n], AnswerAt(cfg, trace, n), key)
  }

  ghost predicate Dated<V>(e: Entry<V>, d: Dates) {
    e.createdAt == d.createdAt && e.accessedAt == d.accessedAt && e.accessCount == d.uses
  }

  ghost predicate AllDated<V>(s: seq<Entry<V>>, dates: string -> Dates) {
    forall e :: e in s ==> Dated(e, dates(e.key))
  }

  lemma DatedSet<V>(
    cfg: Config, c: Cache<V>, key: string, value: V, ttl: Option<int>, now: int, dates: string -> Dates, e: Entry<V>)
    requires AllDated(c.entries, dates) && e in Set(cfg, c, key, value, ttl, now).entries
    ensures Dated(e, DatesAfter(dates(e.key), c, Call(SetOp(key, value, ttl), now), Done, e.key))
  {
    LookupFacts(c.entries, key);
    WithoutFacts(c.entries, key);
    hide Lookup, Without, ExpiryFor;
    var s := Set(cfg, c, key, value, ttl, now).entries;
    if e != s[0] { assert e in s[1..] && e in c.entries && e.key != key; }
  }

  lemma DatedGet<V>(c: Cache<V>, key: string, now: int, dates: string -> Dates, e: Entry<V>)
    requires AllDated(c.entries, dates) && e in Get(c, key, now).0.entries
    ensures Dated(e, DatesAfter(dates(e.key), c, Call(GetOp(key), now), Found(Get(c, key, now).1), e.key))
  {
    LookupFacts(c.entries, key);
    WithoutFacts(c.entries, key);
    hide Lookup, Without, Expired;
    var s := Get(c, key, now).0.entries;
    if Get(c, key, now).1.Some? && e != s[0] { assert e in s[1..] && e in c.entries && e.key != key; }
  }

  lemma DatedRest<V>(cfg: Config, c: Cache<V>, call: Call<V>, dates: string -> Dates, e: Entry<V>)
    requires AllDated(c.entries, dates) && !call.op.SetOp? && !call.op.GetOp? && e in Step(cfg, c, call).0.entries
    ensures Dated(e, DatesAfter(dates(e.key), c, call, Step(cfg, c, call).1, e.key))
  {
    hide Lookup, Without, Alive;
    match call.op {
      case CleanOp => AliveFacts(c.entries, call.now);
      case ClearOp =>
      case DeleteOp(k) => WithoutFacts(c.entries, k);
      case HasOp(k) => WithoutFacts(c.entries, k);
    }
  }

  /** An entry's dates and its count of uses are those the calls tell. */
  lemma {:induction false} DatesAreTold<V>(cfg: Config, trace: seq<Call<V>>, e: Entry<V>)
    requires e in Run(cfg, trace).entries
    ensures Dated(e, DatesOf(cfg, trace, e.key))
    decreases |trace|
  {
    if trace != [] {
      hide Dated, Set, Get, DatesAfter;
      var (before, call) := (trace[..|trace| - 1], trace[|trace| - 1]);
      var (c, dates) := (Run(cfg, before), k => DatesOf(cfg, before, k));
      assert AllDated(c.entries, dates) by {
        forall e' | e' in c.entries ensures Dated(e', dates(e'.key)) { DatesAreTold(cfg, before, e'); }
      }
      match call.op
      case SetOp(k, v, ttl) => DatedSet(cfg, c, k, v, ttl, call.now, dates, e);
      case GetOp(k) => DatedGet(c, k, call.now, dates, e);
      case _ => DatedRest(cfg, c, call, dates, e);
    }
  }
}
