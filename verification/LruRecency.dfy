/**
 What "least recently used" means, told from the trace alone: a key is touched by a set and by a get that
 hits. The recency list is always sorted by last touch, so the evicted entry is the one touched longest ago.
 */
module LruRecency {
  import opened Options
  import opened LruSpec

  ghost predicate Touches<V>(op: Op<V>, answer: Answer<V>, key: string) {
    match op
    case SetOp(k, _, _) => k == key
    case GetOp(k) => k == key && answer.Found? && answer.value.Some?
    case _ => false
  }

  /** Position of the last call of the trace that touched the key, or -1. */
  ghost function LastTouch<V>(cfg: Config, trace: seq<Call<V>>, key: string): int {
    if trace == [] then -1
    else
      var n := |trace| - 1;
      if Touches(trace[n].op, AnswerAt(cfg, trace, n), key) then n else LastTouch(cfg, trace[..n], key)
  }

  ghost predicate SortedBy<V>(s: seq<Entry<V>>, rank: string -> int) {
    forall i, j :: 0 <= i < j < |s| ==> rank(s[i].key) > rank(s[j].key)
  }

  lemma SortedTail<V>(e: Entry<V>, t: seq<Entry<V>>, rank: string -> int)
    requires SortedBy(t, rank) && forall x :: x in t ==> rank(e.key) > rank(x.key)
    ensures SortedBy([e] + t, rank)
  {
  }

  lemma {:induction false} SortedWithout<V>(s: seq<Entry<V>>, key: string, rank: string -> int)
    requires SortedBy(s, rank)
    ensures SortedBy(Without(s, key), rank)
  {
    if s != [] {
      SortedWithout(s[1..], key, rank);
      WithoutFacts(s[1..], key);
      if s[0].key != key { SortedTail(s[0], Without(s[1..], key), rank); }
    }
  }

  lemma {:induction false} SortedAlive<V>(s: seq<Entry<V>>, now: int, rank: string -> int)
    requires SortedBy(s, rank)
    ensures SortedBy(Alive(s, now), rank)
  {
    if s != [] {
      SortedAlive(s[1..], now, rank);
      AliveFacts(s[1..], now);
      if !Expired(s[0], now) { SortedTail(s[0], Alive(s[1..], now), rank); }
    }
  }

  lemma {:induction false} LastTouchBound<V>(cfg: Config, trace: seq<Call<V>>, key: string)
    ensures -1 <= LastTouch(cfg, trace, key) < |trace|
  {
    if trace != [] { LastTouchBound(cfg, trace[..|trace| - 1], key); }
  }

  /** After any trace the list is in order of last touch, most recent first. */
  lemma {:induction false} RecencyOrder<V>(cfg: Config, trace: seq<Call<V>>)
    ensures SortedBy(Run(cfg, trace).entries, k => LastTouch(cfg, trace, k))
    ensures WellFormed(cfg, Run(cfg, trace))
  {
    if trace != [] {
      var n := |trace| - 1;
      var before, call := trace[..n], trace[n];
      RecencyOrder(cfg, before);
      var c := Run(cfg, before);
      StepKeeps(cfg, c, call);
      RecencyStep(cfg, trace, c, k => LastTouch(cfg, before, k), k => LastTouch(cfg, trace, k));
    }
  }

  lemma SortedSame<V>(s: seq<Entry<V>>, prev: string -> int, next: string -> int)
    requires SortedBy(s, prev)
    requires forall e :: e in s ==> next(e.key) == prev(e.key)
    ensures SortedBy(s, next)
  {
  }

  /** A touch puts its key in front of entries that all kept their rank. */
  lemma TouchSorted<V>(s: seq<Entry<V>>, prev: string -> int, next: string -> int)
    requires s != [] && SortedBy(s[1..], prev)
    requires forall e :: e in s[1..] ==> next(e.key) == prev(e.key) < next(s[0].key)
    ensures SortedBy(s, next)
  {
    SortedSame(s[1..], prev, next);
    SortedTail(s[0], s[1..], next);
    assert s == [s[0]] + s[1..];
  }

  /** What a set or a hitting get leaves behind its front entry: an ordered part of the old list. */
  lemma RestAfterTouch<V>(cfg: Config, c: Cache<V>, call: Call<V>, key: string, prev: string -> int)
    requires SortedBy(c.entries, prev)
    requires Touches(call.op, Step(cfg, c, call).1, key)
    ensures var s := Step(cfg, c, call).0.entries;
      s != [] && s[0].key == key && SortedBy(s[1..], prev) && forall e :: e in s[1..] ==> e.key != key
  {
    SortedWithout(c.entries, key, prev);
    WithoutFacts(c.entries, key);
    LookupFacts(c.entries, key);
    var s := Step(cfg, c, call).0.entries;
    if Lookup(c.entries, key).Some? {
      assert s[1..] == Without(c.entries, key);
    } else {
      assert s[1..] == c.entries[..|s| - 1];
    }
  }

  lemma UntouchedStep<V>(cfg: Config, c: Cache<V>, call: Call<V>, prev: string -> int)
    requires SortedBy(c.entries, prev)
    requires forall k :: !Touches(call.op, Step(cfg, c, call).1, k)
    ensures SortedBy(Step(cfg, c, call).0.entries, prev)
  {
    match call.op
    case CleanOp => SortedAlive(c.entries, call.now, prev);
    case ClearOp =>
    case SetOp(k, _, _) => assert Touches(call.op, Step(cfg, c, call).1, k);
    case _ =>
      SortedWithout(c.entries, call.op.key, prev);
      assert !Touches(call.op, Step(cfg, c, call).1, call.op.key);
  }

  lemma RecencyStep<V>(
    cfg: Config, trace: seq<Call<V>>, c: Cache<V>, prev: string -> int, next: string -> int)
    requires trace != [] && c == Run(cfg, trace[..|trace| - 1])
    requires forall k :: prev(k) == LastTouch(cfg, trace[..|trace| - 1], k)
    requires forall k :: next(k) == LastTouch(cfg, trace, k)
    requires SortedBy(c.entries, prev)
    ensures SortedBy(Run(cfg, trace).entries, next)
  {
    var n := |trace| - 1;
    var call := trace[n];
    var (c', answer) := Step(cfg, c, call);
    forall k
      ensures prev(k) < n
      ensures next(k) == if Touches(call.op, answer, k) then n else prev(k)
    {
      LastTouchBound(cfg, trace[..n], k);
    }
    if k :| Touches(call.op, answer, k) {
      RestAfterTouch(cfg, c, call, k, prev);
      TouchSorted(c'.entries, prev, next);
    } else {
      UntouchedStep(cfg, c, call, prev);
      SortedSame(c'.entries, prev, next);
    }
  }

  lemma LastIsOldest<V>(s: seq<Entry<V>>, rank: string -> int, e: Entry<V>)
    requires SortedBy(s, rank) && e in s && e != s[|s| - 1]
    ensures rank(s[|s| - 1].key) < rank(e.key)
  {
    var i :| 0 <= i < |s| && s[i] == e;
  }

  /** A set of a new key into a full cache drops exactly one entry, and no other entry was touched earlier. */
  lemma EvictsLeastRecentlyTouched<V>(
    cfg: Config, trace: seq<Call<V>>, key: string, value: V, ttl: Option<int>, now: int)
    requires Lookup(Run(cfg, trace).entries, key) == None
    requires Run(cfg, trace).entries != [] && |Run(cfg, trace).entries| >= cfg.maxSize
    ensures var c, c' := Run(cfg, trace), Set(cfg, Run(cfg, trace), key, value, ttl, now);
      var victim := c.entries[|c.entries| - 1];
      && c'.entries[1..] + [victim] == c.entries && c'.entries[0].key == key
      && Lookup(c'.entries, victim.key) == None
      && c'.evictions == c.evictions + 1
      && forall e :: e in c.entries && e != victim ==> LastTouch(cfg, trace, victim.key) < LastTouch(cfg, trace, e.key)
  {
    RecencyOrder(cfg, trace);
    var c, c' := Run(cfg, trace), Set(cfg, Run(cfg, trace), key, value, ttl, now);
    var n := |c.entries| - 1;
    assert c'.entries[1..] == c.entries[..n];
    LookupFacts(c'.entries, c.entries[n].key);
    LookupFacts(c.entries, key);
    hide Run, Set, Lookup, SortedBy, LastTouch;
    forall e | e in c.entries && e != c.entries[n]
      ensures LastTouch(cfg, trace, c.entries[n].key) < LastTouch(cfg, trace, e.key)
    {
      LastIsOldest(c.entries, k => LastTouch(cfg, trace, k), e);
    }
  }
}
