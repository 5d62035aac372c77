/**
 Two caches, one trace. Run any trace of calls on a smaller and on a larger cache with the same default
 time-to-live: the smaller recency list is a subsequence of the larger one throughout, so the larger cache
 answers every lookup at least as well.
 */
module LruInclusion {
  import opened Options
  import opened LruSpec

  /** The two caches agree on an entry up to its use count and creation time. */
  ghost predicate Agree<V>(a: Entry<V>, b: Entry<V>) {
    a.key == b.key && a.value == b.value && a.expiresAt == b.expiresAt && a.accessedAt == b.accessedAt &&
    a.accessCount <= b.accessCount
  }

  /** `small` is, in order and entry by entry, a subsequence of `large`. */
  ghost predicate Subsequence<V>(small: seq<Entry<V>>, large: seq<Entry<V>>) {
    if small == [] then true
    else if large == [] then false
    else if small[0].key == large[0].key then Agree(small[0], large[0]) && Subsequence(small[1..], large[1..])
    else Subsequence(small, large[1..])
  }

  ghost predicate Included<V>(n: Config, m: Config, small: Cache<V>, large: Cache<V>) {
    && WellFormed(n, small) && WellFormed(m, large)
    && Subsequence(small.entries, large.entries)
    // Once the larger cache has to evict, so does the smaller one.
    && |large.entries| - |small.entries| <= m.Capacity() - n.Capacity()
    && small.hits <= large.hits && small.hits + small.misses == large.hits + large.misses
  }

  lemma {:induction false} SubsequenceKey<V>(s: seq<Entry<V>>, l: seq<Entry<V>>, key: string)
    requires Subsequence(s, l) && Distinct(l) && Lookup(s, key).Some?
    ensures Lookup(l, key).Some? && Agree(Lookup(s, key).value, Lookup(l, key).value)
    decreases |l|
  {
    if s[0].key == l[0].key {
      if s[0].key != key { SubsequenceKey(s[1..], l[1..], key); }
    } else {
      SubsequenceKey(s, l[1..], key);
      LookupFacts(l[1..], key);
      var i :| 0 <= i < |l[1..]| && l[1..][i].key == key;
      assert l[0].key != l[i + 1].key;
    }
  }

  lemma AbsentFromPart<V>(part: seq<Entry<V>>, s: seq<Entry<V>>, key: string)
    requires Lookup(s, key) == None
    requires forall e :: e in part ==> e in s
    ensures Lookup(part, key) == None
  {
    LookupFacts(s, key);
    LookupFacts(part, key);
  }

  /** A key the large list spends on an unmatched first element is nowhere in the small list. */
  lemma UnmatchedFirst<V>(s: seq<Entry<V>>, l: seq<Entry<V>>)
    requires l != [] && Distinct(l) && Subsequence(s, l[1..])
    ensures Lookup(s, l[0].key) == None
  {
    LookupFacts(l[1..], l[0].key);
    if Lookup(s, l[0].key).Some? {
      SubsequenceKey(s, l[1..], l[0].key);
    }
  }

  lemma SkipFirst<V>(s: seq<Entry<V>>, e: Entry<V>, l: seq<Entry<V>>)
    requires Subsequence(s, l) && Lookup(s, e.key) == None
    ensures Subsequence(s, [e] + l)
  {
    assert ([e] + l)[1..] == l;
  }

  lemma MatchFirst<V>(a: Entry<V>, s: seq<Entry<V>>, b: Entry<V>, l: seq<Entry<V>>)
    requires Subsequence(s, l) && Agree(a, b)
    ensures Subsequence([a] + s, [b] + l)
  {
    assert ([a] + s)[1..] == s && ([b] + l)[1..] == l;
  }

  lemma {:induction false} SubsequenceWithout<V>(s: seq<Entry<V>>, l: seq<Entry<V>>, key: string)
    requires Subsequence(s, l) && Distinct(l)
    ensures Subsequence(Without(s, key), Without(l, key))
    decreases |l|
  {
    if s != [] {
      if s[0].key == l[0].key {
        SubsequenceWithout(s[1..], l[1..], key);
        if s[0].key != key { MatchFirst(s[0], Without(s[1..], key), l[0], Without(l[1..], key)); }
      } else {
        SubsequenceWithout(s, l[1..], key);
        if l[0].key != key {
          UnmatchedFirst(s, l);
          WithoutFacts(s, key);
          AbsentFromPart(Without(s, key), s, l[0].key);
          SkipFirst(Without(s, key), l[0], Without(l[1..], key));
        }
      }
    }
  }

  lemma {:induction false} SubsequenceAlive<V>(s: seq<Entry<V>>, l: seq<Entry<V>>, now: int)
    requires Subsequence(s, l) && Distinct(l)
    ensures Subsequence(Alive(s, now), Alive(l, now))
    ensures |Alive(l, now)| - |Alive(s, now)| <= |l| - |s|
    decreases |l|
  {
    if s == [] {
      AliveFacts(l, now);
    } else if s[0].key == l[0].key {
      SubsequenceAlive(s[1..], l[1..], now);
      if !Expired(s[0], now) { MatchFirst(s[0], Alive(s[1..], now), l[0], Alive(l[1..], now)); }
    } else {
      SubsequenceAlive(s, l[1..], now);
      if !Expired(l[0], now) {
        UnmatchedFirst(s, l);
        AliveFacts(s, now);
        AbsentFromPart(Alive(s, now), s, l[0].key);
        SkipFirst(Alive(s, now), l[0], Alive(l[1..], now));
      }
    }
  }

  lemma {:induction false} SubsequenceDropLast<V>(s: seq<Entry<V>>, l: seq<Entry<V>>)
    requires Subsequence(s, l) && s != []
    ensures l != []
    ensures Subsequence(s[..|s| - 1], l[..|l| - 1])
    ensures Subsequence(s[..|s| - 1], l)
    decreases |l|
  {
    if |s| > 1 {
      var s', l' := s[..|s| - 1], l[..|l| - 1];
      if s[0].key == l[0].key {
        SubsequenceDropLast(s[1..], l[1..]);
        assert s[1..][..|s[1..]| - 1] == s'[1..];
        assert l[1..][..|l[1..]| - 1] == l'[1..];
      } else {
        SubsequenceDropLast(s, l[1..]);
        assert l[1..][..|l[1..]| - 1] == l'[1..];
      }
    }
  }

  // ---------- one call on both caches ----------

  lemma IncludedAfterGet<V>(n: Config, m: Config, s: Cache<V>, l: Cache<V>, key: string, now: int)
    requires Included(n, m, s, l)
    ensures Included(n, m, Get(s, key, now).0, Get(l, key, now).0)
    ensures Get(s, key, now).1.Some? ==> Get(l, key, now).1 == Get(s, key, now).1
  {
    StepKeeps(n, s, Call(GetOp(key), now));
    StepKeeps(m, l, Call(GetOp(key), now));
    LookupFacts(s.entries, key);
    LookupFacts(l.entries, key);
    WithoutFacts(s.entries, key);
    WithoutFacts(l.entries, key);
    SubsequenceWithout(s.entries, l.entries, key);
    var rs, rl := Without(s.entries, key), Without(l.entries, key);
    match Lookup(s.entries, key)
    case Some(a) =>
      SubsequenceKey(s.entries, l.entries, key);
      var b := Lookup(l.entries, key).value;
      var a' := a.(accessedAt := now, accessCount := a.accessCount + 1);
      var b' := b.(accessedAt := now, accessCount := b.accessCount + 1);
      MatchFirst(a', rs, b', rl);
    case None =>
      if Lookup(l.entries, key).Some? {
        var b := Lookup(l.entries, key).value;
        var b' := b.(accessedAt := now, accessCount := b.accessCount + 1);
        SkipFirst(rs, b', rl);
      }
  }

  lemma IncludedAfterSet<V>(
    n: Config, m: Config, s: Cache<V>, l: Cache<V>, key: string, value: V, ttl: Option<int>, now: int)
    requires n.maxSize <= m.maxSize && n.defaultTtl == m.defaultTtl
    requires Included(n, m, s, l)
    ensures Included(n, m, Set(n, s, key, value, ttl, now), Set(m, l, key, value, ttl, now))
  {
    LookupFacts(s.entries, key);
    LookupFacts(l.entries, key);
    WithoutFacts(s.entries, key);
    WithoutFacts(l.entries, key);
    var s', l' := Set(n, s, key, value, ttl, now), Set(m, l, key, value, ttl, now);
    if Lookup(s.entries, key).Some? {
      SubsequenceKey(s.entries, l.entries, key);
      SubsequenceWithout(s.entries, l.entries, key);
    } else if Lookup(l.entries, key).Some? {
      SubsequenceWithout(s.entries, l.entries, key);
      RoomSubsequence(n, s, Without(l.entries, key));
    } else {
      if |l.entries| >= m.maxSize && l.entries != [] {
        SubsequenceDropLast(s.entries, l.entries);
      } else {
        RoomSubsequence(n, s, l.entries);
      }
    }
    MatchFirst(s'.entries[0], s'.entries[1..], l'.entries[0], l'.entries[1..]);
    SetKeeps(n, s, key, value, ttl, now);
    SetKeeps(m, l, key, value, ttl, now);
  }

  lemma RoomSubsequence<V>(n: Config, s: Cache<V>, l: seq<Entry<V>>)
    requires Subsequence(s.entries, l)
    ensures Subsequence((if |s.entries| >= n.maxSize then EvictLru(s) else s).entries, l)
  {
    if s.entries != [] { SubsequenceDropLast(s.entries, l); }
  }

  /** One call keeps the inclusion, and a hit in the small cache is the same hit in the large one. */
  lemma IncludedAfterStep<V>(n: Config, m: Config, s: Cache<V>, l: Cache<V>, call: Call<V>)
    requires n.maxSize <= m.maxSize && n.defaultTtl == m.defaultTtl
    requires Included(n, m, s, l)
    ensures Included(n, m, Step(n, s, call).0, Step(m, l, call).0)
    ensures AtLeastAsGood(Step(n, s, call).1, Step(m, l, call).1)
  {
    StepKeeps(n, s, call);
    StepKeeps(m, l, call);
    match call.op
    case GetOp(k) => IncludedAfterGet(n, m, s, l, k, call.now);
    case SetOp(k, v, ttl) => IncludedAfterSet(n, m, s, l, k, v, ttl, call.now);
    case CleanOp => SubsequenceAlive(s.entries, l.entries, call.now);
    case ClearOp =>
    case _ =>
      var k := call.op.key;
      WithoutFacts(s.entries, k);
      WithoutFacts(l.entries, k);
      SubsequenceWithout(s.entries, l.entries, k);
      if Lookup(s.entries, k).Some? { SubsequenceKey(s.entries, l.entries, k); }
  }

  ghost predicate AtLeastAsGood<V>(small: Answer<V>, large: Answer<V>) {
    match small
    case Found(v) => large.Found? && (v.Some? ==> large.value == v)
    case Flag(b) => large.Flag? && (b ==> large.b)
    case Done => large.Done?
  }

  lemma {:induction false} IncludedAfterRun<V>(n: Config, m: Config, trace: seq<Call<V>>)
    requires n.maxSize <= m.maxSize && n.defaultTtl == m.defaultTtl
    ensures Included(n, m, Run(n, trace), Run(m, trace))
  {
    if trace != [] {
      var before := trace[..|trace| - 1];
      IncludedAfterRun(n, m, before);
      IncludedAfterStep(n, m, Run(n, before), Run(m, before), trace[|trace| - 1]);
    }
  }

  /**
   LRU inclusion. On any trace the small recency list is a subsequence of the large one with equal values and
   expiries; no call finds less in the larger cache, and its hit count is at least as high.
   */
  lemma LargerCacheNeverMisses<V>(n: Config, m: Config, trace: seq<Call<V>>)
    requires n.maxSize <= m.maxSize && n.defaultTtl == m.defaultTtl
    ensures Subsequence(Run(n, trace).entries, Run(m, trace).entries)
    ensures Run(n, trace).hits <= Run(m, trace).hits && Run(m, trace).misses <= Run(n, trace).misses
    ensures forall i | 0 <= i < |trace| :: AtLeastAsGood(AnswerAt(n, trace, i), AnswerAt(m, trace, i))
  {
    IncludedAfterRun(n, m, trace);
    forall i | 0 <= i < |trace| ensures AtLeastAsGood(AnswerAt(n, trace, i), AnswerAt(m, trace, i)) {
      IncludedAfterRun(n, m, trace[..i]);
      IncludedAfterStep(n, m, Run(n, trace[..i]), Run(m, trace[..i]), trace[i]);
    }
  }
}
