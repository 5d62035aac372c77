/** What cached answers are worth in every interleaving of checks, clears and changes. */
module PermissionCacheLaws {
  import opened Permissions
  import opened PermissionKeys
  import opened PermissionCacheModel

  // ---------- proper traces ----------

  /** User ids hold no colon and time does not run backwards. */
  ghost predicate Proper(trace: seq<Event>) {
    && (forall i :: 0 <= i < |trace| && trace[i].Ask? ==> ':' !in trace[i].userId)
    && (forall i, j :: 0 <= i < j < |trace| ==> trace[i].now <= trace[j].now)
  }

  ghost predicate NotAfter(trace: seq<Event>, now: int) { trace != [] ==> trace[|trace| - 1].now <= now }

  lemma ProperPrefix(trace: seq<Event>)
    requires Proper(trace) && trace != []
    ensures Proper(trace[..|trace| - 1]) && NotAfter(trace[..|trace| - 1], trace[|trace| - 1].now)
    ensures trace[|trace| - 1].Ask? ==> ':' !in trace[|trace| - 1].userId
  {
  }

  lemma ProperSnoc(trace: seq<Event>, e: Event)
    requires Proper(trace) && NotAfter(trace, e.now) && (e.Ask? ==> ':' !in e.userId)
    ensures Proper(trace + [e]) && NotAfter(trace + [e], e.now)
  {
  }

  lemma RunSnoc<C>(config: Config, history: History<C>, trace: seq<Event>, e: Event)
    ensures Run(config, history, trace + [e]) == Step(config, history, Run(config, history, trace), e)
  {
    assert (trace + [e])[..|trace + [e]| - 1] == trace;
  }

  // ---------- what an answer rests on ----------

  /** The answer from the profiles of one moment and the permission set of another. */
  function AnswerFrom<C>(
    config: Config, history: History<C>, o: Origin, userId: string, objectName: string, action: Action): CheckResult<C>
  {
    Evaluate(StoredSet(history(o.fetched), objectName), ProfilesOf(history(o.asked), userId), objectName, action,
             config.defaultDeny)
  }

  /** The answer recomputed from what is stored at one moment. */
  function Answer<C>(config: Config, w: World<C>, userId: string, objectName: string, action: Action): CheckResult<C> {
    Evaluate(StoredSet(w, objectName), ProfilesOf(w, userId), objectName, action, config.defaultDeny)
  }

  /** An origin that lies in the past, whose check took no longer than `longest`. */
  ghost predicate Past(o: Origin, longest: int, now: int) {
    o.asked <= o.fetched <= o.decided <= now && o.decided - o.asked <= longest
  }

  ghost predicate CheckOk<C>(config: Config, history: History<C>, s: State<C>, c: Check<C>, now: int) {
    && ':' !in c.userId && c.serial < s.asked && c.asked <= now && c.profiles == ProfilesOf(history(c.asked), c.userId)
    && (c.stage.Fetched? ==>
          c.asked <= c.stage.at <= now && c.stage.stored == StoredSet(history(c.stage.at), c.objectName))
  }

  ghost predicate EntryOk<C>(
    config: Config, history: History<C>, s: State<C>, longest: int, now: int, u: string, o: string, a: Action)
  {
    var key := CacheKey(u, o, a);
    key in s.cache ==>
      && key in s.origins && Past(s.origins[key], longest, now) && s.origins[key].serial < s.asked
      && s.cache[key].timestamp == s.origins[key].decided
      && s.cache[key].result == AnswerFrom(config, history, s.origins[key], u, o, a)
  }

  /** An answer is the one of its origin, which decided it now or at most the time to live ago. */
  ghost predicate GivenOk<C>(config: Config, history: History<C>, s: State<C>, longest: int, g: Given<C>) {
    && g.serial < s.asked && g.origin.serial < s.asked && Past(g.origin, longest, g.at)
    && g.result == AnswerFrom(config, history, g.origin, g.userId, g.objectName, g.action)
    && (g.origin.decided == g.at || (config.enableCache && g.at - g.origin.decided <= TimeToLive(config)))
  }

  ghost predicate Sound<C(!new)>(config: Config, history: History<C>, s: State<C>, longest: int, now: int) {
    && (forall i :: 0 <= i < |s.pending| ==> CheckOk(config, history, s, s.pending[i], now))
    && (forall u: string, o: string, a: Action :: ':' !in u ==> EntryOk(config, history, s, longest, now, u, o, a))
    && (forall i :: 0 <= i < |s.given| ==> GivenOk(config, history, s, longest, s.given[i]))
  }

  /** A check that decides was asked no longer than `longest` ago. */
  ghost predicate InTime<C>(s: State<C>, e: Event, longest: int) {
    e.Decide? && e.check < |s.pending| ==> e.now - s.pending[e.check].asked <= longest
  }

  /** No check takes longer than `longest` from its question to its decision. */
  ghost predicate Within<C>(config: Config, history: History<C>, trace: seq<Event>, longest: int) {
    forall k :: 0 <= k < |trace| ==> InTime(Run(config, history, trace[..k]), trace[k], longest)
  }

  lemma WithinPrefix<C>(config: Config, history: History<C>, trace: seq<Event>, longest: int)
    requires Within(config, history, trace, longest) && trace != []
    ensures Within(config, history, trace[..|trace| - 1], longest)
    ensures InTime(Run(config, history, trace[..|trace| - 1]), trace[|trace| - 1], longest)
  {
    var before := trace[..|trace| - 1];
    forall k | 0 <= k < |before| ensures InTime(Run(config, history, before[..k]), before[k], longest) {
      assert before[..k] == trace[..k];
    }
  }

  // ---------- every step keeps it ----------

  lemma AskKeeps<C(!new)>(config: Config, history: History<C>, s: State<C>, e: Event, longest: int, before: int)
    requires Sound(config, history, s, longest, before) && e.Ask? && ':' !in e.userId && before <= e.now
    ensures Sound(config, history, AskStep(config, history, s, e), longest, e.now)
  {
    hide CacheKey, TimeToLive, AnswerFrom, StoredSet, ProfilesOf;
    var s' := AskStep(config, history, s, e);
    assert EntryOk(config, history, s, longest, before, e.userId, e.objectName, e.action);
    forall u: string, o: string, a: Action | ':' !in u ensures EntryOk(config, history, s', longest, e.now, u, o, a) {
      assert EntryOk(config, history, s, longest, before, u, o, a);
    }
    forall i | 0 <= i < |s'.given| ensures GivenOk(config, history, s', longest, s'.given[i]) {
      if i < |s.given| { assert GivenOk(config, history, s, longest, s.given[i]); }
    }
    forall i | 0 <= i < |s'.pending| ensures CheckOk(config, history, s', s'.pending[i], e.now) {
      if i < |s.pending| { assert CheckOk(config, history, s, s.pending[i], before); }
    }
  }

  lemma FetchKeeps<C(!new)>(
    config: Config, history: History<C>, s: State<C>, i: nat, now: int, longest: int, before: int)
    requires Sound(config, history, s, longest, before) && before <= now
    ensures Sound(config, history, FetchStep(history, s, i, now), longest, now)
  {
    hide CacheKey, TimeToLive, AnswerFrom, StoredSet, ProfilesOf;
    var s' := FetchStep(history, s, i, now);
    forall u: string, o: string, a: Action | ':' !in u ensures EntryOk(config, history, s', longest, now, u, o, a) {
      assert EntryOk(config, history, s, longest, before, u, o, a);
    }
    forall k | 0 <= k < |s'.pending| ensures CheckOk(config, history, s', s'.pending[k], now) {
      assert CheckOk(config, history, s, s.pending[k], before);
    }
    forall k | 0 <= k < |s'.given| ensures GivenOk(config, history, s', longest, s'.given[k]) {
      assert GivenOk(config, history, s, longest, s.given[k]);
    }
  }

  lemma PendingWithout<C>(config: Config, history: History<C>, s: State<C>, s': State<C>, i: nat, before: int, now: int)
    requires forall k :: 0 <= k < |s.pending| ==> CheckOk(config, history, s, s.pending[k], before)
    requires i < |s.pending| && s'.pending == Without(s.pending, i) && s'.asked == s.asked && before <= now
    ensures forall k :: 0 <= k < |s'.pending| ==> CheckOk(config, history, s', s'.pending[k], now)
  {
    forall k | 0 <= k < |s'.pending| ensures CheckOk(config, history, s', s'.pending[k], now) {
      assert s'.pending[k] == s.pending[if k < i then k else k + 1];
    }
  }

  lemma DecideKeeps<C(!new)>(
    config: Config, history: History<C>, s: State<C>, i: nat, now: int, longest: int, before: int)
    requires Sound(config, history, s, longest, before) && before <= now && InTime(s, Decide(i, now), longest)
    ensures Sound(config, history, DecideStep(config, s, i, now), longest, now)
  {
    hide CacheKey, TimeToLive, StoredSet, ProfilesOf, Evaluate, Without;
    var s' := DecideStep(config, s, i, now);
    if i < |s.pending| && s.pending[i].stage.Fetched? {
      var c := s.pending[i];
      assert CheckOk(config, history, s, c, before);
      PendingWithout(config, history, s, s', i, before, now);
      forall u: string, o: string, a: Action | ':' !in u ensures EntryOk(config, history, s', longest, now, u, o, a) {
        assert EntryOk(config, history, s, longest, before, u, o, a);
        if CacheKey(u, o, a) == CacheKey(c.userId, c.objectName, c.action) {
          KeysAreDistinct(u, o, a, c.userId, c.objectName, c.action);
        }
      }
      forall k | 0 <= k < |s'.given| ensures GivenOk(config, history, s', longest, s'.given[k]) {
        if k < |s.given| { assert GivenOk(config, history, s, longest, s.given[k]); }
      }
    } else {
      SoundLater(config, history, s, s, longest, before, now);
    }
  }

  /** Time may pass and entries may go. */
  lemma SoundLater<C(!new)>(
    config: Config, history: History<C>, s: State<C>, s': State<C>, longest: int, before: int, now: int)
    requires Sound(config, history, s, longest, before) && before <= now
    requires s' == s.(cache := s'.cache) && forall k :: k in s'.cache ==> k in s.cache && s'.cache[k] == s.cache[k]
    ensures Sound(config, history, s', longest, now)
  {
    hide CacheKey, TimeToLive, AnswerFrom, StoredSet, ProfilesOf;
    forall u: string, o: string, a: Action | ':' !in u ensures EntryOk(config, history, s', longest, now, u, o, a) {
      assert EntryOk(config, history, s, longest, before, u, o, a);
    }
    forall k | 0 <= k < |s'.pending| ensures CheckOk(config, history, s', s'.pending[k], now) {
      assert CheckOk(config, history, s, s.pending[k], before);
    }
    forall k | 0 <= k < |s'.given| ensures GivenOk(config, history, s', longest, s'.given[k]) {
      assert GivenOk(config, history, s, longest, s.given[k]);
    }
  }

  lemma FailKeeps<C(!new)>(
    config: Config, history: History<C>, s: State<C>, i: nat, longest: int, before: int, now: int)
    requires Sound(config, history, s, longest, before) && before <= now && i < |s.pending|
    ensures Sound(config, history, s.(pending := Without(s.pending, i)), longest, now)
  {
    hide CacheKey, TimeToLive, AnswerFrom, StoredSet, ProfilesOf, Without;
    var s' := s.(pending := Without(s.pending, i));
    PendingWithout(config, history, s, s', i, before, now);
    forall u: string, o: string, a: Action | ':' !in u ensures EntryOk(config, history, s', longest, now, u, o, a) {
      assert EntryOk(config, history, s, longest, before, u, o, a);
    }
    forall k | 0 <= k < |s'.given| ensures GivenOk(config, history, s', longest, s'.given[k]) {
      assert GivenOk(config, history, s, longest, s.given[k]);
    }
  }

  lemma StepKeeps<C(!new)>(config: Config, history: History<C>, s: State<C>, e: Event, longest: int, before: int)
    requires Sound(config, history, s, longest, before) && before <= e.now && InTime(s, e, longest)
    requires e.Ask? ==> ':' !in e.userId
    ensures Sound(config, history, Step(config, history, s, e), longest, e.now)
  {
    hide Sound, OfUser, AskStep, FetchStep, DecideStep, Without, InTime;
    match e
    case Ask(_, _, _, _) => AskKeeps(config, history, s, e, longest, before);
    case Fetch(i, now) => FetchKeeps(config, history, s, i, now, longest, before);
    case Decide(i, now) => DecideKeeps(config, history, s, i, now, longest, before);
    case Fail(i, now) =>
      if i < |s.pending| && s.pending[i].stage.Waiting? {
        FailKeeps(config, history, s, i, longest, before, now);
      } else {
        SoundLater(config, history, s, s, longest, before, now);
      }
    case _ => SoundLater(config, history, s, Step(config, history, s, e), longest, before, e.now);
  }

  lemma {:induction false} AlwaysSound<C(!new)>(
    config: Config, history: History<C>, trace: seq<Event>, longest: int, now: int)
    requires Proper(trace) && NotAfter(trace, now) && Within(config, history, trace, longest)
    ensures Sound(config, history, Run(config, history, trace), longest, now)
  {
    if trace != [] {
      hide Proper, Within, Sound, Step, InTime;
      var n := |trace| - 1;
      ProperPrefix(trace);
      WithinPrefix(config, history, trace, longest);
      AlwaysSound(config, history, trace[..n], longest, trace[n].now);
      StepKeeps(config, history, Run(config, history, trace[..n]), trace[n], longest, trace[n].now);
      assert Sound(config, history, Run(config, history, trace), longest, trace[n].now);
      SoundLater(config, history, Run(config, history, trace), Run(config, history, trace), longest, trace[n].now, now);
    }
  }
}
