/** The promises of the permission cache: how old an answer can be, and exactly when a clear is complete. */
module PermissionCacheTheorems {
  import opened Permissions
  import opened PermissionKeys
  import opened PermissionCacheModel
  import opened PermissionCacheLaws

  // ---------- how old an answer can be ----------

  /** How long the check took that the event decides, if it decides one. */
  function Took<C>(s: State<C>, e: Event): int {
    if e.Decide? && e.check < |s.pending| then e.now - s.pending[e.check].asked else 0
  }

  /** The longest time from question to decision in a trace. */
  function Longest<C>(config: Config, history: History<C>, trace: seq<Event>): (d: int)
    ensures d >= 0
  {
    if trace == [] then 0
    else
      var before := trace[..|trace| - 1];
      var d := Longest(config, history, before);
      var last := Took(Run(config, history, before), trace[|trace| - 1]);
      if last > d then last else d
  }

  lemma {:induction false} WithinLongest<C>(config: Config, history: History<C>, trace: seq<Event>)
    ensures Within(config, history, trace, Longest(config, history, trace))
  {
    hide Run;
    if trace != [] {
      var n := |trace| - 1;
      WithinLongest(config, history, trace[..n]);
      var longest := Longest(config, history, trace);
      assert InTime(Run(config, history, trace[..n]), trace[n], longest);
      assert Longest(config, history, trace[..n]) <= longest;
      hide InTime, Longest;
      forall k | 0 <= k < |trace| ensures InTime(Run(config, history, trace[..k]), trace[k], longest) {
        if k < n {
          assert trace[..n][..k] == trace[..k];
          InTimeMore(Run(config, history, trace[..k]), trace[k], Longest(config, history, trace[..n]), longest);
        }
      }
    }
  }

  lemma InTimeMore<C>(s: State<C>, e: Event, longest: int, more: int)
    requires InTime(s, e, longest) && longest <= more
    ensures InTime(s, e, more)
  {
  }

  function LastTime(trace: seq<Event>): int { if trace == [] then 0 else trace[|trace| - 1].now }

  /** The age an entry of the cache can reach. */
  function MaxAge(config: Config): int {
    if config.enableCache && TimeToLive(config) > 0 then TimeToLive(config) else 0
  }

  /**
   Whatever was asked, changed and cleared meanwhile, an answer is the right one for the permission set and the
   profiles of two moments, neither older than the time to live plus the longest time a check took.
   */
  lemma AnswersAreRecent<C(!new)>(config: Config, history: History<C>, trace: seq<Event>, i: nat)
    requires Proper(trace) && i < |Run(config, history, trace).given|
    ensures var g := Run(config, history, trace).given[i];
      && g.result == AnswerFrom(config, history, g.origin, g.userId, g.objectName, g.action)
      && g.origin.asked <= g.origin.fetched <= g.at
      && g.at - g.origin.asked <= MaxAge(config) + Longest(config, history, trace)
  {
    hide Proper, Within, Run, AnswerFrom, TimeToLive;
    var longest := Longest(config, history, trace);
    WithinLongest(config, history, trace);
    assert NotAfter(trace, LastTime(trace));
    AlwaysSound(config, history, trace, longest, LastTime(trace));
    assert GivenOk(config, history, Run(config, history, trace), longest, Run(config, history, trace).given[i]);
  }

  /** While nothing stored changes, every answer of every interleaving equals the recomputed one. */
  lemma CachedEqualsRecomputed<C(!new)>(config: Config, w: World<C>, trace: seq<Event>, i: nat)
    requires Proper(trace) && i < |Run(config, t => w, trace).given|
    ensures var g := Run(config, t => w, trace).given[i];
      g.result == Answer(config, w, g.userId, g.objectName, g.action)
  {
    hide Run, Proper, Longest;
    AnswersAreRecent(config, t => w, trace, i);
  }

  function SlowCheck(u: string, o: string, a: Action, longest: int, age: int): seq<Event> {
    [Ask(u, o, a, 0), Fetch(0, 0), Decide(0, longest), Ask(u, o, a, longest + age)]
  }

  lemma RunFour<C>(config: Config, history: History<C>, a: Event, b: Event, c: Event, d: Event)
    ensures var s3 := Step(config, history, Step(config, history, Step(config, history, Initial(), a), b), c);
      && Run(config, history, [a, b, c]) == s3 && Run(config, history, [a, b, c, d]) == Step(config, history, s3, d)
  {
    hide Step;
    assert Run(config, history, []) == Initial();
    RunSnoc(config, history, [], a);
    RunSnoc(config, history, [a], b);
    RunSnoc(config, history, [a, b], c);
    RunSnoc(config, history, [a, b, c], d);
    assert [] + [a] == [a] && [a] + [b] == [a, b] && [a, b] + [c] == [a, b, c] && [a, b, c] + [d] == [a, b, c, d];
  }

  /**
   No smaller bound holds: a check as long as one likes is followed by an answer that is older by the time to
   live.
   */
  lemma BoundIsReached<C(!new)>(config: Config, history: History<C>, u: string, o: string, a: Action, longest: int)
    requires config.enableCache && TimeToLive(config) >= 0 && ':' !in u && longest >= 0
    ensures var trace := SlowCheck(u, o, a, longest, TimeToLive(config));
      && Proper(trace) && |Run(config, history, trace).given| == 2
      && var g := Run(config, history, trace).given[1];
        && g.result == Answer(config, history(0), u, o, a)
        && g.at - g.origin.asked == TimeToLive(config) + longest && g.origin.fetched == 0
  {
    hide CacheKey, TimeToLive, StoredSet, ProfilesOf, Evaluate;
    var trace := SlowCheck(u, o, a, longest, TimeToLive(config));
    RunFour(config, history, trace[0], trace[1], trace[2], trace[3]);
    hide Run;
    var s1 := Step(config, history, Initial(), trace[0]);
    assert s1.pending == [Check(0, u, o, a, ProfilesOf(history(0), u), 0, Waiting)];
    var s2 := Step(config, history, s1, trace[1]);
    assert s2.pending[0].stage == Fetched(StoredSet(history(0), o), 0);
    var s3 := Step(config, history, s2, trace[2]);
    assert s3.cache == map[CacheKey(u, o, a) := CacheEntry(Answer(config, history(0), u, o, a), longest)];
    assert trace == [trace[0], trace[1], trace[2], trace[3]];
  }

  // ---------- when a clear is complete ----------

  ghost predicate Clears(e: Event, u: string) { e.ClearAll? || (e.ClearUser? && e.user == u) }

  /** Every answer to a question of the user from number `n` on was computed by such a check, asked at `t` or later. */
  ghost predicate FreshFor<C>(s: State<C>, u: string, n: nat, t: int) {
    forall i {:trigger s.given[i]} :: 0 <= i < |s.given| && s.given[i].userId == u && s.given[i].serial >= n ==>
      s.given[i].origin.serial >= n && s.given[i].origin.asked >= t
  }

  /** After the clear, whatever follows, the user never gets an answer that was computed for an older question. */
  ghost predicate ClearIsComplete<C(!new)>(
    config: Config, history: History<C>, trace: seq<Event>, e: Event, u: string)
  {
    forall more: seq<Event> :: Proper(trace + [e] + more) ==>
      FreshFor(Run(config, history, trace + [e] + more), u, Run(config, history, trace).asked, e.now)
  }

  ghost predicate HasPending<C>(s: State<C>, u: string) {
    exists i :: 0 <= i < |s.pending| && s.pending[i].userId == u
  }

  /** The cache answers at all: it is on and its time to live is not negative. */
  ghost predicate Remembers(config: Config) { config.enableCache && TimeToLive(config) >= 0 }

  ghost predicate FreshInv<C(!new)>(config: Config, s: State<C>, u: string, n: nat, t: int) {
    && n <= s.asked && FreshFor(s, u, n, t)
    && (forall i {:trigger s.pending[i]} :: 0 <= i < |s.pending| && s.pending[i].userId == u ==>
          (s.pending[i].serial >= n ==> s.pending[i].asked >= t) && (Remembers(config) ==> s.pending[i].serial >= n))
    && (Remembers(config) ==> forall o: string, a: Action :: FreshEntry(s, u, o, a, n, t))
  }

  ghost predicate FreshEntry<C>(s: State<C>, u: string, o: string, a: Action, n: nat, t: int) {
    var key := CacheKey(u, o, a);
    key in s.cache ==> key in s.origins && s.origins[key].serial >= n && s.origins[key].asked >= t
  }

  lemma FreshAsk<C(!new)>(
    config: Config, history: History<C>, s: State<C>, e: Event, u: string, n: nat, t: int, longest: int, before: int)
    requires FreshInv(config, s, u, n, t) && Sound(config, history, s, longest, before) && before <= e.now && t <= e.now
    requires e.Ask? && ':' !in e.userId
    ensures FreshInv(config, AskStep(config, history, s, e), u, n, t)
  {
    hide CacheKey, TimeToLive, ProfilesOf, AnswerFrom, CheckOk, GivenOk;
    var s' := AskStep(config, history, s, e);
    assert EntryOk(config, history, s, longest, before, e.userId, e.objectName, e.action);
    if Remembers(config) {
      assert FreshEntry(s, u, e.objectName, e.action, n, t);
      forall o: string, a: Action ensures FreshEntry(s', u, o, a, n, t) { assert FreshEntry(s, u, o, a, n, t); }
    }
  }

  lemma FreshDecide<C(!new)>(
    config: Config, history: History<C>, s: State<C>, i: nat, now: int, u: string, n: nat,
      t: int, longest: int, before: int)
    requires FreshInv(config, s, u, n, t) && Sound(config, history, s, longest, before) && ':' !in u
    ensures FreshInv(config, DecideStep(config, s, i, now), u, n, t)
  {
    hide CacheKey, TimeToLive, ProfilesOf, AnswerFrom, GivenOk, EntryOk, Evaluate;
    var s' := DecideStep(config, s, i, now);
    if i < |s.pending| && s.pending[i].stage.Fetched? {
      var c := s.pending[i];
      assert CheckOk(config, history, s, c, before);
      if Remembers(config) {
        forall o: string, a: Action ensures FreshEntry(s', u, o, a, n, t) {
          assert FreshEntry(s, u, o, a, n, t);
          if CacheKey(u, o, a) == CacheKey(c.userId, c.objectName, c.action) {
            KeysAreDistinct(u, o, a, c.userId, c.objectName, c.action);
          }
        }
      }
      forall k | 0 <= k < |s'.pending| && s'.pending[k].userId == u
        ensures s'.pending[k].serial >= n ==> s'.pending[k].asked >= t
        ensures Remembers(config) ==> s'.pending[k].serial >= n
      {
        assert s'.pending[k] == s.pending[if k < i then k else k + 1];
      }
    }
  }

  lemma FreshRest<C(!new)>(config: Config, history: History<C>, s: State<C>, e: Event, u: string, n: nat, t: int)
    requires FreshInv(config, s, u, n, t) && !e.Ask? && !e.Decide?
    ensures FreshInv(config, Step(config, history, s, e), u, n, t)
  {
    hide CacheKey, TimeToLive, StoredSet, OfUser, Remembers;
    var s' := Step(config, history, s, e);
    if Remembers(config) {
      forall o: string, a: Action ensures FreshEntry(s', u, o, a, n, t) { assert FreshEntry(s, u, o, a, n, t); }
    }
    forall k | 0 <= k < |s'.pending| && s'.pending[k].userId == u
      ensures s'.pending[k].serial >= n ==> s'.pending[k].asked >= t
      ensures Remembers(config) ==> s'.pending[k].serial >= n
    {
      var j := if e.Fail? && s' != s && k >= e.check then k + 1 else k;
      assert s.pending[j].serial == s'.pending[k].serial && s.pending[j].userId == u;
    }
  }

  lemma {:induction false} FreshForever<C(!new)>(
    config: Config, history: History<C>, trace: seq<Event>, m: nat, u: string, n: nat, t: int)
    requires Proper(trace) && 0 < m <= |trace| && ':' !in u && t <= trace[m - 1].now
    requires FreshInv(config, Run(config, history, trace[..m]), u, n, t)
    ensures FreshInv(config, Run(config, history, trace), u, n, t)
    decreases |trace|
  {
    hide FreshInv, Within, Sound, Longest, Step;
    if m == |trace| {
      assert trace[..m] == trace;
    } else {
      var k := |trace| - 1;
      var longest := Longest(config, history, trace[..k]);
      PrefixKeeps(trace, m);
      ProperPrefix(trace);
      hide Proper;
      FreshForever(config, history, trace[..k], m, u, n, t);
      WithinLongest(config, history, trace[..k]);
      AlwaysSound(config, history, trace[..k], longest, trace[k].now);
      FreshStep(config, history, Run(config, history, trace[..k]), trace[k], u, n, t, longest);
    }
  }

  lemma PrefixKeeps(trace: seq<Event>, m: nat)
    requires Proper(trace) && 0 < m < |trace|
    ensures var before := trace[..|trace| - 1];
      before[..m] == trace[..m] && before[m - 1] == trace[m - 1] && trace[m - 1].now <= trace[|trace| - 1].now
  {
  }

  lemma FreshStep<C(!new)>(
    config: Config, history: History<C>, s: State<C>, e: Event, u: string, n: nat, t: int, longest: int)
    requires FreshInv(config, s, u, n, t) && Sound(config, history, s, longest, e.now) && t <= e.now && ':' !in u
    requires e.Ask? ==> ':' !in e.userId
    ensures FreshInv(config, Step(config, history, s, e), u, n, t)
  {
    hide FreshInv, Sound, AskStep, DecideStep;
    match e
    case Ask(_, _, _, _) => FreshAsk(config, history, s, e, u, n, t, longest, e.now);
    case Decide(i, now) => FreshDecide(config, history, s, i, now, u, n, t, longest, now);
    case _ => FreshRest(config, history, s, e, u, n, t);
  }

  /** Right after the clear. */
  lemma FreshStart<C(!new)>(config: Config, history: History<C>, s: State<C>, e: Event, u: string, longest: int)
    requires Sound(config, history, s, longest, e.now) && Clears(e, u) && ':' !in u
    requires !Remembers(config) || !HasPending(s, u)
    ensures FreshInv(config, Step(config, history, s, e), u, s.asked, e.now)
  {
    hide CacheKey, TimeToLive, OfUser, EntryOk, AnswerFrom;
    var s' := Step(config, history, s, e);
    forall i | 0 <= i < |s.pending| && s.pending[i].userId == u
      ensures s.pending[i].serial < s.asked && !Remembers(config)
    {
      assert CheckOk(config, history, s, s.pending[i], e.now);
    }
    forall i | 0 <= i < |s.given| ensures s.given[i].serial < s.asked {
      assert GivenOk(config, history, s, longest, s.given[i]);
    }
    forall o: string, a: Action ensures CacheKey(u, o, a) !in s'.cache { PrefixIsUser(u, o, a, u); }
  }

  /** A check that was waiting when the user was cleared resumes, and its answer is served to the next question. */
  lemma PendingOutlivesClear<C(!new)>(
    config: Config, history: History<C>, s: State<C>, i: nat, e: Event, longest: int) returns (more: seq<Event>)
    requires Sound(config, history, s, longest, e.now) && i < |s.pending| && Remembers(config)
    requires Clears(e, s.pending[i].userId)
    ensures forall k :: 0 <= k < |more| ==>
        more[k].now == e.now && (more[k].Ask? ==> more[k].userId == s.pending[i].userId)
    ensures |more| == 3
    ensures var s' := Step(config, history, s, e);
      !FreshFor(Step(config, history, Step(config, history, Step(config, history, s', more[0]), more[1]), more[2]),
                s.pending[i].userId, s.asked, e.now)
  {
    hide CacheKey, OfUser, EntryOk, AnswerFrom, GivenOk, StoredSet, ProfilesOf, Evaluate;
    var c := s.pending[i];
    assert CheckOk(config, history, s, c, e.now);
    var s0 := Step(config, history, s, e);
    assert s0.pending == s.pending && s0.asked == s.asked;
    var e1, e2, e3 := Fetch(i, e.now), Decide(i, e.now), Ask(c.userId, c.objectName, c.action, e.now);
    more := [e1, e2, e3];
    var s1 := FetchStep(history, s0, i, e.now);
    assert s1.pending[i].stage.Fetched? && s1.pending[i].(stage := c.stage) == c;
    var s2 := DecideStep(config, s1, i, e.now);
    var key := CacheKey(c.userId, c.objectName, c.action);
    assert key in s2.cache && s2.cache[key].timestamp == e.now && s2.origins[key].serial == c.serial;
    var s3 := AskStep(config, history, s2, e3);
    assert s3.given[|s2.given|].serial == s.asked && s3.given[|s2.given|].origin.serial == c.serial;
    assert |s3.given| == |s2.given| + 1;
  }

  lemma RunThree<C>(config: Config, history: History<C>, trace: seq<Event>, more: seq<Event>)
    requires |more| == 3
    ensures Run(config, history, trace + more)
         == Step(config, history, Step(config, history, Step(config, history, Run(config, history, trace), more[0]),
             more[1]), more[2])
  {
    hide Step;
    RunSnoc(config, history, trace, more[0]);
    RunSnoc(config, history, trace + [more[0]], more[1]);
    RunSnoc(config, history, trace + [more[0]] + [more[1]], more[2]);
    assert trace + more == trace + [more[0]] + [more[1]] + [more[2]];
  }

  /**
   Clearing a user, or everything, is complete for the user exactly when no check of the user is waiting for its
   permission set at that moment, or the cache never answers anyway.
   */
  lemma ClearIsCompleteIff<C(!new)>(config: Config, history: History<C>, trace: seq<Event>, e: Event, u: string)
    requires Proper(trace + [e]) && Clears(e, u) && ':' !in u
    ensures ClearIsComplete(config, history, trace, e, u)
      <==> !Remembers(config) || !HasPending(Run(config, history, trace), u)
  {
    var s := Run(config, history, trace);
    assert (trace + [e])[..|trace|] == trace;
    ProperPrefix(trace + [e]);
    var longest := Longest(config, history, trace);
    WithinLongest(config, history, trace);
    hide Sound, Longest, Within, Step, FreshFor, Run;
    AlwaysSound(config, history, trace, longest, e.now);
    if !Remembers(config) || !HasPending(s, u) {
      forall more: seq<Event> | Proper(trace + [e] + more)
        ensures FreshFor(Run(config, history, trace + [e] + more), u, s.asked, e.now)
      {
        FreshStart(config, history, s, e, u, longest);
        RunSnoc(config, history, trace, e);
        var all := trace + [e] + more;
        assert all[..|trace| + 1] == trace + [e] && all[|trace|] == e;
        FreshForever(config, history, all, |trace| + 1, u, s.asked, e.now);
      }
    } else {
      var i :| 0 <= i < |s.pending| && s.pending[i].userId == u;
      var more := PendingOutlivesClear(config, history, s, i, e, longest);
      RunSnoc(config, history, trace, e);
      RunThree(config, history, trace + [e], more);
      ProperMore(trace + [e], more, e.now);
      assert !FreshFor(Run(config, history, trace + [e] + more), u, s.asked, e.now);
    }
  }

  lemma ProperMore(trace: seq<Event>, more: seq<Event>, now: int)
    requires Proper(trace) && trace != [] && trace[|trace| - 1].now == now
    requires forall k :: 0 <= k < |more| ==> more[k].now == now && (more[k].Ask? ==> ':' !in more[k].userId)
    ensures Proper(trace + more)
  {
  }

  /** Clearing one user leaves the entries of all others as they are. */
  lemma ClearKeepsOthers<C>(cache: Cache<C>, cleared: string, userId: string, objectName: string, action: Action)
    requires ':' !in cleared && ':' !in userId && userId != cleared
    ensures var key := CacheKey(userId, objectName, action);
      && (key in WithoutUser(cache, cleared) <==> key in cache)
      && (key in cache ==> WithoutUser(cache, cleared)[key] == cache[key])
  {
    hide CacheKey, OfUser;
    PrefixIsUser(userId, objectName, action, cleared);
  }
}
