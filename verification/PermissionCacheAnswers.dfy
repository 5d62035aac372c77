/** Every check is served once: it is answered as it was asked, or still pending, or its storage call has failed. */
module PermissionCacheAnswers {
  import opened Options
  import opened Permissions
  import opened PermissionKeys
  import opened PermissionCacheModel

  /** The checks asked in a trace, in order. */
  ghost function Asks(trace: seq<Event>): seq<Event> {
    if trace == [] then []
    else
      Asks(trace[..|trace| - 1]) + if trace[|trace| - 1].Ask? then [trace[|trace| - 1]] else []
  }

  /** How many checks have failed for their storage. */
  ghost function Failed<C>(config: Config, history: History<C>, trace: seq<Event>): nat {
    if trace == [] then 0
    else
      var (before, e) := (trace[..|trace| - 1], trace[|trace| - 1]);
      Failed(config, history, before) + if Fails(Run(config, history, before), e) then 1 else 0
  }

  ghost predicate Fails<C>(s: State<C>, e: Event) {
    e.Fail? && e.check < |s.pending| && s.pending[e.check].stage.Waiting?
  }

  ghost predicate IsAsked(asks: seq<Event>, serial: nat, userId: string, objectName: string, action: Action) {
    && serial < |asks| && asks[serial].Ask?
    && asks[serial].userId == userId && asks[serial].objectName == objectName && asks[serial].action == action
  }

  ghost predicate CheckAsked<C>(asks: seq<Event>, c: Check<C>) {
    IsAsked(asks, c.serial, c.userId, c.objectName, c.action) && asks[c.serial].now == c.asked
  }

  ghost predicate Served<C(!new)>(asks: seq<Event>, s: State<C>) {
    && s.asked == |asks|
    && (forall i :: 0 <= i < |s.given| ==> IsAsked(
          asks, s.given[i].serial, s.given[i].userId, s.given[i].objectName, s.given[i].action))
    && (forall i :: 0 <= i < |s.pending| ==> CheckAsked(asks, s.pending[i]))
  }

  /** No check is answered twice, pending twice, or pending and answered. */
  ghost predicate Once<C>(s: State<C>) {
    && (forall i, j :: 0 <= i < j < |s.given| ==> s.given[i].serial != s.given[j].serial)
    && (forall i, j :: 0 <= i < j < |s.pending| ==> s.pending[i].serial != s.pending[j].serial)
    && (forall i, j :: 0 <= i < |s.given| && 0 <= j < |s.pending| ==> s.given[i].serial != s.pending[j].serial)
  }

  lemma AskServes<C(!new)>(config: Config, history: History<C>, s: State<C>, e: Event, asks: seq<Event>)
    requires e.Ask? && Served(asks, s) && Once(s)
    ensures var s' := AskStep(config, history, s, e);
      Served(asks + [e], s') && Once(s') && |s'.given| + |s'.pending| == |s.given| + |s.pending| + 1
  {
    hide FromCache, CacheKey, ProfilesOf;
    var s' := AskStep(config, history, s, e);
    forall i | 0 <= i < |s.pending| ensures CheckAsked(asks + [e], s.pending[i]) {}
    forall i | 0 <= i < |s.given| ensures s.given[i].serial < |asks| {}
  }

  lemma DecideServes<C(!new)>(config: Config, s: State<C>, i: nat, now: int, asks: seq<Event>)
    requires Served(asks, s) && Once(s)
    ensures var s' := DecideStep(config, s, i, now);
      Served(asks, s') && Once(s') && |s'.given| + |s'.pending| == |s.given| + |s.pending|
  {
    hide CacheKey, Evaluate, WithEntry;
    if i < |s.pending| { assert CheckAsked(asks, s.pending[i]); }
  }

  lemma RestServes<C(!new)>(config: Config, history: History<C>, s: State<C>, e: Event, asks: seq<Event>)
    requires !e.Ask? && !e.Decide? && Served(asks, s) && Once(s)
    ensures var s' := Step(config, history, s, e);
      Served(asks, s') && Once(s')
      && |s'.given| + |s'.pending| + (if Fails(s, e) then 1 else 0) == |s.given| + |s.pending|
  {
    hide StoredSet, WithoutUser;
    if e.Fetch? && e.check < |s.pending| { assert CheckAsked(asks, s.pending[e.check]); }
  }

  lemma StepServes<C(!new)>(config: Config, history: History<C>, s: State<C>, e: Event, asks: seq<Event>)
    requires Served(asks, s) && Once(s)
    ensures var s' := Step(config, history, s, e);
      && Served(asks + if e.Ask? then [e] else [], s') && Once(s')
      && |s'.given| + |s'.pending| + (if Fails(s, e) then 1 else 0)
           == |s.given| + |s.pending| + if e.Ask? then 1 else 0
  {
    hide Served, Once, AskStep, DecideStep, FetchStep, WithoutUser, Without;
    assert asks + [] == asks;
    match e
    case Ask(_, _, _, _) => AskServes(config, history, s, e, asks);
    case Decide(i, now) => DecideServes(config, s, i, now, asks);
    case _ => RestServes(config, history, s, e, asks);
  }

  /**
   After any events every answer and every pending check is one that was asked, about the same user, object and
   action; none is answered twice; and those that are neither answered nor pending are those that have failed.
   */
  lemma {:induction false} ServedOnce<C(!new)>(config: Config, history: History<C>, trace: seq<Event>)
    ensures var s := Run(config, history, trace);
      && Served(Asks(trace), s) && Once(s)
      && |s.given| + |s.pending| + Failed(config, history, trace) == |Asks(trace)|
  {
    hide Served, Once, Step, Fails;
    if trace == [] {
      EmptyServes<C>();
    } else {
      var (before, e) := (trace[..|trace| - 1], trace[|trace| - 1]);
      ServedOnce(config, history, before);
      StepServes(config, history, Run(config, history, before), e, Asks(before));
    }
  }

  lemma EmptyServes<C(!new)>()
    ensures Served([], Initial<C>()) && Once(Initial<C>())
  {
  }

  /** A minute when no time to live is configured. */
  ghost predicate StillFresh(config: Config, timestamp: int, now: int) {
    if config.cacheTTL == 0 then now - timestamp <= 60 * 1000 else now - timestamp <= config.cacheTTL
  }

  /** A check is answered at once exactly from a fresh entry under its key, and waits for its set otherwise. */
  lemma AnsweredAtOnceIff<C>(config: Config, history: History<C>, s: State<C>, e: Event)
    requires e.Ask?
    ensures var key := CacheKey(e.userId, e.objectName, e.action);
      var s' := Step(config, history, s, e);
      if config.enableCache && key in s.cache && StillFresh(config, s.cache[key].timestamp, e.now) then
        && s'.pending == s.pending && s'.cache == s.cache && |s'.given| == |s.given| + 1
        && s'.given[..|s.given|] == s.given && s'.given[|s.given|].result == s.cache[key].result
      else
        && s'.given == s.given && |s'.pending| == |s.pending| + 1 && s'.pending[..|s.pending|] == s.pending
        && s'.pending[|s.pending|].stage == Waiting
        && s'.pending[|s.pending|].profiles == ProfilesOf(history(e.now), e.userId)
  {
    hide CacheKey, ProfilesOf;
  }
}
