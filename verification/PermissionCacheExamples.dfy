/** Two short runs in which a cached answer is not the recomputed one. */
module PermissionCacheExamples {
  import opened Options
  import opened Permissions
  import opened PermissionKeys
  import opened PermissionCacheModel
  import opened PermissionCacheLaws
  import opened PermissionCacheTheorems

  const DEFAULTS := Config(true, true, 60000)

  /** A profile that may read every record. */
  const READER: ObjectPermissions<int> := ObjectPermissions(false, true, false, false, None)

  function Readable(objectName: string, user: string): World<int> {
    World(map[objectName := map["reader" := READER]], map[user := ["reader"]])
  }

  const NOTHING: World<int> := World(map[], map[])

  lemma ReaderReads(objectName: string, user: string)
    ensures Answer(DEFAULTS, Readable(objectName, user), user, objectName, Read)
        == CheckResult(true, NotGiven, Unrestricted)
  {
    var permissions := map["reader" := READER];
    var profiles := ["reader"];
    assert Allows(permissions, profiles[0], Read) && !HasFilters(READER);
    assert AnyAllows(permissions, profiles, Read) && AnyUnfiltered(permissions, profiles, Read);
  }

  lemma NobodyReads(objectName: string, user: string)
    ensures !Answer(DEFAULTS, NOTHING, user, objectName, Read).allowed
  {
  }

  /** The one check of a fresh engine, with its permission set at hand. */
  function Held(h: History<int>, u: string, o: string): State<int> {
    State(map[], [Check(0, u, o, Read, ProfilesOf(h(0), u), 0, Fetched(StoredSet(h(0), o), 0))], 1, map[], [])
  }

  lemma AsksAndFetches(h: History<int>, u: string, o: string)
    ensures Step(DEFAULTS, h, Step(DEFAULTS, h, Initial(), Ask(u, o, Read, 0)), Fetch(0, 0)) == Held(h, u, o)
  {
    hide CacheKey, StoredSet, ProfilesOf;
    var s1 := AskStep(DEFAULTS, h, Initial(), Ask(u, o, Read, 0));
    assert s1.pending == [Check(0, u, o, Read, ProfilesOf(h(0), u), 0, Waiting)];
  }

  /** It decides, and the next question with the same key gets its answer. */
  lemma DecidesAndServes(h: History<int>, u: string, o: string, v: string, o': string, now: int)
    requires CacheKey(u, o, Read) == CacheKey(v, o', Read)
    ensures var s := Step(DEFAULTS, h, Step(DEFAULTS, h, Held(h, u, o), Decide(0, now)), Ask(v, o', Read, now));
      && |s.given| == 2 && s.given[1].serial == 1 && s.given[1].at == now
      && s.given[1].userId == v && s.given[1].objectName == o'
           && s.given[1].result == Answer(DEFAULTS, h(0), u, o, Read)
  {
    hide CacheKey, StoredSet, ProfilesOf, Evaluate;
    var s1 := DecideStep(DEFAULTS, Held(h, u, o), 0, now);
    assert s1.cache == map[CacheKey(u, o, Read) := CacheEntry(Answer(DEFAULTS, h(0), u, o, Read), now)];
    assert |s1.given| == 1 && s1.asked == 1;
  }

  /** Readable until time 1, nothing from then on. */
  function Revoked(): History<int> { t => if t < 1 then Readable("doc", "ann") else NOTHING }

  const OUTRUN: seq<Event> :=
    [Ask("ann", "doc", Read, 0), Fetch(0, 0), ClearUser("ann", 1), Decide(0, 1), Ask("ann", "doc", Read, 1)]

  /** The permission goes, the user is cleared, and the next question is still answered with yes. */
  lemma ClearIsOutrun()
    ensures var s := Run(DEFAULTS, Revoked(), OUTRUN);
      && Proper(OUTRUN) && |s.given| == 2 && s.given[1].serial == 1 && s.given[1].at == 1 && s.given[1].result.allowed
      && !Answer(DEFAULTS, Revoked()(1), "ann", "doc", Read).allowed
  {
    hide CacheKey, Evaluate, OfUser, Step, Answer;
    var (a, h) := (OUTRUN, Revoked());
    ReaderReads("doc", "ann");
    NobodyReads("doc", "ann");
    RunFour(DEFAULTS, h, a[0], a[1], a[2], a[3]);
    RunSnoc(DEFAULTS, h, [a[0], a[1], a[2], a[3]], a[4]);
    assert a == [a[0], a[1], a[2], a[3]] + [a[4]];
    hide Run;
    AsksAndFetches(h, "ann", "doc");
    ClearOfNothing(h, Held(h, "ann", "doc"), a[2]);
    DecidesAndServes(h, "ann", "doc", "ann", "doc", 1);
  }

  lemma ClearOfNothing(h: History<int>, s: State<int>, e: Event)
    requires e.ClearUser? && s.cache == map[]
    ensures Step(DEFAULTS, h, s, e) == s
  {
    hide OfUser;
  }

  const SHARED: seq<Event> :=
    [Ask("a", "b:c", Read, 0), Fetch(0, 0), Decide(0, 0), Ask("a:b", "c", Read, 0)]

  /** User `a:b` gets the answer to another user's question about another object. */
  lemma SharedKeyMixesAnswers()
    ensures var w := Readable("b:c", "a"); var s := Run(DEFAULTS, t => w, SHARED);
      && |s.given| == 2 && s.given[1].userId == "a:b" && s.given[1].objectName == "c" && s.given[1].result.allowed
      && !Answer(DEFAULTS, w, "a:b", "c", Read).allowed
  {
    hide CacheKey, Evaluate, Step, Answer;
    var w := Readable("b:c", "a");
    var a := SHARED;
    var h: History<int> := t => w;
    ReaderReads("b:c", "a");
    OthersHaveNone(w);
    SameKey();
    RunFour(DEFAULTS, h, a[0], a[1], a[2], a[3]);
    assert a == [a[0], a[1], a[2], a[3]];
    hide Run;
    AsksAndFetches(h, "a", "b:c");
    DecidesAndServes(h, "a", "b:c", "a:b", "c", 0);
  }

  lemma OthersHaveNone(w: World<int>)
    requires w == Readable("b:c", "a")
    ensures !Answer(DEFAULTS, w, "a:b", "c", Read).allowed
  {
  }

  lemma SameKey()
    ensures CacheKey("a:b", "c", Read) == CacheKey("a", "b:c", Read)
  {
    assert "a" + ":" <= "a:b";
    PrefixShares("a", "a:b", "c", Read);
    assert "a:b"[|"a"| + 1..] == "b" && "b" + (":" + "c") == "b:c";
  }
}
