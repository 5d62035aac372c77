/**
 The request limiter: one fixed window per key, opened by the first request after the previous window ended.
 The bounds below are over arbitrary time intervals, which no single window is aligned with.
 */
module RateLimit {

  datatype WindowEntry = WindowEntry(count: int, resetAt: int)

  datatype Config = Config(windowMs: int, maxRequests: int) {
    /** The request that opens a window always passes. */
    function PerWindow(): int { if maxRequests < 1 then 1 else maxRequests }
  }

  type Store = map<string, WindowEntry>

  /** What one request does to the table, and whether it passes. */
  function Decide(cfg: Config, store: Store, key: string, now: int): (Store, bool) {
    if key !in store || now > store[key].resetAt then (store[key := WindowEntry(1, now + cfg.windowMs)], true)
    else if store[key].count >= cfg.maxRequests then (store, false)
    else (store[key := store[key].(count := store[key].count + 1)], true)
  }

  function Swept(store: Store, now: int): Store {
    map key | key in store && now <= store[key].resetAt :: store[key]
  }

  class RateLimiter {
    var store: Store
    const cfg: Config

    constructor (cfg: Config)
      ensures store == map[] && this.cfg == cfg
    {
      this.cfg, store := cfg, map[];
    }

    method Request(key: string, now: int) returns (accepted: bool)
      modifies this
      ensures (store, accepted) == Decide(cfg, old(store), key, now)
    {
      if key !in store || now > store[key].resetAt {
        store := store[key := WindowEntry(1, now + cfg.windowMs)];
      } else if store[key].count >= cfg.maxRequests {
        return false;
      } else {
        store := store[key := store[key].(count := store[key].count + 1)];
      }
      return true;
    }

    /** The timer's sweep visits the keys in some order. */
    method Cleanup(now: int)
      modifies this
      ensures store == Swept(old(store), now)
    {
      var unseen := store.Keys;
      while unseen != {}
        invariant unseen <= store.Keys <= old(store).Keys
        invariant forall key :: key in old(store) ==>
          (key in store <==> key in unseen || now <= old(store)[key].resetAt)
            && (key in store ==> store[key] == old(store)[key])
        decreases unseen
      {
        var key :| key in unseen;
        unseen := unseen - {key};
        if now > store[key].resetAt {
          store := store - {key};
        }
      }
    }
  }

  // ---------- runs ----------

  datatype Event = Request(key: string, now: int) | Cleanup(now: int)

  ghost predicate Monotone(trace: seq<Event>) {
    forall i, j :: 0 <= i < j < |trace| ==> trace[i].now <= trace[j].now
  }

  function Run(cfg: Config, trace: seq<Event>): Store {
    if trace == [] then map[]
    else
      var before := Run(cfg, trace[..|trace| - 1]);
      match trace[|trace| - 1]
      case Request(key, now) => Decide(cfg, before, key, now).0
      case Cleanup(now) => Swept(before, now)
  }

  /** Whether event number `i` is an accepted request of the key. */
  predicate Accepted(cfg: Config, trace: seq<Event>, i: nat, key: string)
    requires i < |trace|
  {
    trace[i].Request? && trace[i].key == key && Decide(cfg, Run(cfg, trace[..i]), key, trace[i].now).1
  }

  /** How many accepted requests of the key fall between two times, ends included. */
  function AcceptedBetween(cfg: Config, trace: seq<Event>, key: string, a: int, b: int): nat {
    if trace == [] then 0
    else
      var n := |trace| - 1;
      AcceptedBetween(cfg, trace[..n], key, a, b) +
      if Accepted(cfg, trace, n, key) && a <= trace[n].now <= b then 1 else 0
  }

  function WithoutCleanups(trace: seq<Event>): seq<Event> {
    if trace == [] then []
    else
      var rest := WithoutCleanups(trace[..|trace| - 1]);
      if trace[|trace| - 1].Cleanup? then rest else rest + [trace[|trace| - 1]]
  }

  // ---------- the cleanup timer changes nothing ----------

  /** The swept table lacks only windows that are over. */
  ghost predicate Equivalent(swept: Store, full: Store, now: int) {
    && (forall key :: key in swept ==> key in full && full[key] == swept[key])
    && (forall key :: key in full && key !in swept ==> full[key].resetAt < now)
  }

  lemma SameDecision(cfg: Config, swept: Store, full: Store, key: string, now: int)
    requires Equivalent(swept, full, now)
    ensures Decide(cfg, swept, key, now).1 == Decide(cfg, full, key, now).1
    ensures Equivalent(Decide(cfg, swept, key, now).0, Decide(cfg, full, key, now).0, now)
  {
  }

  function LastTime(trace: seq<Event>): int
    requires trace != []
  {
    trace[|trace| - 1].now
  }

  lemma {:induction false} CleanupEquivalence(cfg: Config, trace: seq<Event>, now: int)
    requires Monotone(trace) && (trace != [] ==> LastTime(trace) <= now)
    ensures Equivalent(Run(cfg, trace), Run(cfg, WithoutCleanups(trace)), now)
  {
    if trace != [] {
      var n := |trace| - 1;
      CleanupEquivalence(cfg, trace[..n], LastTime(trace));
      var rest := WithoutCleanups(trace[..n]);
      if trace[n].Request? {
        SameDecision(cfg, Run(cfg, trace[..n]), Run(cfg, rest), trace[n].key, trace[n].now);
        assert (rest + [trace[n]])[..|rest|] == rest;
      }
    }
  }

  lemma {:induction false} WithoutCleanupsPrefix(trace: seq<Event>, i: nat)
    requires i <= |trace|
    ensures var (some, all) := (WithoutCleanups(trace[..i]), WithoutCleanups(trace));
      |some| <= |all| && all[..|some|] == some
  {
    if i < |trace| {
      var n := |trace| - 1;
      WithoutCleanupsPrefix(trace[..n], i);
      assert trace[..n][..i] == trace[..i];
    } else {
      assert trace[..i] == trace;
    }
  }

  /** Each request is decided as the same request of the run without the timer's sweeps. */
  lemma SameRequestSameDecision(cfg: Config, trace: seq<Event>, i: nat)
    requires Monotone(trace) && i < |trace| && trace[i].Request?
    ensures var (quiet, j) := (WithoutCleanups(trace), |WithoutCleanups(trace[..i])|);
      && j < |quiet| && quiet[j] == trace[i]
      && (Accepted(cfg, trace, i, trace[i].key) <==> Accepted(cfg, quiet, j, trace[i].key))
  {
    hide Run, Decide;
    var before := WithoutCleanups(trace[..i]);
    assert trace[..i + 1][..i] == trace[..i];
    WithoutCleanupsPrefix(trace, i + 1);
    assert WithoutCleanups(trace)[..|before| + 1] == before + [trace[i]];
    assert WithoutCleanups(trace)[..|before|] == before;
    CleanupEquivalence(cfg, trace[..i], trace[i].now);
    SameDecision(cfg, Run(cfg, trace[..i]), Run(cfg, before), trace[i].key, trace[i].now);
  }

  lemma AcceptedSnoc(cfg: Config, trace: seq<Event>, e: Event, key: string, a: int, b: int)
    ensures AcceptedBetween(cfg, trace + [e], key, a, b) == AcceptedBetween(cfg, trace, key, a, b) +
      if e.Request? && e.key == key && Decide(cfg, Run(cfg, trace), key, e.now).1 && a <= e.now <= b then 1 else 0
  {
    hide Run, Decide;
    var all := trace + [e];
    assert all[..|trace|] == trace && all[|trace|] == e;
  }

  /** Runs with and without the timer accept the same requests, whichever key and interval one looks at. */
  lemma {:induction false} CleanupIsInvisible(cfg: Config, trace: seq<Event>, key: string, a: int, b: int)
    requires Monotone(trace)
    ensures AcceptedBetween(cfg, trace, key, a, b) == AcceptedBetween(cfg, WithoutCleanups(trace), key, a, b)
  {
    if trace != [] {
      var n := |trace| - 1;
      var (before, e) := (trace[..n], trace[n]);
      var rest := WithoutCleanups(before);
      assert trace == before + [e] && WithoutCleanups(trace) == if e.Cleanup? then rest else rest + [e];
      hide AcceptedBetween, Run, Decide, WithoutCleanups;
      CleanupIsInvisible(cfg, before, key, a, b);
      AcceptedSnoc(cfg, before, e, key, a, b);
      if e.Request? {
        AcceptedSnoc(cfg, rest, e, key, a, b);
        CleanupEquivalence(cfg, before, e.now);
        SameDecision(cfg, Run(cfg, before), Run(cfg, rest), e.key, e.now);
      }
    }
  }

  // ---------- the bound ----------

  /** What the current window of a key says about the accepted requests of an interval so far. */
  ghost predicate Bounded(cfg: Config, store: Store, key: string, a: int, accepted: nat) {
    var most := cfg.PerWindow();
    if key !in store then accepted == 0
    else
      var start := store[key].resetAt - cfg.windowMs;
      && 1 <= store[key].count <= most
      && (start < a ==> accepted <= store[key].count - 1)
      && (a <= start <= a + cfg.windowMs ==> accepted <= most - 1 + store[key].count)
      && (a + cfg.windowMs < start ==> accepted <= 2 * most - 1)
  }

  lemma {:induction false} BoundedRun(cfg: Config, trace: seq<Event>, key: string, a: int)
    requires Monotone(trace) && forall i :: 0 <= i < |trace| ==> trace[i].Request?
    ensures Bounded(cfg, Run(cfg, trace), key, a, AcceptedBetween(cfg, trace, key, a, a + cfg.windowMs))
    ensures trace != [] && LastTime(trace) < a ==> AcceptedBetween(cfg, trace, key, a, a + cfg.windowMs) == 0
    ensures trace != [] && key in Run(cfg, trace) ==> Run(cfg, trace)[key].resetAt - cfg.windowMs <= LastTime(trace)
  {
    if trace != [] {
      BoundedRun(cfg, trace[..|trace| - 1], key, a);
    }
  }

  lemma {:induction false} WithoutCleanupsFacts(trace: seq<Event>)
    requires Monotone(trace)
    ensures Monotone(WithoutCleanups(trace))
    ensures forall i :: 0 <= i < |WithoutCleanups(trace)| ==> WithoutCleanups(trace)[i].Request?
    ensures trace != [] ==> forall i :: 0 <= i < |WithoutCleanups(trace)| ==>
        WithoutCleanups(trace)[i].now <= LastTime(trace)
  {
    if trace != [] { WithoutCleanupsFacts(trace[..|trace| - 1]); }
  }

  /**
   However an interval of one window length lies, a key has at most 2n - 1 accepted requests in it, where n is
   the number a single window lets through.
   */
  lemma RateBound(cfg: Config, trace: seq<Event>, key: string, a: int)
    requires Monotone(trace)
    ensures AcceptedBetween(cfg, trace, key, a, a + cfg.windowMs) <= 2 * cfg.PerWindow() - 1
  {
    CleanupIsInvisible(cfg, trace, key, a, a + cfg.windowMs);
    WithoutCleanupsFacts(trace);
    BoundedRun(cfg, WithoutCleanups(trace), key, a);
  }

  // ---------- the bound is reached ----------

  function Burst(key: string, at: int, n: nat): seq<Event> {
    seq(n, _ => Request(key, at))
  }

  lemma OneMoreRequest(cfg: Config, trace: seq<Event>, key: string, at: int, a: int, b: int)
    requires key in Run(cfg, trace) && at <= Run(cfg, trace)[key].resetAt
        && Run(cfg, trace)[key].count < cfg.maxRequests
    ensures var longer := trace + [Request(key, at)];
      && key in Run(cfg, longer) && Run(cfg, longer)[key]
           == Run(cfg, trace)[key].(count := Run(cfg, trace)[key].count + 1)
      && AcceptedBetween(cfg, longer, key, a, b)
         == AcceptedBetween(cfg, trace, key, a, b) + if a <= at <= b then 1 else 0
  {
    assert (trace + [Request(key, at)])[..|trace|] == trace;
  }

  /** Requests inside a window that still has room are all accepted. */
  lemma {:induction false} BurstAccepted(cfg: Config, trace: seq<Event>, key: string, at: int, n: nat, a: int, b: int)
    requires var store := Run(cfg, trace);
      key in store && at <= store[key].resetAt && store[key].count + n <= cfg.maxRequests
    ensures var longer := trace + Burst(key, at, n);
      && key in Run(cfg, longer)
      && Run(cfg, longer)[key] == Run(cfg, trace)[key].(count := Run(cfg, trace)[key].count + n)
      && AcceptedBetween(cfg, longer, key, a, b)
         == AcceptedBetween(cfg, trace, key, a, b) + if a <= at <= b then n else 0
  {
    hide Run, AcceptedBetween;
    if n == 0 {
      assert trace + Burst(key, at, 0) == trace;
    } else {
      BurstAccepted(cfg, trace, key, at, n - 1, a, b);
      var before := trace + Burst(key, at, n - 1);
      OneMoreRequest(cfg, before, key, at, a, b);
      assert trace + Burst(key, at, n) == before + [Request(key, at)];
    }
  }

  lemma OpeningRequest(cfg: Config, trace: seq<Event>, key: string, at: int, a: int, b: int)
    requires key in Run(cfg, trace) ==> Run(cfg, trace)[key].resetAt < at
    ensures var longer := trace + [Request(key, at)];
      && key in Run(cfg, longer) && Run(cfg, longer)[key] == WindowEntry(1, at + cfg.windowMs)
      && AcceptedBetween(cfg, longer, key, a, b)
         == AcceptedBetween(cfg, trace, key, a, b) + if a <= at <= b then 1 else 0
  {
    assert (trace + [Request(key, at)])[..|trace|] == trace;
  }

  /** No smaller bound holds: every configuration has a run and an interval that reach 2n - 1. */
  lemma RateBoundIsTight(cfg: Config, key: string) returns (trace: seq<Event>)
    requires cfg.maxRequests >= 1 && cfg.windowMs >= 1
    ensures Monotone(trace)
    ensures AcceptedBetween(cfg, trace, key, 1, 1 + cfg.windowMs) == 2 * cfg.PerWindow() - 1
  {
    hide Run, AcceptedBetween;
    var w, n := cfg.windowMs, cfg.maxRequests;
    var first := [Request(key, 0)];
    EmptyRun(cfg, key, 1, 1 + w);
    assert [] + first == first;
    OpeningRequest(cfg, [], key, 0, 1, 1 + w);
    BurstAccepted(cfg, first, key, w, n - 1, 1, 1 + w);
    var window := first + Burst(key, w, n - 1);
    OpeningRequest(cfg, window, key, w + 1, 1, 1 + w);
    var second := window + [Request(key, w + 1)];
    BurstAccepted(cfg, second, key, w + 1, n - 1, 1, 1 + w);
    trace := second + Burst(key, w + 1, n - 1);
    assert forall i :: 0 <= i < |trace| ==> trace[i].now == if i == 0 then 0 else if i < n then w else w + 1;
  }

  lemma EmptyRun(cfg: Config, key: string, a: int, b: int)
    ensures Run(cfg, []) == map[] && AcceptedBetween(cfg, [], key, a, b) == 0
  {
  }
  // ---------- when the window slides ----------

  /** The interval of one window length from `a` on holds no more accepted requests than one window lets through. */
  ghost predicate WithinOne(cfg: Config, trace: seq<Event>, key: string, a: int) {
    AcceptedBetween(cfg, trace, key, a, a + cfg.windowMs) <= cfg.PerWindow()
  }

  ghost predicate Slides(cfg: Config) {
    forall trace: seq<Event>, key: string, a: int :: Monotone(trace) ==> WithinOne(cfg, trace, key, a)
  }

  /** What the window of a key says about one moment when windows have no length. */
  ghost predicate Momentary(cfg: Config, store: Store, key: string, a: int, accepted: nat) {
    if key !in store || store[key].resetAt < a then accepted == 0
    else if store[key].resetAt == a then accepted <= store[key].count <= cfg.PerWindow()
    else accepted <= cfg.PerWindow()
  }

  lemma {:induction false} MomentaryRun(cfg: Config, trace: seq<Event>, key: string, a: int)
    requires cfg.windowMs == 0 && Monotone(trace) && forall i :: 0 <= i < |trace| ==> trace[i].Request?
    ensures Momentary(cfg, Run(cfg, trace), key, a, AcceptedBetween(cfg, trace, key, a, a))
    ensures trace != [] && key in Run(cfg, trace) ==> Run(cfg, trace)[key].resetAt <= LastTime(trace)
  {
    if trace != [] {
      MomentaryRun(cfg, trace[..|trace| - 1], key, a);
    }
  }

  lemma {:induction false} NothingBetween(cfg: Config, trace: seq<Event>, key: string, a: int, b: int)
    requires b < a
    ensures AcceptedBetween(cfg, trace, key, a, b) == 0
  {
    if trace != [] { NothingBetween(cfg, trace[..|trace| - 1], key, a, b); }
  }

  lemma ShortWindows(cfg: Config, trace: seq<Event>, key: string, a: int)
    requires cfg.windowMs <= 0 && Monotone(trace)
    ensures AcceptedBetween(cfg, trace, key, a, a + cfg.windowMs) <= cfg.PerWindow()
  {
    hide Run, AcceptedBetween;
    if cfg.windowMs < 0 {
      NothingBetween(cfg, trace, key, a, a + cfg.windowMs);
    } else {
      CleanupIsInvisible(cfg, trace, key, a, a);
      WithoutCleanupsFacts(trace);
      MomentaryRun(cfg, WithoutCleanups(trace), key, a);
    }
  }

  /** The window slides, as the limiter's description has it, only if it lets one request through or has no length. */
  lemma SlidesIff(cfg: Config)
    ensures Slides(cfg) <==> cfg.maxRequests <= 1 || cfg.windowMs <= 0
  {
    hide Monotone, AcceptedBetween;
    if cfg.maxRequests <= 1 || cfg.windowMs <= 0 {
      forall trace: seq<Event>, key: string, a: int | Monotone(trace) ensures WithinOne(cfg, trace, key, a) {
        if cfg.windowMs <= 0 { ShortWindows(cfg, trace, key, a); } else { RateBound(cfg, trace, key, a); }
      }
    } else {
      var trace := RateBoundIsTight(cfg, "key");
      assert !WithinOne(cfg, trace, "key", 1);
    }
  }

  // ---------- one key by itself ----------

  /** The window of a key: when it was opened, and how many requests have passed in it. */
  datatype Window = Never | Opened(since: int, passed: nat)

  ghost predicate IsOpen(cfg: Config, w: Window, now: int) { w.Opened? && now <= w.since + cfg.windowMs }

  ghost predicate HasRoom(cfg: Config, w: Window, now: int) { !IsOpen(cfg, w, now) || w.passed < cfg.maxRequests }

  /** Told from the requests of the key alone: no table, no other keys, no cleanups. */
  ghost function WindowOf(cfg: Config, trace: seq<Event>, key: string): Window {
    if trace == [] then Never
    else
      var (w, e) := (WindowOf(cfg, trace[..|trace| - 1], key), trace[|trace| - 1]);
      if e.Cleanup? || e.key != key then w
      else if !IsOpen(cfg, w, e.now) then Opened(e.now, 1)
      else if HasRoom(cfg, w, e.now) then w.(passed := w.passed + 1)
      else w
  }

  /** The table holds the window, or has lost one that is over. */
  ghost predicate HoldsWindow(cfg: Config, store: Store, key: string, w: Window, now: int) {
    if key in store then w.Opened? && store[key] == WindowEntry(w.passed, w.since + cfg.windowMs)
    else !IsOpen(cfg, w, now)
  }

  lemma {:induction false} StoreHoldsWindow(cfg: Config, trace: seq<Event>, key: string, now: int)
    requires Monotone(trace) && (trace != [] ==> LastTime(trace) <= now)
    ensures HoldsWindow(cfg, Run(cfg, trace), key, WindowOf(cfg, trace, key), now)
  {
    if trace != [] {
      StoreHoldsWindow(cfg, trace[..|trace| - 1], key, LastTime(trace));
    }
  }

  /** A request passes exactly when the window of its key is over or has room; nothing else matters. */
  lemma AcceptedIff(cfg: Config, trace: seq<Event>, key: string, now: int)
    requires Monotone(trace) && (trace != [] ==> LastTime(trace) <= now)
    ensures Decide(cfg, Run(cfg, trace), key, now).1 <==> HasRoom(cfg, WindowOf(cfg, trace, key), now)
  {
    StoreHoldsWindow(cfg, trace, key, now);
    hide Run, WindowOf;
  }
}
