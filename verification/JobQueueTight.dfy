/** Runs that reach the bound on active jobs, for every limit and every number of loops. */
module JobQueueTight {
  import opened Options
  import opened OrderedMap
  import opened Jobs
  import opened JobQueueModel
  import opened JobQueueSafety

  /** The one urgent job, which may be retried `retries` times. */
  function UrgentWork(retries: nat): JobConfig {
    JobConfig("a", "work", "", Some(Critical), Some(retries), None, None, None)
  }

  function Filler(k: nat): JobConfig { JobConfig(seq(k, _ => 'b'), "work", "", None, None, None, None, None) }

  /** The urgent job is pending after `done` attempts, and no other job is as urgent. */
  ghost predicate Urgent(t: Table, done: nat, retries: nat) {
    && Valid(t) && "a" in t.at && (forall id :: id in t.at && id != "a" ==> !t.at[id].priority.Critical?)
    && var j := t.at["a"];
      j.id == "a" && j.name == "work" && j.status.Pending? && j.priority.Critical? && j.attempts == done
      && j.maxRetries == retries
  }

  lemma UrgentIsNext(t: Table, done: nat, retries: nat)
    requires Urgent(t, done, retries)
    ensures NextPending(t) == Some(t.at["a"])
  {
    hide NextOf;
    var (jobs, a) := (Values(t), t.at["a"]);
    var i :| 0 <= i < |t.order| && t.order[i] == "a";
    assert jobs[i] == a;
    NextIsOldestOfMostUrgent(jobs, a);
    NextOfIsSoonest(jobs);
    var next := NextOf(jobs).value;
    var k :| 0 <= k < |jobs| && jobs[k] == next;
    assert next == t.at[t.order[k]] && t.order[k] in t.at;
  }

  /** `k` loops look for a job, and `m` bodies of earlier attempts have not returned yet. */
  ghost predicate Ready(s: State, k: nat, m: nat, retries: nat) {
    && "work" in s.handlers && s.processing && s.kicks == 0 && s.activeJobs == |s.bodies| == m
    && |s.loops| == k && (forall i :: 0 <= i < k ==> s.loops[i].Idle?) && Urgent(s.jobs, m, retries)
  }

  // ---------- more loops ----------

  lemma UrgentEnqueued(cfg: Config, s: State, retries: nat)
    requires s == Initial.(handlers := {"work"})
    ensures Ready(KickStep(EnqueueStep(cfg, s, UrgentWork(retries), 0)), 1, 0, retries)
  {
    PutValid(s.jobs, "a", NewJob(cfg, UrgentWork(retries), 0));
  }

  lemma FirstLoop(cfg: Config, retries: nat)
    ensures Ready(Run(cfg, [Register("work"), Enqueue(UrgentWork(retries), 0), Kick]), 1, 0, retries)
  {
    hide EnqueueStep, KickStep, Ready, NewJob;
    var (e1, e2) := (Register("work"), Enqueue(UrgentWork(retries), 0));
    assert Run(cfg, []) == Initial;
    hide Run;
    RunSnoc(cfg, [], e1);
    RunSnoc(cfg, [e1], e2);
    RunSnoc(cfg, [e1, e2], Kick);
    assert [] + [e1] == [e1] && [e1] + [e2] == [e1, e2] && [e1, e2] + [Kick] == [e1, e2, Kick];
    UrgentEnqueued(cfg, Run(cfg, [e1]), retries);
  }

  lemma AnotherLoop(cfg: Config, s: State, k: nat, retries: nat)
    requires Ready(s, k, 0, retries) && k > 0
    ensures Ready(KickStep(EnqueueStep(cfg, s.(processing := false), Filler(k), 0)), k + 1, 0, retries)
  {
    var c := Filler(k);
    assert c.id != "a" by { assert c.id[0] == 'b'; }
    PutValid(s.jobs, c.id, NewJob(cfg, c, 0));
  }

  lemma {:induction false} ManyLoops(cfg: Config, k: nat, retries: nat) returns (trace: seq<Event>)
    requires k > 0
    ensures Ready(Run(cfg, trace), k, 0, retries)
  {
    hide Run, Ready, EnqueueStep, KickStep;
    if k == 1 {
      trace := [Register("work"), Enqueue(UrgentWork(retries), 0), Kick];
      FirstLoop(cfg, retries);
    } else {
      var before := ManyLoops(cfg, k - 1, retries);
      var (e1, e2) := (Stop, Enqueue(Filler(k - 1), 0));
      RunSnoc(cfg, before, e1);
      RunSnoc(cfg, before + [e1], e2);
      RunSnoc(cfg, before + [e1] + [e2], Kick);
      trace := before + [e1] + [e2] + [Kick];
      AnotherLoop(cfg, Run(cfg, before), k - 1, retries);
    }
  }

  // ---------- more bodies that have not returned ----------

  lemma Marks(j: Job, done: int, now: int, error: string)
    ensures Apply(j, MarkRunning(done, now)) == j.(status := Running, attempts := done, startedAt := Some(now))
    ensures Apply(j, MarkPending(error)) == j.(status := Pending, error := Some(error))
  {
  }

  lemma FetchUrgent(cfg: Config, s: State, i: nat, done: nat, retries: nat)
    requires Urgent(s.jobs, done, retries) && s.processing && s.activeJobs < cfg.maxConcurrency
    requires i < |s.loops| && s.loops[i].Idle?
    ensures FetchStep(cfg, s, i) == s.(loops := s.loops[i := Holding(s.jobs.at["a"])])
  {
    UrgentIsNext(s.jobs, done, retries);
  }

  /** Fetch, start, fail, and wake up again. */
  function Attempt(cfg: Config, s: State, m: nat): State
    requires Valid(s.jobs)
  {
    WakeStep(FailStep(StartStep(FetchStep(cfg, s, 0), 0, 0), m, "no", 0), m)
  }

  /** The last body is one more attempt of the urgent job. */
  ghost predicate During(s: State, k: nat, m: nat, retries: nat, phase: Phase) {
    && "work" in s.handlers && s.processing && s.kicks == 0 && s.activeJobs == |s.bodies| == m + 1
    && |s.loops| == k && (forall i :: 0 <= i < k ==> s.loops[i].Idle?)
    && var b := s.bodies[m];
      b.phase == phase && b.job.id == "a" && b.job.attempts == m + 1 && b.job.maxRetries == retries
  }

  lemma StartUrgent(cfg: Config, s: State, k: nat, m: nat, retries: nat)
    requires Ready(s, k, m, retries) && k > 0
    ensures var (job, s') := (s.jobs.at["a"], StartStep(s.(loops := s.loops[0 := Holding(s.jobs.at["a"])]), 0, 0));
      && During(s', k, m, retries, Executing)
      && s'.jobs == Put(s.jobs, "a", job.(status := Running, attempts := m + 1, startedAt := Some(0)))
  {
    hide Apply, Valid;
    Marks(s.jobs.at["a"], m + 1, 0, "");
  }

  lemma FailUrgent(s: State, k: nat, m: nat, retries: nat)
    requires During(s, k, m, retries, Executing) && m < retries
    ensures During(FailStep(s, m, "no", 0), k, m, retries, Backoff) && FailStep(s, m, "no", 0).jobs == s.jobs
  {
    hide Pow2;
  }

  lemma WakeUrgent(s: State, k: nat, m: nat, retries: nat, t: Table)
    requires During(s, k, m, retries, Backoff) && Urgent(t, m, retries)
    requires s.jobs == Put(t, "a", t.at["a"].(status := Running, attempts := m + 1, startedAt := Some(0)))
    ensures Ready(WakeStep(s, m), k, m + 1, retries)
  {
    hide Apply;
    var running := t.at["a"].(status := Running, attempts := m + 1, startedAt := Some(0));
    Marks(running, 0, 0, s.bodies[m].error);
    PutValid(t, "a", running);
    PutValid(s.jobs, "a", running.(status := Pending, error := Some(s.bodies[m].error)));
  }

  lemma AttemptReady(cfg: Config, s: State, k: nat, m: nat, retries: nat)
    requires Ready(s, k, m, retries) && k > 0 && m < cfg.maxConcurrency && m < retries
    ensures Ready(Attempt(cfg, s, m), k, m + 1, retries)
  {
    FetchUrgent(cfg, s, 0, m, retries);
    hide FetchStep, StartStep, FailStep, WakeStep, During, Urgent, Put;
    StartUrgent(cfg, s, k, m, retries);
    var s2 := StartStep(FetchStep(cfg, s, 0), 0, 0);
    FailUrgent(s2, k, m, retries);
    WakeUrgent(FailStep(s2, m, "no", 0), k, m, retries, s.jobs);
  }

  lemma {:induction false} ManyBodies(cfg: Config, k: nat, m: nat, retries: nat) returns (trace: seq<Event>)
    requires k > 0 && m <= cfg.maxConcurrency && m <= retries
    ensures Ready(Run(cfg, trace), k, m, retries)
  {
    hide Run, Ready, FetchStep, StartStep, FailStep, WakeStep;
    if m == 0 {
      trace := ManyLoops(cfg, k, retries);
    } else {
      var before := ManyBodies(cfg, k, m - 1, retries);
      AttemptReady(cfg, Run(cfg, before), k, m - 1, retries);
      var (e1, e2, e3) := (Fetch(0), Start(0, 0), Fail(m - 1, "no", 0));
      RunSnoc(cfg, before, e1);
      RunSnoc(cfg, before + [e1], e2);
      RunSnoc(cfg, before + [e1] + [e2], e3);
      RunSnoc(cfg, before + [e1] + [e2] + [e3], Wake(m - 1));
      trace := before + [e1] + [e2] + [e3] + [Wake(m - 1)];
    }
  }

  // ---------- all loops take the job ----------

  /** The first `j` loops hold the job, the others still look for one. */
  ghost predicate Held(s: State, k: nat, j: nat, m: nat, retries: nat) {
    && "work" in s.handlers && s.processing && s.activeJobs == m && |s.loops| == k
    && (forall i :: 0 <= i < j <= k ==> s.loops[i].Holding? && s.loops[i].job.name == "work")
    && (forall i :: j <= i < k ==> s.loops[i].Idle?)
    && Urgent(s.jobs, m, retries)
  }

  lemma {:induction false} AllHold(cfg: Config, k: nat, j: nat, m: nat, retries: nat) returns (trace: seq<Event>)
    requires k > 0 && j <= k && m < cfg.maxConcurrency && m <= retries
    ensures Held(Run(cfg, trace), k, j, m, retries)
  {
    hide Run, Urgent, FetchStep;
    if j == 0 {
      trace := ManyBodies(cfg, k, m, retries);
    } else {
      var before := AllHold(cfg, k, j - 1, m, retries);
      RunSnoc(cfg, before, Fetch(j - 1));
      trace := before + [Fetch(j - 1)];
      FetchUrgent(cfg, Run(cfg, before), j - 1, m, retries);
      NameOfUrgent(Run(cfg, before).jobs, m, retries);
    }
  }

  lemma NameOfUrgent(t: Table, done: nat, retries: nat)
    requires Urgent(t, done, retries)
    ensures "a" in t.at && t.at["a"].name == "work"
  {
  }

  /** The first `j` loops have started what they held. */
  ghost predicate Going(s: State, k: nat, j: nat, m: nat) {
    && "work" in s.handlers && s.activeJobs == m + j && |s.loops| == k
    && forall i :: j <= i < k ==> s.loops[i].Holding? && s.loops[i].job.name == "work"
  }

  lemma {:induction false} AllStart(cfg: Config, k: nat, j: nat, m: nat, retries: nat) returns (trace: seq<Event>)
    requires k > 0 && j <= k && m < cfg.maxConcurrency && m <= retries
    ensures Going(Run(cfg, trace), k, j, m)
  {
    hide Run, Update, Valid;
    if j == 0 {
      trace := AllHold(cfg, k, k, m, retries);
    } else {
      var before := AllStart(cfg, k, j - 1, m, retries);
      RunSnoc(cfg, before, Start(j - 1, 0));
      trace := before + [Start(j - 1, 0)];
    }
  }

  // ---------- the bound is reached ----------

  lemma LoopsStay(cfg: Config, s: State, e: Event)
    requires Valid(s.jobs)
    ensures |s.loops| <= |Step(cfg, s, e).loops|
  {
    hide Valid, Update, NextPending, NewJob, Pow2;
  }

  lemma {:induction false} LoopsOfPrefix(cfg: Config, trace: seq<Event>, i: nat)
    requires i <= |trace|
    ensures |Run(cfg, trace[..i]).loops| <= |Run(cfg, trace).loops|
    decreases |trace|
  {
    hide Step;
    if i == |trace| {
      assert trace[..i] == trace;
    } else {
      var n := |trace| - 1;
      LoopsOfPrefix(cfg, trace[..n], i);
      assert trace[..n][..i] == trace[..i];
      LoopsStay(cfg, Run(cfg, trace[..n]), trace[n]);
    }
  }

  lemma {:induction false} LiveAreLoops(loops: seq<Loop>)
    ensures LiveLoops(loops) <= |loops|
  {
    if loops != [] { LiveAreLoops(loops[1..]); }
  }

  /** No smaller bound holds: every limit and number of loops has a run that reaches the limit plus loops less one. */
  lemma ConcurrencyBoundIsTight(cfg: Config, most: nat) returns (trace: seq<Event>)
    requires cfg.maxConcurrency >= 1 && most >= 1
    ensures AtMostLive(cfg, trace, most)
    ensures Run(cfg, trace).activeJobs == Capacity(cfg) + most - 1
  {
    hide Run, LiveLoops;
    trace := AllStart(cfg, most, most, cfg.maxConcurrency - 1, cfg.maxConcurrency);
    forall k | 0 <= k <= |trace| ensures LiveLoops(Run(cfg, trace[..k]).loops) <= most {
      LoopsOfPrefix(cfg, trace, k);
      LiveAreLoops(Run(cfg, trace[..k]).loops);
    }
  }
}
