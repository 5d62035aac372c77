/** Runs of the job queue in which something goes wrong, or surprises. */
module JobQueueExamples {
  import opened Options
  import opened OrderedMap
  import opened Jobs
  import opened JobQueueModel
  import opened JobQueueSafety
  import opened JobQueueTheorems
  import opened JobQueueCancel

  /** A job that may be retried once. */
  function Work(id: string): JobConfig { JobConfig(id, "work", "", None, Some(1), None, None, None) }

  function JobOf(cfg: Config, id: string, now: int): Job { NewJob(cfg, Work(id), now) }

  function OneJob(job: Job): Table { OMap(["a"], map["a" := job]) }

  lemma NewJobFacts(cfg: Config, id: string, now: int)
    ensures var j := JobOf(cfg, id, now);
      && j.id == id && j.name == "work" && j.status.Pending? && j.priority == Normal
           && j.createdAt == now && j.attempts == 0
      && j.maxRetries == 1
  {
  }

  lemma NextOfOne(job: Job)
    requires job.status.Pending? && job.id == "a"
    ensures Valid(OneJob(job)) && NextPending(OneJob(job)) == Some(job)
  {
    assert Values(OneJob(job)) == [job];
    NextOfIsSoonest([job]);
  }

  lemma NextOfTwo(t: Table, a: Job, b: Job)
    requires a.status.Pending? && b.status.Pending? && a.priority == b.priority
        && a.createdAt < b.createdAt && a.id != b.id
    requires t == OMap([a.id, b.id], map[a.id := a, b.id := b])
    ensures Valid(t) && NextPending(t) == Some(a)
  {
    assert Values(t) == [a, b];
    NextOfIsSoonest([a, b]);
  }

  // ---------- one job enqueued, one loop started ----------

  const BEGIN: seq<Event> := [Register("work"), Enqueue(Work("a"), 0), Kick]

  function Began(cfg: Config): State {
    Initial.(handlers := {"work"}, loops := [Idle], processing := true, tallies := map["a" := Tally(0, 0, 0)],
             jobs := OneJob(JobOf(cfg, "a", 0)))
  }

  lemma Begins(cfg: Config)
    ensures Run(cfg, BEGIN) == Began(cfg) && Valid(Began(cfg).jobs)
    ensures Run(cfg, [Register("work")]).jobs == Empty()
  {
    RunFollow(cfg, [], BEGIN);
    assert [] + BEGIN == BEGIN && Run(cfg, []) == Initial;
    RunSnoc(cfg, [], BEGIN[0]);
    assert [] + [BEGIN[0]] == [Register("work")];
    hide Run;
    ThreeSteps(cfg);
  }

  lemma ThreeSteps(cfg: Config)
    ensures Follow(cfg, Initial, BEGIN) == Began(cfg) && Valid(Began(cfg).jobs)
  {
    var job := JobOf(cfg, "a", 0);
    var s1 := Initial.(handlers := {"work"});
    var s2 := s1.(jobs := OneJob(job), tallies := map["a" := Tally(0, 0, 0)], kicks := 1);
    NewJobFacts(cfg, "a", 0);
    NextOfOne(job);
    EnqueueFirst(cfg, s1);
    assert Valid(Initial.jobs);
    hide NewJob, Valid, EnqueueStep, Follow, NextPending;
    FollowTo(cfg, Initial, BEGIN, s1);
    FollowTo(cfg, s1, BEGIN[1..], s2);
    FollowTo(cfg, s2, BEGIN[1..][1..], Began(cfg));
    NothingLeft(cfg, Began(cfg));
    assert BEGIN[1..][1..][1..] == [];
  }

  lemma EnqueueFirst(cfg: Config, s: State)
    requires "work" in s.handlers && s.jobs == Empty() && s.tallies == map[] && s.kicks == 0
    ensures EnqueueStep(cfg, s, Work("a"), 0)
         == s.(jobs := OneJob(JobOf(cfg, "a", 0)), tallies := map["a" := Tally(0, 0, 0)], kicks := 1)
  {
    hide NewJob;
  }

  lemma NothingLeft(cfg: Config, s: State)
    requires Valid(s.jobs)
    ensures Follow(cfg, s, []) == s
  {
  }

  /** A run that starts like this, stops nothing and enqueues nothing else is a proper one. */
  lemma BeginIsProper(cfg: Config, more: seq<Event>)
    requires forall i :: 0 <= i < |more| ==> !more[i].Stop? && !more[i].Enqueue?
    ensures Proper(cfg, BEGIN + more)
  {
    var trace := BEGIN + more;
    hide Run;
    OneLoopWithoutStop(cfg, trace);
    forall k | 0 <= k < |trace| ensures FreshEvent(Run(cfg, trace[..k]), trace[k]) {
      if k == 1 {
        Begins(cfg);
        assert trace[..1] == [Register("work")];
      } else {
        assert k < 3 || trace[k] == more[k - 3];
      }
    }
  }

  // ---------- a lost cancel ----------

  const CANCEL: seq<Event> := [CancelRead("a"), Fetch(0), CancelWrite(0)]

  function Cancelling(cfg: Config): State {
    var job := JobOf(cfg, "a", 0);
    Began(cfg).(loops := [Holding(job)], jobs := OneJob(job.(status := Cancelled)))
  }

  lemma CancelSteps(cfg: Config)
    requires cfg.maxConcurrency > 0 && Valid(Began(cfg).jobs)
    ensures Follow(cfg, Began(cfg), CANCEL) == Cancelling(cfg)
  {
    var job := JobOf(cfg, "a", 0);
    var s1 := Began(cfg).(cancels := ["a"]);
    var s2 := s1.(loops := [Holding(job)]);
    NewJobFacts(cfg, "a", 0);
    NextOfOne(job);
    assert Apply(job, Patch(status := Some(Cancelled))) == job.(status := Cancelled);
    assert map["a" := job]["a" := job.(status := Cancelled)] == map["a" := job.(status := Cancelled)];
    hide NewJob, NextPending, Valid, Follow, Apply;
    FollowTo(cfg, Began(cfg), CANCEL, s1);
    FollowTo(cfg, s1, CANCEL[1..], s2);
    FollowTo(cfg, s2, CANCEL[1..][1..], Cancelling(cfg));
    NothingLeft(cfg, Cancelling(cfg));
    assert CANCEL[1..][1..][1..] == [];
  }

  /** The cancel is accepted and written while the loop holds the job, which then starts all the same. */
  lemma CancelIsLostInARun(cfg: Config)
    requires cfg.maxConcurrency > 0
    ensures Proper(cfg, BEGIN + CANCEL) && Proper(cfg, BEGIN + CANCEL + [Start(0, 1)])
    ensures IsCancelled(Run(cfg, BEGIN + CANCEL), "a")
    ensures var s := Run(cfg, BEGIN + CANCEL + [Start(0, 1)]); "a" in s.jobs.at && s.jobs.at["a"].status.Running?
  {
    hide Run, NewJob, Step, Proper;
    BeginIsProper(cfg, CANCEL);
    BeginIsProper(cfg, CANCEL + [Start(0, 1)]);
    assert BEGIN + (CANCEL + [Start(0, 1)]) == BEGIN + CANCEL + [Start(0, 1)];
    Begins(cfg);
    RunFollow(cfg, BEGIN, CANCEL);
    CancelSteps(cfg);
    RunSnoc(cfg, BEGIN + CANCEL, Start(0, 1));
    StartsAnyway(cfg);
  }

  lemma StartsAnyway(cfg: Config)
    ensures Valid(Cancelling(cfg).jobs)
    ensures var s := Step(cfg, Cancelling(cfg), Start(0, 1)); "a" in s.jobs.at && s.jobs.at["a"].status.Running?
  {
    NewJobFacts(cfg, "a", 0);
    hide NewJob;
    assert Valid(OneJob(JobOf(cfg, "a", 0).(status := Cancelled)));
  }

  // ---------- two loops ----------

  const ONE_AT_A_TIME := Config(1, 3, 1000, 60000)

  const RESTART: seq<Event> := [Stop, Enqueue(Work("b"), 1), Kick]

  function Restarted(): State {
    var (a, b) := (JobOf(ONE_AT_A_TIME, "a", 0), JobOf(ONE_AT_A_TIME, "b", 1));
    Began(ONE_AT_A_TIME).(
      loops := [Idle, Idle], tallies := map["a" := Tally(0, 0, 0), "b" := Tally(0, 0, 0)],
      jobs := OMap(["a", "b"], map["a" := a, "b" := b]))
  }

  lemma RestartSteps()
    requires Valid(Began(ONE_AT_A_TIME).jobs)
    ensures Follow(ONE_AT_A_TIME, Began(ONE_AT_A_TIME), RESTART) == Restarted()
    ensures Valid(Restarted().jobs) && NextPending(Restarted().jobs) == Some(JobOf(ONE_AT_A_TIME, "a", 0))
  {
    hide NewJob, NextPending, Valid, Follow, EnqueueStep;
    var s0 := Began(ONE_AT_A_TIME);
    var s1 := s0.(processing := false);
    var s2 := s1.(jobs := Restarted().jobs, tallies := Restarted().tallies, kicks := 1);
    RestartFacts(s1);
    FollowTo(ONE_AT_A_TIME, s0, RESTART, s1);
    FollowTo(ONE_AT_A_TIME, s1, RESTART[1..], s2);
    FollowTo(ONE_AT_A_TIME, s2, RESTART[1..][1..], Restarted());
    NothingLeft(ONE_AT_A_TIME, Restarted());
    assert RESTART[1..][1..][1..] == [];
  }

  lemma RestartFacts(s: State)
    requires s == Began(ONE_AT_A_TIME).(processing := false)
    ensures EnqueueStep(ONE_AT_A_TIME, s, Work("b"), 1)
         == s.(jobs := Restarted().jobs, tallies := Restarted().tallies, kicks := 1)
    ensures Valid(Restarted().jobs) && NextPending(Restarted().jobs) == Some(JobOf(ONE_AT_A_TIME, "a", 0))
  {
    NewJobFacts(ONE_AT_A_TIME, "a", 0);
    NewJobFacts(ONE_AT_A_TIME, "b", 1);
    hide NewJob, NextPending, Valid;
    NextOfTwo(Restarted().jobs, JobOf(ONE_AT_A_TIME, "a", 0), JobOf(ONE_AT_A_TIME, "b", 1));
  }

  /** Stopping, and enqueueing before the stopped loop wakes up, leaves two loops alive and a job pending. */
  lemma RestartLeavesTwoLoops()
    ensures var s := Run(ONE_AT_A_TIME, BEGIN + RESTART);
      && s == Restarted() && s.loops == [Idle, Idle] && s.processing && s.activeJobs == 0 && "work" in s.handlers
      && NextPending(s.jobs) == Some(JobOf(ONE_AT_A_TIME, "a", 0))
  {
    hide Run, NewJob, Step, NextPending;
    Begins(ONE_AT_A_TIME);
    RunFollow(ONE_AT_A_TIME, BEGIN, RESTART);
    RestartSteps();
  }

  const BOTH_START: seq<Event> := [Fetch(0), Fetch(1), Start(0, 2), Start(1, 2)]

  /** The run goes on: both loops take the job, which is then in two bodies at once, over the limit of one. */
  lemma RestartRunsOneJobTwice()
    ensures var s := Run(ONE_AT_A_TIME, BEGIN + RESTART + BOTH_START);
      && s.activeJobs == 2 > ONE_AT_A_TIME.maxConcurrency && |s.bodies| == 2
      && s.bodies[0].job.id == s.bodies[1].job.id == "a" && s.bodies[0].phase.Executing? && s.bodies[1].phase.Executing?
  {
    hide Run, NewJob, NextPending, FetchStep, StartStep, Follow;
    var cfg := ONE_AT_A_TIME;
    var job := JobOf(cfg, "a", 0);
    NewJobFacts(cfg, "a", 0);
    Begins(cfg);
    RestartLeavesTwoLoops();
    RestartSteps();
    RunFollow(cfg, BEGIN + RESTART, BOTH_START);
    TwoLoopsTakeOneJob(cfg, Restarted(), 0, 1, job, 2);
    var s1 := FetchStep(cfg, Restarted(), 0);
    FollowTo(cfg, Restarted(), BOTH_START, s1);
    var s2 := FetchStep(cfg, s1, 1);
    FollowTo(cfg, s1, BOTH_START[1..], s2);
    var s3 := StartStep(s2, 0, 2);
    FollowTo(cfg, s2, BOTH_START[1..][1..], s3);
    var s4 := StartStep(s3, 1, 2);
    FollowTo(cfg, s3, BOTH_START[1..][1..][1..], s4);
    NothingLeft(cfg, s4);
    assert BOTH_START[1..][1..][1..][1..] == [];
    assert Restarted().bodies == [] && Restarted().activeJobs == 0;
  }

  // ---------- a body that has not returned yet ----------

  const RETRY: seq<Event> := [Fetch(0), Start(0, 1), Fail(0, "no", 2), Wake(0)]

  function Retrying(cfg: Config): State {
    var job := JobOf(cfg, "a", 0);
    var started := job.(attempts := 1);
    var waiting := started.(startedAt := Some(1), error := Some("no"));
    Began(cfg).(jobs := OneJob(waiting), activeJobs := 1, bodies := [Body(started, Finishing, "no")],
                tallies := map["a" := Tally(1, 1, job.retryDelay)])
  }

  function Started(cfg: Config): Job { JobOf(cfg, "a", 0).(attempts := 1) }

  /** The job's first attempt is under way. */
  function Attempting(cfg: Config): State {
    Began(cfg).(jobs := OneJob(Started(cfg).(status := Running, startedAt := Some(1))), activeJobs := 1,
                bodies := [Body(Started(cfg), Executing, "")], tallies := map["a" := Tally(1, 0, 0)])
  }

  lemma RetryBegins(cfg: Config)
    requires cfg.maxConcurrency > 0 && Valid(Began(cfg).jobs)
    ensures Valid(Attempting(cfg).jobs) && Follow(cfg, Began(cfg), RETRY)
        == Follow(cfg, Attempting(cfg), RETRY[1..][1..])
  {
    hide NewJob, NextPending, Valid, Follow, StartStep, Apply;
    var job := JobOf(cfg, "a", 0);
    var s1 := Began(cfg).(loops := [Holding(job)]);
    NewJobFacts(cfg, "a", 0);
    NextOfOne(job);
    RetryStart(cfg);
    FollowTo(cfg, Began(cfg), RETRY, s1);
    FollowTo(cfg, s1, RETRY[1..], Attempting(cfg));
  }

  lemma RetrySteps(cfg: Config)
    requires cfg.maxConcurrency > 0 && Valid(Began(cfg).jobs)
    ensures Follow(cfg, Began(cfg), RETRY) == Retrying(cfg)
  {
    hide NewJob, Valid, Follow, FailStep, WakeStep, Apply;
    var s2 := Attempting(cfg);
    var s3 := s2.(bodies := [Body(Started(cfg), Backoff, "no")],
        tallies := map["a" := Tally(1, 1, Started(cfg).retryDelay)]);
    RetryBegins(cfg);
    NewJobFacts(cfg, "a", 0);
    FailsOnce(s2, Started(cfg));
    RetryEnd(cfg, s2.jobs.at["a"]);
    FollowTo(cfg, s2, RETRY[1..][1..], s3);
    FollowTo(cfg, s3, RETRY[1..][1..][1..], Retrying(cfg));
    NothingLeft(cfg, Retrying(cfg));
    assert RETRY[1..][1..][1..][1..] == [];
  }

  lemma FailsOnce(s: State, job: Job)
    requires s.bodies == [Body(job, Executing, "")] && job.attempts == 1 && job.maxRetries > 0 && job.id == "a"
    requires s.tallies == map["a" := Tally(1, 0, 0)]
    ensures FailStep(s, 0, "no", 2)
         == s.(bodies := [Body(job, Backoff, "no")], tallies := map["a" := Tally(1, 1, job.retryDelay)])
  {
    assert Pow2(0) == 1;
    assert map["a" := Tally(1, 0, 0)]["a" := Tally(1, 1, job.retryDelay)] == map["a" := Tally(1, 1, job.retryDelay)];
  }

  lemma RetryStart(cfg: Config)
    ensures var job := JobOf(cfg, "a", 0);
      var started := job.(attempts := 1);
      var running := started.(status := Running, startedAt := Some(1));
      StartStep(Began(cfg).(loops := [Holding(job)]), 0, 1)
      == Began(cfg).(jobs := OneJob(running), activeJobs := 1, bodies := [Body(started, Executing, "")],
                     tallies := map["a" := Tally(1, 0, 0)])
  {
    var job := JobOf(cfg, "a", 0);
    NewJobFacts(cfg, "a", 0);
    hide NewJob;
    var running := job.(attempts := 1, status := Running, startedAt := Some(1));
    assert Apply(job, MarkRunning(1, 1)) == running;
    assert map["a" := job]["a" := running] == map["a" := running];
    assert map["a" := Tally(0, 0, 0)]["a" := Tally(1, 0, 0)] == map["a" := Tally(1, 0, 0)];
  }

  lemma RetryEnd(cfg: Config, running: Job)
    requires running.id == "a"
    ensures var started := JobOf(cfg, "a", 0).(attempts := 1);
      forall s: State :: s.jobs == OneJob(running) && s.bodies == [Body(started, Backoff, "no")] ==>
        WakeStep(s, 0) == s.(jobs := OneJob(running.(status := Pending, error := Some("no"))),
            bodies := [Body(started, Finishing, "no")])
  {
    NewJobFacts(cfg, "a", 0);
    hide NewJob;
    var waiting := running.(status := Pending, error := Some("no"));
    assert Apply(running, MarkPending("no")) == waiting;
    assert map["a" := running]["a" := waiting] == map["a" := waiting];
  }

  /**
   The body of the failed attempt still counts and has not returned when the next attempt of its job starts: the two
   overlap, but the older one has nothing left to write.
   */
  lemma FinishingBodyOverlaps(cfg: Config)
    requires cfg.maxConcurrency > 1
    ensures Proper(cfg, BEGIN + RETRY + [Fetch(0), Start(0, 3)])
    ensures var s := Run(cfg, BEGIN + RETRY + [Fetch(0), Start(0, 3)]);
      && |s.bodies| == 2 && s.bodies[0].job.id == s.bodies[1].job.id == "a"
      && s.bodies[0].phase.Finishing? && s.bodies[1].phase.Executing? && s.activeJobs == 2
  {
    hide Run, NewJob, NextPending, Proper, Follow;
    var again: seq<Event> := [Fetch(0), Start(0, 3)];
    BeginIsProper(cfg, RETRY + again);
    assert BEGIN + (RETRY + again) == BEGIN + RETRY + again;
    Begins(cfg);
    RunFollow(cfg, BEGIN, RETRY);
    RetrySteps(cfg);
    RunFollow(cfg, BEGIN + RETRY, again);
    var s := Retrying(cfg);
    var job := JobOf(cfg, "a", 0).(attempts := 1, startedAt := Some(1), error := Some("no"));
    NewJobFacts(cfg, "a", 0);
    NextOfOne(job);
    var s1 := s.(loops := [Holding(job)]);
    FollowTo(cfg, s, again, s1);
    var s2 := StartStep(s1, 0, 3);
    FollowTo(cfg, s1, again[1..], s2);
    NothingLeft(cfg, s2);
    assert again[1..][1..] == [];
  }
  ghost predicate OneBodyPerJob(s: State) {
    forall a, b :: 0 <= a < b < |s.bodies| ==> s.bodies[a].job.id != s.bodies[b].job.id
  }

  /** Counting those that have nothing left to write, a job never has two bodies exactly when the limit is one. */
  lemma OneBodyPerJobIff(cfg: Config)
    ensures (forall trace :: Proper(cfg, trace) ==> OneBodyPerJob(Run(cfg, trace))) <==> cfg.maxConcurrency <= 1
  {
    hide Run, Proper;
    if cfg.maxConcurrency <= 1 {
      forall trace | Proper(cfg, trace) ensures OneBodyPerJob(Run(cfg, trace)) {
        NoJobTwiceAtOnce(cfg, trace);
      }
    } else {
      FinishingBodyOverlaps(cfg);
      assert !OneBodyPerJob(Run(cfg, BEGIN + RETRY + [Fetch(0), Start(0, 3)]));
    }
  }
}
