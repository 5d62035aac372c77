/** What every run of the job queue keeps, whatever order its suspended pieces resume in. */
module JobQueueSafety {
  import opened Options
  import opened OrderedMap
  import opened Jobs
  import opened JobQueueModel

  // ---------- how many bodies run at once ----------

  function LiveLoops(loops: seq<Loop>): nat {
    if loops == [] then 0 else LiveLoops(loops[1..]) + if loops[0].Exited? then 0 else 1
  }

  function Holders(loops: seq<Loop>): nat {
    if loops == [] then 0 else Holders(loops[1..]) + if loops[0].Holding? then 1 else 0
  }

  lemma {:induction false} SetLoop(loops: seq<Loop>, i: nat, l: Loop)
    requires i < |loops|
    ensures Holders(loops[i := l])
         == Holders(loops) - (if loops[i].Holding? then 1 else 0) + if l.Holding? then 1 else 0
    ensures loops[i].Idle? ==> Holders(loops) < LiveLoops(loops)
    ensures Holders(loops) <= LiveLoops(loops)
  {
    LoopsFacts(loops);
    if i > 0 {
      assert loops[i := l][1..] == loops[1..][i - 1 := l];
      SetLoop(loops[1..], i - 1, l);
    } else {
      LoopsFacts(loops[1..]);
      assert loops[i := l][1..] == loops[1..];
    }
  }

  lemma {:induction false} LoopsFacts(loops: seq<Loop>)
    ensures Holders(loops) <= LiveLoops(loops)
    ensures LiveLoops(loops) == 0 ==> forall i :: 0 <= i < |loops| ==> loops[i].Exited?
    ensures LiveLoops(loops) <= 1 ==> forall i, j :: 0 <= i < j < |loops| ==> loops[i].Exited? || loops[j].Exited?
    ensures Holders(loops + [Idle]) == Holders(loops)
  {
    if loops != [] {
      LoopsFacts(loops[1..]);
      assert (loops + [Idle])[1..] == loops[1..] + [Idle];
      assert forall i :: 0 < i < |loops| ==> loops[i] == loops[1..][i - 1];
    }
  }

  ghost predicate AtMostLive(cfg: Config, trace: seq<Event>, most: nat) {
    forall k :: 0 <= k <= |trace| ==> LiveLoops(Run(cfg, trace[..k]).loops) <= most
  }

  function Capacity(cfg: Config): nat { if cfg.maxConcurrency < 0 then 0 else cfg.maxConcurrency }

  ghost predicate Counted(cfg: Config, s: State, most: nat) {
    s.activeJobs == |s.bodies| && s.activeJobs + Holders(s.loops) <= Capacity(cfg) + most - 1
  }

  lemma CountedStep(cfg: Config, s: State, e: Event, most: nat)
    requires Valid(s.jobs) && Counted(cfg, s, most) && LiveLoops(s.loops) <= most
    ensures Counted(cfg, Step(cfg, s, e), most)
  {
    hide Valid, Update, Put, NewJob, NextPending, Pow2, LiveLoops, Holders;
    LoopsFacts(s.loops);
    match e
    case Fetch(i) =>
      if i < |s.loops| {
        SetLoop(s.loops, i, Exited);
        if NextPending(s.jobs).Some? { SetLoop(s.loops, i, Holding(NextPending(s.jobs).value)); }
      }
    case Start(i, now) => if i < |s.loops| { SetLoop(s.loops, i, Idle); }
    case _ =>
  }

  lemma {:induction false} PrefixLive(cfg: Config, trace: seq<Event>, most: nat)
    requires trace != [] && AtMostLive(cfg, trace, most)
    ensures AtMostLive(cfg, trace[..|trace| - 1], most)
  {
    var before := trace[..|trace| - 1];
    forall k | 0 <= k <= |before| ensures LiveLoops(Run(cfg, before[..k]).loops) <= most {
      assert before[..k] == trace[..k];
    }
  }

  /**
   With at most `most` loops alive at any time, at most `maxConcurrency + most - 1` job bodies are active. With
   one loop that is the promised limit.
   */
  lemma {:induction false} ConcurrencyBound(cfg: Config, trace: seq<Event>, most: nat)
    requires most >= 1 && AtMostLive(cfg, trace, most)
    ensures var s := Run(cfg, trace);
      s.activeJobs == |s.bodies| && s.activeJobs + Holders(s.loops) <= Capacity(cfg) + most - 1
  {
    if trace != [] {
      var n := |trace| - 1;
      PrefixLive(cfg, trace, most);
      ConcurrencyBound(cfg, trace[..n], most);
      CountedStep(cfg, Run(cfg, trace[..n]), trace[n], most);
    }
  }

  lemma OneLoopStep(cfg: Config, s: State, e: Event)
    requires Valid(s.jobs) && !e.Stop? && |s.loops| <= 1 && (s.loops != [] ==> s.processing)
    ensures var s' := Step(cfg, s, e); |s'.loops| <= 1 && (s'.loops != [] ==> s'.processing)
  {
    hide Valid, Update, NextPending;
  }

  lemma {:induction false} OneLoopRun(cfg: Config, trace: seq<Event>)
    requires forall i :: 0 <= i < |trace| ==> !trace[i].Stop?
    ensures var s := Run(cfg, trace); |s.loops| <= 1 && (s.loops != [] ==> s.processing)
  {
    if trace != [] {
      OneLoopRun(cfg, trace[..|trace| - 1]);
      OneLoopStep(cfg, Run(cfg, trace[..|trace| - 1]), trace[|trace| - 1]);
    }
  }

  /** As long as nothing stops the queue there is one loop at most. */
  lemma OneLoopWithoutStop(cfg: Config, trace: seq<Event>)
    requires forall i :: 0 <= i < |trace| ==> !trace[i].Stop?
    ensures AtMostLive(cfg, trace, 1)
  {
    forall k | 0 <= k <= |trace| ensures LiveLoops(Run(cfg, trace[..k]).loops) <= 1 {
      OneLoopRun(cfg, trace[..k]);
    }
  }

  /** The event starts a loop: the rest of an enqueue finds the queue not processing. */
  predicate Opens(s: State, e: Event) { e.Kick? && s.kicks > 0 && !s.processing }

  lemma {:induction false} SetLive(loops: seq<Loop>, i: nat, l: Loop)
    requires i < |loops|
    ensures LiveLoops(loops[i := l])
         == LiveLoops(loops) - (if loops[i].Exited? then 0 else 1) + (if l.Exited? then 0 else 1)
  {
    if i > 0 {
      assert loops[i := l][1..] == loops[1..][i - 1 := l];
      SetLive(loops[1..], i - 1, l);
    } else {
      assert loops[i := l][1..] == loops[1..];
    }
  }

  lemma {:induction false} AddLive(loops: seq<Loop>)
    ensures LiveLoops(loops + [Idle]) == LiveLoops(loops) + 1
  {
    if loops != [] {
      AddLive(loops[1..]);
      assert (loops + [Idle])[1..] == loops[1..] + [Idle];
    }
  }

  /** Live loops become more at no other event. */
  lemma LiveRises(cfg: Config, s: State, e: Event)
    requires Valid(s.jobs)
    ensures var s' := Step(cfg, s, e);
      if Opens(s, e) then LiveLoops(s'.loops) == LiveLoops(s.loops) + 1 else LiveLoops(s'.loops) <= LiveLoops(s.loops)
  {
    hide Valid, Update, NewJob, NextPending, Pow2, LiveLoops;
    match e
    case Kick => AddLive(s.loops);
    case Fetch(i) =>
      if i < |s.loops| {
        SetLive(s.loops, i, Exited);
        if NextPending(s.jobs).Some? { SetLive(s.loops, i, Holding(NextPending(s.jobs).value)); }
      }
    case Start(i, now) => if i < |s.loops| { SetLive(s.loops, i, Idle); }
    case _ =>
  }

  /** At event `k` no loop is opened while another is alive. */
  ghost predicate OpensAlone(cfg: Config, trace: seq<Event>, k: nat)
    requires k < |trace|
  {
    var s := Run(cfg, trace[..k]);
    Opens(s, trace[k]) ==> LiveLoops(s.loops) == 0
  }

  lemma NextLive(cfg: Config, trace: seq<Event>, k: nat)
    requires k < |trace|
    ensures var (s, s') := (Run(cfg, trace[..k]), Run(cfg, trace[..k + 1]));
      if Opens(s, trace[k]) then LiveLoops(s'.loops) == LiveLoops(s.loops) + 1
      else LiveLoops(s'.loops) <= LiveLoops(s.loops)
  {
    assert trace[..k + 1][..k] == trace[..k];
    LiveRises(cfg, Run(cfg, trace[..k]), trace[k]);
  }

  lemma {:induction false} OneAt(cfg: Config, trace: seq<Event>, k: nat)
    requires k <= |trace| && forall i :: 0 <= i < |trace| ==> OpensAlone(cfg, trace, i)
    ensures LiveLoops(Run(cfg, trace[..k]).loops) <= 1
  {
    if k > 0 {
      hide Opens, LiveLoops;
      OneAt(cfg, trace, k - 1);
      NextLive(cfg, trace, k - 1);
      assert OpensAlone(cfg, trace, k - 1);
    }
  }

  /** There is one loop at a time exactly when no loop is opened while another is still alive. */
  lemma OneLoopIff(cfg: Config, trace: seq<Event>)
    ensures AtMostLive(cfg, trace, 1) <==> forall k :: 0 <= k < |trace| ==> OpensAlone(cfg, trace, k)
  {
    if AtMostLive(cfg, trace, 1) {
      forall k | 0 <= k < |trace| ensures OpensAlone(cfg, trace, k) {
        NextLive(cfg, trace, k);
        assert LiveLoops(Run(cfg, trace[..k + 1]).loops) <= 1;
      }
    } else if forall k :: 0 <= k < |trace| ==> OpensAlone(cfg, trace, k) {
      forall k | 0 <= k <= |trace| ensures LiveLoops(Run(cfg, trace[..k]).loops) <= 1 { OneAt(cfg, trace, k); }
    }
  }

  // ---------- the invariant of one loop ----------

  function Retries(j: Job): nat { if j.maxRetries < 0 then 0 else j.maxRetries }

  /** How often a job may be started: once, and once more per retry. */
  function Budget(j: Job): nat { Retries(j) + 1 }

  /** What `n` backoffs of doubling length, the first of `delay`, sleep together. */
  function BackoffTotal(delay: int, n: nat): int { delay * (Pow2(n) - 1) }

  ghost predicate JobOk(j: Job, t: Tally) {
    && j.attempts == t.marks <= Budget(j)
    && t.retries <= Retries(j) && t.retries <= t.marks
    && t.slept == BackoffTotal(j.retryDelay, t.retries)
    && (j.status.Pending? ==> t.retries == t.marks)
  }

  ghost predicate Live(b: Body) { !b.phase.Finishing? }

  ghost predicate SameTerms(j: Job, k: Job) { j.maxRetries == k.maxRetries && j.retryDelay == k.retryDelay }

  ghost predicate Stored(s: State, id: string) { id in s.jobs.at && id in s.tallies }

  ghost predicate BodyOk(s: State, b: Body) {
    && Stored(s, b.job.id)
    && var (j, t) := (s.jobs.at[b.job.id], s.tallies[b.job.id]);
      && SameTerms(j, b.job)
      && (Live(b) ==> j.attempts == b.job.attempts >= 1 && (j.status.Running? || j.status.Cancelled?))
      && (b.phase.Executing? ==> t.retries + 1 == t.marks)
      && (b.phase.Backoff? ==> t.retries == t.marks && b.job.attempts <= b.job.maxRetries)
  }

  ghost predicate NoLiveBody(s: State, id: string) {
    forall b :: 0 <= b < |s.bodies| && Live(s.bodies[b]) ==> s.bodies[b].job.id != id
  }

  ghost predicate LoopOk(s: State, l: Loop) {
    l.Holding? ==>
      && Stored(s, l.job.id) && NoLiveBody(s, l.job.id)
      && var (j, t) := (s.jobs.at[l.job.id], s.tallies[l.job.id]);
        SameTerms(j, l.job) && j.attempts == l.job.attempts && (j.status.Pending? || j.status.Cancelled?)
          && t.retries == t.marks
  }

  /** No job is inside two bodies that still have something to write. */
  ghost predicate Exclusive(s: State) {
    forall a, b :: 0 <= a < b < |s.bodies| && Live(s.bodies[a]) && Live(s.bodies[b]) ==>
      s.bodies[a].job.id != s.bodies[b].job.id
  }

  ghost predicate TableOk(s: State) {
    && Valid(s.jobs)
    && forall id :: id in s.jobs.at ==> id in s.tallies && s.jobs.at[id].id == id && JobOk(s.jobs.at[id], s.tallies[id])
  }

  ghost predicate Inv(s: State) {
    && TableOk(s) && Exclusive(s)
    && (forall b :: 0 <= b < |s.bodies| ==> BodyOk(s, s.bodies[b]))
    && (forall i :: 0 <= i < |s.loops| ==> LoopOk(s, s.loops[i]))
  }

  /** The event does not enqueue an id that is in the table already. */
  ghost predicate FreshEvent(s: State, e: Event) { e.Enqueue? ==> e.config.id !in s.jobs.at }

  lemma NextPendingStored(t: Table)
    requires Valid(t) && NextPending(t).Some?
    ensures exists id :: id in t.at && t.at[id] == NextPending(t).value && t.at[id].status.Pending?
  {
    NextOfIsSoonest(Values(t));
    var i :| 0 <= i < |Values(t)| && Values(t)[i] == NextPending(t).value;
    assert t.order[i] in t.at;
  }

  lemma FetchKeeps(cfg: Config, s: State, i: nat)
    requires Inv(s)
    ensures Inv(FetchStep(cfg, s, i))
  {
    if NextPending(s.jobs).Some? { NextPendingStored(s.jobs); }
  }

  lemma UpdateFacts(t: Table, id: string, p: Patch)
    requires Valid(t) && id in t.at
    ensures var t' := Update(t, id, p); Valid(t') && t'.at == t.at[id := Apply(t.at[id], p)]
  {
  }

  /** The step changed the job `id` and its tally, kept its terms, and nothing else in the table. */
  ghost predicate ChangedOnly(s: State, s': State, id: string) {
    && Stored(s, id) && Stored(s', id) && SameTerms(s.jobs.at[id], s'.jobs.at[id])
    && s'.jobs.at == s.jobs.at[id := s'.jobs.at[id]] && s'.tallies == s.tallies[id := s'.tallies[id]]
  }

  /** Bodies of other jobs do not notice, and neither do bodies whose writes are done. */
  lemma OthersKeep(s: State, s': State, id: string, b: Body)
    requires BodyOk(s, b) && ChangedOnly(s, s', id) && (b.job.id != id || !Live(b))
    ensures BodyOk(s', b)
  {
  }

  lemma TableKeeps(s: State, s': State, id: string)
    requires TableOk(s) && ChangedOnly(s, s', id) && Valid(s'.jobs)
    requires s'.jobs.at[id].id == id && JobOk(s'.jobs.at[id], s'.tallies[id])
    ensures TableOk(s')
  {
    hide Valid, JobOk, SameTerms;
  }

  lemma StartedTable(s: State, i: nat, now: int)
    requires i < |s.loops| && s.loops[i].Holding? && TableOk(s) && LoopOk(s, s.loops[i])
    ensures var (s', id) := (StartStep(s, i, now), s.loops[i].job.id);
      ChangedOnly(s, s', id) && TableOk(s')
  {
    hide BackoffTotal, Valid, NoLiveBody;
    var (job, s') := (s.loops[i].job, StartStep(s, i, now));
    UpdateFacts(s.jobs, job.id, MarkFailed("No handler registered", now));
    UpdateFacts(s.jobs, job.id, MarkRunning(job.attempts + 1, now));
    hide Update;
    TableKeeps(s, s', job.id);
  }

  lemma StartedBody(s: State, i: nat, now: int) returns (b: Body)
    requires i < |s.loops| && s.loops[i].Holding? && TableOk(s) && LoopOk(s, s.loops[i])
    ensures var (s', job) := (StartStep(s, i, now), s.loops[i].job);
      s'.bodies == s.bodies + [b] && b.job.id == job.id && BodyOk(s', b)
  {
    hide BackoffTotal, NoLiveBody;
    var (job, s') := (s.loops[i].job, StartStep(s, i, now));
    assert JobOk(s.jobs.at[job.id], s.tallies[job.id]);
    b := s'.bodies[|s.bodies|];
  }

  lemma AppendExclusive(s: State, s': State, b: Body)
    requires Exclusive(s) && s'.bodies == s.bodies + [b] && NoLiveBody(s, b.job.id)
    ensures Exclusive(s')
  {
  }

  lemma StartedRest(s: State, s': State, i: nat, b: Body, id: string)
    requires Inv(s) && i < |s.loops| && ChangedOnly(s, s', id) && TableOk(s') && NoLiveBody(s, id)
    requires s'.loops == s.loops[i := Idle] && s'.bodies == s.bodies + [b] && b.job.id == id && BodyOk(s', b)
    requires forall k :: 0 <= k < |s.loops| && k != i ==> s.loops[k].Exited?
    ensures Inv(s')
  {
    hide TableOk, Exclusive, JobOk;
    assert Exclusive(s') by { AppendExclusive(s, s', b); }
    assert forall c :: 0 <= c < |s.bodies| && Live(s.bodies[c]) ==> s.bodies[c].job.id != id;
    hide BodyOk, ChangedOnly, NoLiveBody;
    forall c | 0 <= c < |s.bodies| ensures BodyOk(s', s.bodies[c]) {
      OthersKeep(s, s', id, s.bodies[c]);
    }
  }

  lemma StartKeeps(s: State, i: nat, now: int)
    requires Inv(s) && LiveLoops(s.loops) <= 1
    ensures Inv(StartStep(s, i, now))
  {
    if i < |s.loops| && s.loops[i].Holding? {
      hide TableOk, BodyOk, ChangedOnly, Exclusive, LiveLoops, NoLiveBody, JobOk;
      LoopsFacts(s.loops);
      assert LoopOk(s, s.loops[i]);
      StartedTable(s, i, now);
      var b := StartedBody(s, i, now);
      assert StartStep(s, i, now).loops == s.loops[i := Idle];
      hide Inv, StartStep;
      StartedRest(s, StartStep(s, i, now), i, b, s.loops[i].job.id);
    }
  }

  lemma BackoffStep(delay: int, n: nat)
    requires n >= 1
    ensures BackoffTotal(delay, n - 1) + delay * Pow2(n - 1) == BackoffTotal(delay, n)
  {
  }

  lemma BodiesKeep(s: State, s': State, b: nat, body: Body)
    requires Inv(s) && b < |s.bodies| && ChangedOnly(s, s', body.job.id) && s'.bodies == s.bodies[b := body]
    requires Live(s.bodies[b]) && s.bodies[b].job.id == body.job.id && BodyOk(s', body)
    requires s'.loops == s.loops && TableOk(s')
    ensures Inv(s')
  {
    hide TableOk;
    forall c | 0 <= c < |s.bodies| ensures BodyOk(s', s'.bodies[c]) {
      if c != b {
        assert s.bodies[c].job.id != body.job.id || !Live(s.bodies[c]);
        OthersKeep(s, s', body.job.id, s.bodies[c]);
      }
    }
    hide BodyOk;
    forall i | 0 <= i < |s.loops| ensures LoopOk(s', s.loops[i]) {
      assert LoopOk(s, s.loops[i]);
    }
  }

  lemma FailKeeps(s: State, b: nat, error: string, now: int)
    requires Inv(s)
    ensures Inv(FailStep(s, b, error, now))
  {
    if b < |s.bodies| && s.bodies[b].phase.Executing? {
      var (body, s') := (s.bodies[b], FailStep(s, b, error, now));
      BackoffStep(body.job.retryDelay, body.job.attempts);
      FailedTable(s, b, error, now);
      BodiesKeep(s, s', b, s'.bodies[b]);
    }
  }

  lemma FailedTable(s: State, b: nat, error: string, now: int)
    requires TableOk(s) && b < |s.bodies| && s.bodies[b].phase.Executing? && BodyOk(s, s.bodies[b])
    ensures var (s', id) := (FailStep(s, b, error, now), s.bodies[b].job.id);
      ChangedOnly(s, s', id) && TableOk(s') && BodyOk(s', s'.bodies[b])
  {
    hide BackoffTotal, Pow2, Valid;
    var (job, s') := (s.bodies[b].job, FailStep(s, b, error, now));
    BackoffStep(job.retryDelay, job.attempts);
    UpdateFacts(s.jobs, job.id, MarkFailed(error, now));
    hide Update;
    TableKeeps(s, s', job.id);
  }

  lemma SettledTable(s: State, s': State, b: nat, p: Patch, phase: Phase)
    requires TableOk(s) && b < |s.bodies| && Live(s.bodies[b]) && BodyOk(s, s.bodies[b])
    requires phase.Finishing? && p.status.Some?
        && p == Patch(status := p.status, completedAt := p.completedAt, result := p.result, error := p.error)
    requires p.status.value.Pending? ==> s.bodies[b].phase.Backoff?
    requires s' == s.(jobs := Update(s.jobs, s.bodies[b].job.id, p),
          bodies := s.bodies[b := s.bodies[b].(phase := phase)])
    ensures ChangedOnly(s, s', s.bodies[b].job.id) && TableOk(s') && BodyOk(s', s'.bodies[b])
  {
    hide BackoffTotal, Valid;
    var job := s.bodies[b].job;
    assert JobOk(s.jobs.at[job.id], s.tallies[job.id]);
    UpdateFacts(s.jobs, job.id, p);
    hide Update;
    TableKeeps(s, s', job.id);
  }

  lemma SucceedKeeps(s: State, b: nat, result: string, now: int)
    requires Inv(s)
    ensures Inv(SucceedStep(s, b, result, now))
  {
    if b < |s.bodies| && s.bodies[b].phase.Executing? {
      var s' := SucceedStep(s, b, result, now);
      SettledTable(s, s', b, MarkCompleted(result, now), Finishing);
      BodiesKeep(s, s', b, s'.bodies[b]);
    }
  }

  lemma WakeKeeps(s: State, b: nat)
    requires Inv(s)
    ensures Inv(WakeStep(s, b))
  {
    if b < |s.bodies| && s.bodies[b].phase.Backoff? {
      var s' := WakeStep(s, b);
      SettledTable(s, s', b, MarkPending(s.bodies[b].error), Finishing);
      BodiesKeep(s, s', b, s'.bodies[b]);
    }
  }

  lemma FinishKeeps(s: State, b: nat)
    requires Inv(s)
    ensures Inv(FinishStep(s, b))
  {
    if b < |s.bodies| && s.bodies[b].phase.Finishing? {
      var s' := FinishStep(s, b);
      hide JobOk, Valid;
      forall c | 0 <= c < |s'.bodies| ensures BodyOk(s', s'.bodies[c]) {
        assert s'.bodies[c] == s.bodies[if c < b then c else c + 1];
      }
    }
  }

  lemma SameBodiesExclusive(s: State, s': State)
    requires Exclusive(s) && s'.bodies == s.bodies
    ensures Exclusive(s')
  {
  }

  /** The status alone changed, to cancelled, and nothing that is suspended moved. */
  lemma CancelledRest(s: State, s': State, id: string)
    requires Inv(s) && id in s.jobs.at && TableOk(s') && s'.bodies == s.bodies && s'.loops == s.loops
        && s'.tallies == s.tallies
    requires s'.jobs.at == s.jobs.at[id := s.jobs.at[id].(status := Cancelled)]
    ensures Inv(s')
  {
    SameBodiesExclusive(s, s');
    hide TableOk, JobOk, Exclusive, NoLiveBody;
    assert forall k :: NoLiveBody(s, k) ==> NoLiveBody(s', k) by { SameBodiesLive(s, s'); }
    forall b | 0 <= b < |s.bodies| ensures BodyOk(s', s.bodies[b]) { assert BodyOk(s, s.bodies[b]); }
    forall i | 0 <= i < |s.loops| ensures LoopOk(s', s.loops[i]) { assert LoopOk(s, s.loops[i]); }
  }

  lemma SameBodiesLive(s: State, s': State)
    requires s'.bodies == s.bodies
    ensures forall k :: NoLiveBody(s, k) ==> NoLiveBody(s', k)
  {
  }

  lemma CancelWriteKeeps(s: State, k: nat)
    requires Inv(s)
    ensures Inv(CancelWriteStep(s, k))
  {
    hide Exclusive, BodyOk, LoopOk, Valid;
    if k < |s.cancels| && s.cancels[k] in s.jobs.at {
      var (s', id, p) := (CancelWriteStep(s, k), s.cancels[k], Patch(status := Some(Cancelled)));
      UpdateFacts(s.jobs, id, p);
      assert JobOk(s.jobs.at[id], s.tallies[id]);
      hide BackoffTotal, Update;
      TableKeeps(s, s', id);
      assert Apply(s.jobs.at[id], p) == s.jobs.at[id].(status := Cancelled);
      hide TableOk, JobOk, Inv, Apply;
      CancelledRest(s, s', id);
    } else {
      hide TableOk, JobOk;
      if k < |s.cancels| { CancelNothing(s, k); }
    }
  }

  lemma CancelNothing(s: State, k: nat)
    requires Inv(s) && k < |s.cancels| && s.cancels[k] !in s.jobs.at
    ensures Inv(CancelWriteStep(s, k))
  {
    hide TableOk, JobOk, Valid;
    var s' := CancelWriteStep(s, k);
    assert TableOk(s') by { SameTable(s, s'); }
    SameBodiesExclusive(s, s');
    SameBodiesLive(s, s');
    hide Exclusive, NoLiveBody;
    forall b | 0 <= b < |s.bodies| ensures BodyOk(s', s.bodies[b]) { assert BodyOk(s, s.bodies[b]); }
    forall i | 0 <= i < |s.loops| ensures LoopOk(s', s.loops[i]) { assert LoopOk(s, s.loops[i]); }
  }

  lemma SameTable(s: State, s': State)
    requires TableOk(s) && s'.jobs == s.jobs && s'.tallies == s.tallies
    ensures TableOk(s')
  {
  }

  lemma EnqueueKeeps(cfg: Config, s: State, c: JobConfig, now: int)
    requires Inv(s) && c.id !in s.jobs.at
    ensures Inv(EnqueueStep(cfg, s, c, now))
  {
    if c.name in s.handlers {
      var s' := EnqueueStep(cfg, s, c, now);
      PutValid(s.jobs, c.id, NewJob(cfg, c, now));
      forall b | 0 <= b < |s.bodies| ensures BodyOk(s', s.bodies[b]) { assert BodyOk(s, s.bodies[b]); }
      forall i | 0 <= i < |s.loops| ensures LoopOk(s', s.loops[i]) { assert LoopOk(s, s.loops[i]); }
    }
  }

  lemma QuietKeeps(cfg: Config, s: State, e: Event)
    requires Inv(s) && (e.Register? || e.Unregister? || e.Kick? || e.CancelRead? || e.Stop?)
    ensures Inv(Step(cfg, s, e))
  {
    hide JobOk, Valid;
    var s' := Step(cfg, s, e);
    forall b | 0 <= b < |s.bodies| ensures BodyOk(s', s.bodies[b]) { assert BodyOk(s, s.bodies[b]); }
    forall i | 0 <= i < |s.loops| ensures LoopOk(s', s.loops[i]) { assert LoopOk(s, s.loops[i]); }
  }

  /** One event keeps the invariant, if at most one loop is alive and enqueued ids are fresh. */
  lemma StepKeeps(cfg: Config, s: State, e: Event)
    requires Inv(s) && LiveLoops(s.loops) <= 1 && FreshEvent(s, e)
    ensures Inv(Step(cfg, s, e))
  {
    hide Inv;
    match e
    case Enqueue(c, now) => EnqueueKeeps(cfg, s, c, now);
    case Fetch(i) => FetchKeeps(cfg, s, i);
    case Start(i, now) => StartKeeps(s, i, now);
    case Succeed(b, result, now) => SucceedKeeps(s, b, result, now);
    case Fail(b, error, now) => FailKeeps(s, b, error, now);
    case Wake(b) => WakeKeeps(s, b);
    case Finish(b) => FinishKeeps(s, b);
    case CancelWrite(k) => CancelWriteKeeps(s, k);
    case _ => QuietKeeps(cfg, s, e);
  }

  /** One loop at a time, and every enqueued id new. */
  ghost predicate Proper(cfg: Config, trace: seq<Event>) {
    && AtMostLive(cfg, trace, 1)
    && forall k :: 0 <= k < |trace| ==> FreshEvent(Run(cfg, trace[..k]), trace[k])
  }

  lemma ProperPrefix(cfg: Config, trace: seq<Event>, n: nat)
    requires Proper(cfg, trace) && n <= |trace|
    ensures Proper(cfg, trace[..n])
  {
    forall k | 0 <= k <= n ensures trace[..n][..k] == trace[..k] {}
  }

  /** Every reachable state meets the invariant. */
  lemma {:induction false} RunKeeps(cfg: Config, trace: seq<Event>)
    requires Proper(cfg, trace)
    ensures Inv(Run(cfg, trace))
  {
    if trace != [] {
      var n := |trace| - 1;
      ProperPrefix(cfg, trace, n);
      RunKeeps(cfg, trace[..n]);
      hide Inv;
      StepKeeps(cfg, Run(cfg, trace[..n]), trace[n]);
    }
  }
}
