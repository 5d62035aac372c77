/** What every event writes to a job, and how a job ends, told from the events of the run. */
module JobQueueOutcome {
  import opened Options
  import opened OrderedMap
  import opened Jobs
  import opened JobQueueModel
  import opened JobQueueSafety
  import opened JobQueueTheorems

  // ---------- the events of a job ----------

  /** The event ends the handler of an executing body of the job. */
  ghost predicate Ends(s: State, e: Event, id: string) {
    (e.Succeed? || e.Fail?) && e.body < |s.bodies| && s.bodies[e.body].phase.Executing? && s.bodies[e.body].job.id == id
  }

  ghost predicate Completes(s: State, e: Event, id: string) { e.Succeed? && Ends(s, e, id) }

  /** The handler threw in the last attempt the job has. */
  ghost predicate GivesUp(s: State, e: Event, id: string) {
    e.Fail? && Ends(s, e, id) && s.bodies[e.body].job.attempts > s.bodies[e.body].job.maxRetries
  }

  /** A loop goes on with the job it holds. */
  ghost predicate Takes(s: State, e: Event, id: string) {
    e.Start? && e.loop < |s.loops| && s.loops[e.loop].Holding? && s.loops[e.loop].job.id == id
  }

  ghost predicate Handled(s: State, e: Event, id: string) {
    Takes(s, e, id) && s.loops[e.loop].job.name in s.handlers
  }

  ghost predicate Unhandled(s: State, e: Event, id: string) {
    Takes(s, e, id) && s.loops[e.loop].job.name !in s.handlers
  }

  /** The backoff of the job is over. */
  ghost predicate Retries(s: State, e: Event, id: string) {
    e.Wake? && e.body < |s.bodies| && s.bodies[e.body].phase.Backoff? && s.bodies[e.body].job.id == id
  }

  ghost predicate Cancels(s: State, e: Event, id: string) {
    e.CancelWrite? && e.cancel < |s.cancels| && s.cancels[e.cancel] == id
  }

  // ---------- what they write ----------

  /** The job's record after the event. */
  ghost function Written(s: State, e: Event, id: string, j: Job): Job {
    if Completes(s, e, id) then j.(status := Completed, completedAt := Some(e.now), result := Some(e.result))
    else if GivesUp(s, e, id) then j.(status := Failed, failedAt := Some(e.now), error := Some(e.error))
    else if Unhandled(s, e, id)
    then j.(status := Failed, failedAt := Some(e.now), error := Some("No handler registered"))
    else if Handled(s, e, id) then j.(status := Running, attempts := j.attempts + 1, startedAt := Some(e.now))
    else if Retries(s, e, id) then j.(status := Pending, error := Some(s.bodies[e.body].error))
    else if Cancels(s, e, id) then j.(status := Cancelled)
    else j
  }

  lemma PatchedIs(j: Job, now: int, n: int, text: string)
    ensures Apply(j, MarkRunning(n, now)) == j.(status := Running, attempts := n, startedAt := Some(now))
    ensures Apply(j, MarkCompleted(text, now))
         == j.(status := Completed, completedAt := Some(now), result := Some(text))
    ensures Apply(j, MarkFailed(text, now)) == j.(status := Failed, failedAt := Some(now), error := Some(text))
    ensures Apply(j, MarkPending(text)) == j.(status := Pending, error := Some(text))
    ensures Apply(j, Patch(status := Some(Cancelled))) == j.(status := Cancelled)
  {
  }

  lemma UpdatedAt(t: Table, other: string, p: Patch, id: string)
    requires id in t.at
    ensures id in Update(t, other, p).at
    ensures Update(t, other, p).at[id] == if other == id then Apply(t.at[id], p) else t.at[id]
    ensures Update(t, other, p).order == t.order
  {
  }

  ghost predicate WritesTold(s: State, e: Event, id: string, t: Table)
    requires id in s.jobs.at
  {
    id in t.at && t.at[id] == Written(s, e, id, s.jobs.at[id]) && (!e.Enqueue? ==> t.order == s.jobs.order)
  }

  /** Every event writes to a stored job what it is told to, and nothing else; jobs and their order stay. */
  lemma EventWrites(cfg: Config, s: State, e: Event, id: string)
    requires Inv(s) && FreshEvent(s, e) && id in s.jobs.at
    ensures WritesTold(s, e, id, Step(cfg, s, e).jobs)
  {
    hide Inv, FreshEvent, WritesTold, StartStep, SucceedStep, FailStep, WakeStep, CancelWriteStep;
    TableIsValid(s);
    match e
    case Start(i, now) => StartWrites(s, i, now, id);
    case Succeed(b, result, now) => SucceedWrites(s, b, result, now, id);
    case Fail(b, error, now) => FailWrites(s, b, error, now, id);
    case Wake(b) => WakeWrites(s, b, id);
    case CancelWrite(k) => CancelWrites(s, k, id);
    case _ => RestWrites(cfg, s, e, id);
  }

  /** A job as it is enqueued: what the caller gave, or else the queue's defaults. */
  ghost predicate AsAsked(cfg: Config, c: JobConfig, now: int, j: Job) {
    && j.id == c.id && j.name == c.name && j.data == c.data && j.cronExpression == c.cronExpression
    && j.status.Pending? && j.attempts == 0 && j.createdAt == now && j.nextRun.None? && NotYet(j)
    && (c.priority.None? ==> j.priority.Normal?) && (c.priority.Some? ==> c.priority.value == j.priority)
    && (c.maxRetries.None? ==> j.maxRetries == cfg.defaultMaxRetries)
    && (c.maxRetries.Some? ==> c.maxRetries.value == j.maxRetries)
    && (c.retryDelay.None? ==> j.retryDelay == cfg.defaultRetryDelay)
    && (c.retryDelay.Some? ==> c.retryDelay.value == j.retryDelay)
    && (c.timeout.None? ==> j.timeout == cfg.defaultTimeout)
    && (c.timeout.Some? ==> c.timeout.value == j.timeout)
  }

  /** Not started, not over, and without error or result. */
  ghost predicate NotYet(j: Job) {
    j.startedAt.None? && j.completedAt.None? && j.failedAt.None? && j.error.None? && j.result.None?
  }

  /** An enqueue is refused exactly without a handler; otherwise the job is stored last, as it was asked for. */
  lemma EnqueueWrites(cfg: Config, s: State, c: JobConfig, now: int)
    requires Valid(s.jobs) && c.id !in s.jobs.at
    ensures var t := Step(cfg, s, Enqueue(c, now));
      if c.name in s.handlers then
        && t.jobs.order == s.jobs.order + [c.id] && t.jobs.at.Keys == s.jobs.at.Keys + {c.id}
        && AsAsked(cfg, c, now, t.jobs.at[c.id])
        && forall id :: id in s.jobs.at ==> t.jobs.at[id] == s.jobs.at[id]
      else t == s
  {
  }

  lemma TableIsValid(s: State)
    requires Inv(s)
    ensures Valid(s.jobs)
  {
  }

  lemma RestWrites(cfg: Config, s: State, e: Event, id: string)
    requires Valid(s.jobs) && FreshEvent(s, e) && id in s.jobs.at
    requires !e.Start? && !e.Succeed? && !e.Fail? && !e.Wake? && !e.CancelWrite?
    ensures WritesTold(s, e, id, Step(cfg, s, e).jobs)
  {
    hide Valid, NextPending, NewJob;
  }

  lemma WakeWrites(s: State, b: nat, id: string)
    requires id in s.jobs.at
    ensures WritesTold(s, Wake(b), id, WakeStep(s, b).jobs)
  {
    hide Update, Apply, MarkPending;
    if b < |s.bodies| {
      UpdatedAt(s.jobs, s.bodies[b].job.id, MarkPending(s.bodies[b].error), id);
      PatchedIs(s.jobs.at[id], 0, 0, s.bodies[b].error);
    }
  }

  lemma CancelWrites(s: State, k: nat, id: string)
    requires id in s.jobs.at
    ensures WritesTold(s, CancelWrite(k), id, CancelWriteStep(s, k).jobs)
  {
    hide Update, Apply;
    if k < |s.cancels| {
      UpdatedAt(s.jobs, s.cancels[k], Patch(status := Some(Cancelled)), id);
      PatchedIs(s.jobs.at[id], 0, 0, "");
    }
  }

  lemma SucceedWrites(s: State, b: nat, result: string, now: int, id: string)
    requires id in s.jobs.at
    ensures WritesTold(s, Succeed(b, result, now), id, SucceedStep(s, b, result, now).jobs)
  {
    hide Update, Apply, MarkCompleted;
    if b < |s.bodies| {
      UpdatedAt(s.jobs, s.bodies[b].job.id, MarkCompleted(result, now), id);
      PatchedIs(s.jobs.at[id], now, 0, result);
    }
  }

  lemma FailWrites(s: State, b: nat, error: string, now: int, id: string)
    requires id in s.jobs.at
    ensures WritesTold(s, Fail(b, error, now), id, FailStep(s, b, error, now).jobs)
  {
    hide Update, Apply, MarkFailed, Pow2;
    if b < |s.bodies| {
      UpdatedAt(s.jobs, s.bodies[b].job.id, MarkFailed(error, now), id);
      PatchedIs(s.jobs.at[id], now, 0, error);
    }
  }

  lemma StartWrites(s: State, i: nat, now: int, id: string)
    requires Inv(s) && id in s.jobs.at
    ensures WritesTold(s, Start(i, now), id, StartStep(s, i, now).jobs)
  {
    hide TableOk, JobOk, Valid, Update, Apply, MarkRunning, MarkFailed;
    if i < |s.loops| && s.loops[i].Holding? {
      var job := s.loops[i].job;
      assert LoopOk(s, s.loops[i]);
      UpdatedAt(s.jobs, job.id, MarkRunning(job.attempts + 1, now), id);
      UpdatedAt(s.jobs, job.id, MarkFailed("No handler registered", now), id);
      PatchedIs(s.jobs.at[id], now, job.attempts + 1, "No handler registered");
    }
  }

  /** Right after its handler returned, a job is completed with the result and the time, and otherwise as it was. */
  lemma SuccessCompletes(cfg: Config, trace: seq<Event>, b: nat, result: string, now: int)
    requires Proper(cfg, trace) && b < |Run(cfg, trace).bodies| && Run(cfg, trace).bodies[b].phase.Executing?
    ensures var (s, s') := (Run(cfg, trace), Run(cfg, trace + [Succeed(b, result, now)]));
      var id := s.bodies[b].job.id;
      && id in s.jobs.at && id in s'.jobs.at
      && s'.jobs.at[id] == s.jobs.at[id].(status := Completed, completedAt := Some(now), result := Some(result))
  {
    RunKeeps(cfg, trace);
    RunSnoc(cfg, trace, Succeed(b, result, now));
    hide Run, JobOk, TableOk, Step;
    var s := Run(cfg, trace);
    assert BodyOk(s, s.bodies[b]);
    EventWrites(cfg, s, Succeed(b, result, now), s.bodies[b].job.id);
  }

  // ---------- how a job ends ----------

  /** The event of that number completes the job, and no later cancel is written over it. */
  ghost predicate CompletedAt(cfg: Config, trace: seq<Event>, k: nat, id: string)
    requires k < |trace|
  {
    Completes(Run(cfg, trace[..k]), trace[k], id) && NoCancelFrom(cfg, trace, k + 1, id)
  }

  /** The event fails the job for good, and no later cancel is written over it. */
  ghost predicate FailedAt(cfg: Config, trace: seq<Event>, k: nat, id: string)
    requires k < |trace|
  {
    var s := Run(cfg, trace[..k]);
    (GivesUp(s, trace[k], id) || Unhandled(s, trace[k], id)) && NoCancelFrom(cfg, trace, k + 1, id)
  }

  ghost predicate CancelledAt(cfg: Config, trace: seq<Event>, h: nat, id: string)
    requires h < |trace|
  {
    Cancels(Run(cfg, trace[..h]), trace[h], id)
  }

  ghost predicate NoCancelFrom(cfg: Config, trace: seq<Event>, from: nat, id: string) {
    forall h :: from <= h < |trace| ==> !CancelledAt(cfg, trace, h, id)
  }

  ghost predicate EverCompleted(cfg: Config, trace: seq<Event>, id: string) {
    exists k :: 0 <= k < |trace| && CompletedAt(cfg, trace, k, id)
  }

  ghost predicate EverFailed(cfg: Config, trace: seq<Event>, id: string) {
    exists k :: 0 <= k < |trace| && FailedAt(cfg, trace, k, id)
  }

  lemma SettledStays(cfg: Config, s: State, e: Event, id: string)
    requires Inv(s) && FreshEvent(s, e) && id in s.jobs.at && !Cancels(s, e, id)
    requires s.jobs.at[id].status.Completed? || s.jobs.at[id].status.Failed?
    ensures Written(s, e, id, s.jobs.at[id]) == s.jobs.at[id]
    ensures !Completes(s, e, id) && !GivesUp(s, e, id) && !Unhandled(s, e, id)
  {
    SettledIsOver(s, id);
    hide Inv;
  }

  lemma EverSnoc(cfg: Config, trace: seq<Event>, e: Event, id: string)
    ensures var (s, longer) := (Run(cfg, trace), trace + [e]);
      && (EverCompleted(cfg, longer, id) <==>
            Completes(s, e, id) || (EverCompleted(cfg, trace, id) && !Cancels(s, e, id)))
      && (EverFailed(cfg, longer, id) <==>
            GivesUp(s, e, id) || Unhandled(s, e, id) || (EverFailed(cfg, trace, id) && !Cancels(s, e, id)))
  {
    hide Run, Completes, GivesUp, Unhandled, Cancels;
    var (n, longer) := (|trace|, trace + [e]);
    assert longer[..n] == trace;
    forall h | 0 <= h < n ensures CancelledAt(cfg, longer, h, id) == CancelledAt(cfg, trace, h, id) {
      assert longer[..h] == trace[..h];
    }
    assert CancelledAt(cfg, longer, n, id) == Cancels(Run(cfg, trace), e, id);
    forall k | 0 <= k < n
      ensures CompletedAt(cfg, longer, k, id) <==> CompletedAt(cfg, trace, k, id) && !Cancels(Run(cfg, trace), e, id)
      ensures FailedAt(cfg, longer, k, id) <==> FailedAt(cfg, trace, k, id) && !Cancels(Run(cfg, trace), e, id)
    {
      assert longer[..k] == trace[..k];
      NoCancelSnoc(cfg, trace, e, k + 1, id);
    }
    assert CompletedAt(cfg, longer, n, id) <==> Completes(Run(cfg, trace), e, id);
    assert FailedAt(cfg, longer, n, id) <==> GivesUp(Run(cfg, trace), e, id) || Unhandled(Run(cfg, trace), e, id);
    hide CompletedAt, FailedAt;
  }

  lemma NoCancelSnoc(cfg: Config, trace: seq<Event>, e: Event, from: nat, id: string)
    requires from <= |trace|
    ensures NoCancelFrom(cfg, trace + [e], from, id)
      <==> NoCancelFrom(cfg, trace, from, id) && !Cancels(Run(cfg, trace), e, id)
  {
    hide Run, Cancels;
    var (n, longer) := (|trace|, trace + [e]);
    assert longer[..n] == trace;
    forall h | 0 <= h < n ensures CancelledAt(cfg, longer, h, id) == CancelledAt(cfg, trace, h, id) {
      assert longer[..h] == trace[..h];
    }
    assert CancelledAt(cfg, longer, n, id) == Cancels(Run(cfg, trace), e, id);
    hide CancelledAt;
  }
  /** Events of a job are about a stored one. */
  lemma OnlyStored(s: State, e: Event, id: string)
    requires Inv(s) && (Ends(s, e, id) || Takes(s, e, id))
    ensures id in s.jobs.at
  {
    hide TableOk, JobOk;
    if Ends(s, e, id) { assert BodyOk(s, s.bodies[e.body]); } else { assert LoopOk(s, s.loops[e.loop]); }
  }

  lemma JobsStay(cfg: Config, s: State, e: Event, id: string)
    requires Valid(s.jobs) && id !in s.jobs.at && id in Step(cfg, s, e).jobs.at
    ensures e.Enqueue? && Step(cfg, s, e).jobs.at[id].status.Pending?
  {
    hide Valid, NextPending, Apply, Pow2;
  }

  ghost predicate OutcomeTold(cfg: Config, trace: seq<Event>, id: string) {
    var jobs := Run(cfg, trace).jobs;
    if id in jobs.at
    then (jobs.at[id].status.Completed? <==> EverCompleted(cfg, trace, id))
      && (jobs.at[id].status.Failed? <==> EverFailed(cfg, trace, id))
    else !EverCompleted(cfg, trace, id) && !EverFailed(cfg, trace, id)
  }

  lemma OutcomeStep(cfg: Config, trace: seq<Event>, e: Event, id: string)
    requires OutcomeTold(cfg, trace, id) && Inv(Run(cfg, trace)) && FreshEvent(Run(cfg, trace), e)
    ensures OutcomeTold(cfg, trace + [e], id)
  {
    hide Run, Step, Inv, FreshEvent, EverCompleted, EverFailed;
    var s := Run(cfg, trace);
    RunSnoc(cfg, trace, e);
    EverSnoc(cfg, trace, e, id);
    if id in s.jobs.at {
      EventWrites(cfg, s, e, id);
      var j := s.jobs.at[id];
      if (j.status.Completed? || j.status.Failed?) && !Cancels(s, e, id) { SettledStays(cfg, s, e, id); }
      hide Completes, GivesUp, Unhandled, Handled, Retries, Cancels;
      EventsApart(s, e, id);
    } else {
      if Ends(s, e, id) || Takes(s, e, id) { OnlyStored(s, e, id); }
      hide Ends, Takes, Cancels;
      if id in Step(cfg, s, e).jobs.at { JobsStay(cfg, s, e, id); }
    }
  }

  lemma EventsApart(s: State, e: Event, id: string)
    ensures Cancels(s, e, id) ==> !Completes(s, e, id) && !GivesUp(s, e, id) && !Unhandled(s, e, id)
    ensures Completes(s, e, id) ==> !GivesUp(s, e, id) && !Unhandled(s, e, id)
    ensures Handled(s, e, id) ==> !Unhandled(s, e, id) && !GivesUp(s, e, id)
  {
  }

  /**
   In every proper run a stored job is completed exactly when some event of the run ended its handler with success and
   no cancel was written over it, and failed exactly when some event gave it up, or found no handler, and none was.
   */
  lemma {:induction false} OutcomeIff(cfg: Config, trace: seq<Event>, id: string)
    requires Proper(cfg, trace)
    ensures OutcomeTold(cfg, trace, id)
  {
    hide Inv, FreshEvent, Proper, Step;
    if trace == [] {
      assert Run(cfg, trace) == Initial;
    } else {
      var n := |trace| - 1;
      LastEvent(cfg, trace);
      OutcomeIff(cfg, trace[..n], id);
      assert trace == trace[..n] + [trace[n]];
      hide Run, OutcomeTold;
      OutcomeStep(cfg, trace[..n], trace[n], id);
    }
  }
}
