/** The promises of the job queue, told from the trace of events. */
module JobQueueTheorems {
  import opened Options
  import opened OrderedMap
  import opened Jobs
  import opened JobQueueModel
  import opened JobQueueSafety

  /** The event marks the job as running: a loop starts it, and its handler is there. */
  predicate Marks(s: State, e: Event, id: string) {
    e.Start? && e.loop < |s.loops| && s.loops[e.loop].Holding? && s.loops[e.loop].job.id == id &&
    s.loops[e.loop].job.name in s.handlers
  }

  function TimesMarked(cfg: Config, trace: seq<Event>, id: string): nat {
    if trace == [] then 0
    else
      var n := |trace| - 1;
      TimesMarked(cfg, trace[..n], id) + if Marks(Run(cfg, trace[..n]), trace[n], id) then 1 else 0
  }

  /** The last event of a proper trace happens in a state that meets the invariant. */
  lemma LastEvent(cfg: Config, trace: seq<Event>)
    requires Proper(cfg, trace) && trace != []
    ensures var (n, before) := (|trace| - 1, Run(cfg, trace[..|trace| - 1]));
      Proper(cfg, trace[..n]) && Inv(before) && LiveLoops(before.loops) <= 1
        && FreshEvent(before, trace[n]) && Run(cfg, trace) == Step(cfg, before, trace[n])
  {
    ProperPrefix(cfg, trace, |trace| - 1);
    RunKeeps(cfg, trace[..|trace| - 1]);
  }

  ghost predicate Tallied(cfg: Config, s: State, e: Event, id: string)
    requires Valid(s.jobs)
  {
    var s' := Step(cfg, s, e);
    && (Stored(s, id) ==>
          Stored(s', id) && s'.tallies[id].marks == s.tallies[id].marks + if Marks(s, e, id) then 1 else 0)
    && (id !in s.jobs.at ==> !Marks(s, e, id) && (id in s'.jobs.at ==> id in s'.tallies && s'.tallies[id].marks == 0))
  }

  lemma TallyStart(cfg: Config, s: State, e: Event, id: string)
    requires Inv(s) && e.Start?
    ensures Tallied(cfg, s, e, id)
  {
    hide JobOk, Valid, Exclusive, NoLiveBody, Apply, BodyOk;
    if e.loop < |s.loops| { assert LoopOk(s, s.loops[e.loop]); }
  }

  lemma TallyBody(cfg: Config, s: State, e: Event, id: string)
    requires Inv(s) && (e.Succeed? || e.Fail? || e.Wake?)
    ensures Tallied(cfg, s, e, id)
  {
    hide JobOk, Valid, Exclusive, NoLiveBody, Apply, LoopOk, Pow2;
    if e.body < |s.bodies| { assert BodyOk(s, s.bodies[e.body]); }
  }

  lemma TallyElse(cfg: Config, s: State, e: Event, id: string)
    requires Inv(s) && FreshEvent(s, e) && !e.Start? && !e.Succeed? && !e.Fail? && !e.Wake?
    ensures Tallied(cfg, s, e, id)
  {
    hide JobOk, Valid, Exclusive, NoLiveBody, Apply, LoopOk, BodyOk, NextPending, NewJob;
  }

  lemma TallyStep(cfg: Config, s: State, e: Event, id: string)
    requires Inv(s) && FreshEvent(s, e)
    ensures Tallied(cfg, s, e, id)
  {
    hide Tallied;
    if e.Start? { TallyStart(cfg, s, e, id); }
    else if e.Succeed? || e.Fail? || e.Wake? { TallyBody(cfg, s, e, id); }
    else { TallyElse(cfg, s, e, id); }
  }

  lemma {:induction false} TallyCountsMarks(cfg: Config, trace: seq<Event>, id: string)
    requires Proper(cfg, trace)
    ensures var s := Run(cfg, trace);
      if id in s.jobs.at then id in s.tallies && s.tallies[id].marks == TimesMarked(cfg, trace, id)
      else TimesMarked(cfg, trace, id) == 0
  {
    if trace != [] {
      var n := |trace| - 1;
      LastEvent(cfg, trace);
      assert TableOk(Run(cfg, trace[..n]));
      hide Inv, Proper, Step, Run;
      TallyCountsMarks(cfg, trace[..n], id);
      TallyStep(cfg, Run(cfg, trace[..n]), trace[n], id);
    }
  }

  /** No job is inside two bodies at once, and with one loop the active bodies never exceed the limit. */
  lemma NoJobTwiceAtOnce(cfg: Config, trace: seq<Event>)
    requires Proper(cfg, trace)
    ensures var s := Run(cfg, trace);
      && s.activeJobs == |s.bodies| <= Capacity(cfg)
      && forall a, b :: 0 <= a < b < |s.bodies| && !s.bodies[a].phase.Finishing? && !s.bodies[b].phase.Finishing? ==>
           s.bodies[a].job.id != s.bodies[b].job.id
  {
    RunKeeps(cfg, trace);
    ConcurrencyBound(cfg, trace, 1);
  }

  /** Stored attempts are the number of times the job was marked running, at most once more than its retries. */
  lemma AttemptsAreMarks(cfg: Config, trace: seq<Event>, id: string)
    requires Proper(cfg, trace) && id in Run(cfg, trace).jobs.at
    ensures var j := Run(cfg, trace).jobs.at[id];
      j.attempts == TimesMarked(cfg, trace, id) <= (if j.maxRetries < 0 then 0 else j.maxRetries) + 1
  {
    RunKeeps(cfg, trace);
    TallyCountsMarks(cfg, trace, id);
  }

  lemma {:induction false} Pow2Grows(m: nat, n: nat)
    requires m <= n
    ensures 1 <= Pow2(m) <= Pow2(n)
  {
    if m < n { Pow2Grows(m, n - 1); } else if m > 0 { Pow2Grows(m - 1, n - 1); }
  }

  lemma SleptBound(j: Job, t: Tally)
    requires JobOk(j, t) && j.retryDelay >= 0
    ensures t.slept <= j.retryDelay * (Pow2(Retries(j)) - 1)
  {
    Pow2Grows(t.retries, Retries(j));
    MulMonotone(j.retryDelay, Pow2(t.retries) - 1, Pow2(Retries(j)) - 1);
  }

  /** The event sends a failed attempt of the job to sleep: for how long. */
  function Sleep(s: State, e: Event, id: string): int {
    if e.Fail? && e.body < |s.bodies| && s.bodies[e.body].phase.Executing? && s.bodies[e.body].job.id == id then
      var job := s.bodies[e.body].job;
      if job.attempts <= job.maxRetries && job.attempts >= 1 then job.retryDelay * Pow2(job.attempts - 1) else 0
    else 0
  }

  /** How long all backoffs of a job sleep in a trace. */
  function TimeSlept(cfg: Config, trace: seq<Event>, id: string): int {
    if trace == [] then 0
    else
      var n := |trace| - 1;
      TimeSlept(cfg, trace[..n], id) + Sleep(Run(cfg, trace[..n]), trace[n], id)
  }

  ghost predicate Slept(cfg: Config, s: State, e: Event, id: string)
    requires Valid(s.jobs)
  {
    var s' := Step(cfg, s, e);
    && (Stored(s, id) ==> Stored(s', id) && s'.tallies[id].slept == s.tallies[id].slept + Sleep(s, e, id))
    && (id !in s.jobs.at ==>
          Sleep(s, e, id) == 0 && (id in s'.jobs.at ==> id in s'.tallies && s'.tallies[id].slept == 0))
  }

  lemma SleptStart(cfg: Config, s: State, e: Event, id: string)
    requires Inv(s) && e.Start?
    ensures Slept(cfg, s, e, id)
  {
    hide JobOk, Valid, Exclusive, NoLiveBody, Apply, BodyOk, Pow2;
    if e.loop < |s.loops| { assert LoopOk(s, s.loops[e.loop]); }
  }

  lemma SleptBody(cfg: Config, s: State, e: Event, id: string)
    requires Inv(s) && (e.Succeed? || e.Fail? || e.Wake?)
    ensures Slept(cfg, s, e, id)
  {
    hide JobOk, Valid, Exclusive, NoLiveBody, Apply, LoopOk, Pow2;
    if e.body < |s.bodies| { assert BodyOk(s, s.bodies[e.body]); }
  }

  lemma SleptElse(cfg: Config, s: State, e: Event, id: string)
    requires Inv(s) && FreshEvent(s, e) && !e.Start? && !e.Succeed? && !e.Fail? && !e.Wake?
    ensures Slept(cfg, s, e, id)
  {
    hide JobOk, Valid, Exclusive, NoLiveBody, Apply, LoopOk, BodyOk, NextPending, NewJob, Pow2;
  }

  lemma SleptStep(cfg: Config, s: State, e: Event, id: string)
    requires Inv(s) && FreshEvent(s, e)
    ensures Slept(cfg, s, e, id)
  {
    hide Slept;
    if e.Start? { SleptStart(cfg, s, e, id); }
    else if e.Succeed? || e.Fail? || e.Wake? { SleptBody(cfg, s, e, id); }
    else { SleptElse(cfg, s, e, id); }
  }

  lemma {:induction false} TallyCountsSleep(cfg: Config, trace: seq<Event>, id: string)
    requires Proper(cfg, trace)
    ensures var s := Run(cfg, trace);
      if id in s.jobs.at then id in s.tallies && s.tallies[id].slept == TimeSlept(cfg, trace, id)
      else TimeSlept(cfg, trace, id) == 0
  {
    if trace != [] {
      var n := |trace| - 1;
      LastEvent(cfg, trace);
      assert TableOk(Run(cfg, trace[..n]));
      hide Inv, Proper, Step, Run, Sleep;
      TallyCountsSleep(cfg, trace[..n], id);
      SleptStep(cfg, Run(cfg, trace[..n]), trace[n], id);
    }
  }

  /** All backoffs of one job together sleep at most retryDelay * (2^maxRetries - 1). */
  lemma BackoffBound(cfg: Config, trace: seq<Event>, id: string)
    requires Proper(cfg, trace) && id in Run(cfg, trace).jobs.at
    requires Run(cfg, trace).jobs.at[id].retryDelay >= 0
    ensures var j := Run(cfg, trace).jobs.at[id]; TimeSlept(cfg, trace, id) <= j.retryDelay * (Pow2(Retries(j)) - 1)
  {
    hide Run, JobOk, BodyOk, LoopOk, Exclusive, Valid, TimeSlept, Pow2, Proper;
    RunKeeps(cfg, trace);
    TallyCountsSleep(cfg, trace, id);
    var s := Run(cfg, trace);
    SleptBound(s.jobs.at[id], s.tallies[id]);
  }

  lemma MulMonotone(d: int, a: int, b: int)
    requires d >= 0 && a <= b
    ensures d * a <= d * b
  {
  }

  // ---------- termination ----------

  function AttemptSum(order: seq<string>, at: map<string, Job>): int {
    if order == [] then 0
    else AttemptSum(order[..|order| - 1], at) + if order[|order| - 1] in at then at[order[|order| - 1]].attempts else 0
  }

  function BudgetSum(order: seq<string>, at: map<string, Job>): nat {
    if order == [] then 0
    else BudgetSum(order[..|order| - 1], at) + if order[|order| - 1] in at then Budget(at[order[|order| - 1]]) else 0
  }

  function Attempts(t: Table): int { AttemptSum(t.order, t.at) }

  function Budgets(t: Table): nat { BudgetSum(t.order, t.at) }

  lemma {:induction false} SumsChange(order: seq<string>, at: map<string, Job>, id: string, j: Job)
    requires id in at && forall a, b :: 0 <= a < b < |order| ==> order[a] != order[b]
    ensures AttemptSum(order, at[id := j])
         == AttemptSum(order, at) + if id in order then j.attempts - at[id].attempts else 0
    ensures BudgetSum(order, at[id := j])
         == BudgetSum(order, at) + if id in order then Budget(j) - Budget(at[id]) else 0
  {
    if order != [] {
      var n := |order| - 1;
      SumsChange(order[..n], at, id, j);
      assert order == order[..n] + [order[n]];
    }
  }

  lemma {:induction false} SumsIgnore(order: seq<string>, at: map<string, Job>, id: string, j: Job)
    requires id !in order
    ensures AttemptSum(order, at[id := j]) == AttemptSum(order, at)
    ensures BudgetSum(order, at[id := j]) == BudgetSum(order, at)
  {
    if order != [] {
      SumsIgnore(order[..|order| - 1], at, id, j);
    }
  }

  lemma {:induction false} SumsBound(order: seq<string>, at: map<string, Job>)
    requires forall id :: id in at ==> at[id].attempts <= Budget(at[id])
    ensures AttemptSum(order, at) <= BudgetSum(order, at)
  {
    if order != [] { SumsBound(order[..|order| - 1], at); }
  }

  predicate MarksSome(s: State, e: Event) {
    e.Start? && e.loop < |s.loops| && s.loops[e.loop].Holding? && s.loops[e.loop].job.name in s.handlers
  }

  function AllMarks(cfg: Config, trace: seq<Event>): nat {
    if trace == [] then 0
    else
      var n := |trace| - 1;
      AllMarks(cfg, trace[..n]) + if MarksSome(Run(cfg, trace[..n]), trace[n]) then 1 else 0
  }

  lemma UpdateSums(s: State, id: string, p: Patch)
    requires Valid(s.jobs) && id in s.jobs.at && p.maxRetries.None?
    ensures var t := Update(s.jobs, id, p);
      && Attempts(t) == Attempts(s.jobs) + Or(p.attempts, s.jobs.at[id].attempts) - s.jobs.at[id].attempts
      && Budgets(t) == Budgets(s.jobs)
  {
    SumsChange(s.jobs.order, s.jobs.at, id, Apply(s.jobs.at[id], p));
  }

  lemma PutSums(t: Table, id: string, j: Job)
    requires Valid(t) && id !in t.at
    ensures Attempts(Put(t, id, j)) == Attempts(t) + j.attempts
    ensures Budgets(Put(t, id, j)) == Budgets(t) + Budget(j)
  {
    SumsIgnore(t.order, t.at, id, j);
    assert (t.order + [id])[..|t.order|] == t.order;
  }

  lemma BodyWriteSums(s: State, b: nat, p: Patch)
    requires Valid(s.jobs) && b < |s.bodies| && BodyOk(s, s.bodies[b]) && p.maxRetries.None? && p.attempts.None?
    ensures var t := Update(s.jobs, s.bodies[b].job.id, p);
      Attempts(t) == Attempts(s.jobs) && Budgets(t) == Budgets(s.jobs)
  {
    UpdateSums(s, s.bodies[b].job.id, p);
  }

  lemma StartSums(s: State, i: nat, now: int)
    requires Valid(s.jobs) && i < |s.loops| && LoopOk(s, s.loops[i])
    ensures var s' := StartStep(s, i, now);
      Attempts(s'.jobs) == Attempts(s.jobs) + (if MarksSome(s, Start(i, now)) then 1 else 0)
        && Budgets(s'.jobs) == Budgets(s.jobs)
  {
    hide NoLiveBody, Attempts, Budgets;
    if s.loops[i].Holding? {
      var job := s.loops[i].job;
      if job.name in s.handlers {
        UpdateSums(s, job.id, MarkRunning(job.attempts + 1, now));
      } else {
        UpdateSums(s, job.id, MarkFailed("No handler registered", now));
      }
      hide Update;
    }
  }

  /** The budget of the job the event enqueues, if it enqueues one. */
  function Added(cfg: Config, s: State, e: Event): nat {
    if e.Enqueue? && e.config.name in s.handlers then Budget(NewJob(cfg, e.config, e.now)) else 0
  }

  /** How an event changes the sums of attempts and of budgets over all jobs. */
  lemma SumsStep(cfg: Config, s: State, e: Event)
    requires Inv(s) && FreshEvent(s, e)
    ensures var s' := Step(cfg, s, e);
      && Attempts(s'.jobs) == Attempts(s.jobs) + (if MarksSome(s, e) then 1 else 0)
      && Budgets(s'.jobs) == Budgets(s.jobs) + Added(cfg, s, e)
  {
    hide Update, JobOk, Exclusive, BodyOk, LoopOk, Attempts, Budgets;
    match e
    case Start(i, now) => if i < |s.loops| { StartSums(s, i, now); }
    case Fail(b, error, now) => if b < |s.bodies| { BodyWriteSums(s, b, MarkFailed(error, now)); }
    case Wake(b) => if b < |s.bodies| { BodyWriteSums(s, b, MarkPending(s.bodies[b].error)); }
    case Succeed(b, result, now) => if b < |s.bodies| { BodyWriteSums(s, b, MarkCompleted(result, now)); }
    case CancelWrite(k) => CancelSums(s, k);
    case Enqueue(c, now) => PutSums(s.jobs, c.id, NewJob(cfg, c, now));
    case _ =>
  }

  lemma CancelSums(s: State, k: nat)
    requires Valid(s.jobs)
    ensures var t := CancelWriteStep(s, k).jobs;
      Attempts(t) == Attempts(s.jobs) && Budgets(t) == Budgets(s.jobs)
  {
    if k < |s.cancels| && s.cancels[k] in s.jobs.at {
      UpdateSums(s, s.cancels[k], Patch(status := Some(Cancelled)));
    }
  }

  lemma {:induction false} AllMarksAreAttempts(cfg: Config, trace: seq<Event>)
    requires Proper(cfg, trace)
    ensures AllMarks(cfg, trace) == Attempts(Run(cfg, trace).jobs)
  {
    if trace != [] {
      var n := |trace| - 1;
      LastEvent(cfg, trace);
      hide Inv, Proper, Budgets, Attempts, Run, Step;
      AllMarksAreAttempts(cfg, trace[..n]);
      SumsStep(cfg, Run(cfg, trace[..n]), trace[n]);
    }
  }

  lemma AttemptsWithinBudgets(s: State)
    requires TableOk(s)
    ensures Attempts(s.jobs) <= Budgets(s.jobs)
  {
    forall id | id in s.jobs.at ensures s.jobs.at[id].attempts <= Budget(s.jobs.at[id]) {
      assert JobOk(s.jobs.at[id], s.tallies[id]);
    }
    SumsBound(s.jobs.order, s.jobs.at);
  }

  /** Event `k` of a proper trace happens in a state that meets the invariant. */
  lemma EventAt(cfg: Config, trace: seq<Event>, k: nat)
    requires Proper(cfg, trace) && k < |trace|
    ensures var before := Run(cfg, trace[..k]);
      Inv(before) && LiveLoops(before.loops) <= 1 && FreshEvent(before, trace[k])
        && Run(cfg, trace[..k + 1]) == Step(cfg, before, trace[k])
  {
    ProperPrefix(cfg, trace, k);
    RunKeeps(cfg, trace[..k]);
    assert trace[..k + 1][..k] == trace[..k];
  }

  lemma {:induction false} BudgetUnchanged(cfg: Config, trace: seq<Event>, from: nat, upTo: nat)
    requires Proper(cfg, trace) && from <= upTo <= |trace|
    requires forall i :: from <= i < upTo ==> !trace[i].Enqueue?
    ensures Budgets(Run(cfg, trace[..upTo]).jobs) == Budgets(Run(cfg, trace[..from]).jobs)
    decreases upTo
  {
    hide Inv, Proper, Budgets, Attempts, Run, Step;
    if upTo > from {
      BudgetUnchanged(cfg, trace, from, upTo - 1);
      EventAt(cfg, trace, upTo - 1);
      SumsStep(cfg, Run(cfg, trace[..upTo - 1]), trace[upTo - 1]);
    }
  }

  /**
   Once nothing is enqueued any more, jobs are marked running at most as often as their budgets have left:
   for every job one start and maxRetries more, less the attempts it already had.
   */
  lemma MarksAreBounded(cfg: Config, trace: seq<Event>, from: nat)
    requires Proper(cfg, trace) && from <= |trace|
    requires forall i :: from <= i < |trace| ==> !trace[i].Enqueue?
    ensures var s := Run(cfg, trace[..from]);
      AllMarks(cfg, trace) - AllMarks(cfg, trace[..from]) <= Budgets(s.jobs) - Attempts(s.jobs)
  {
    ProperPrefix(cfg, trace, from);
    RunKeeps(cfg, trace);
    AttemptsWithinBudgets(Run(cfg, trace));
    AllMarksAreAttempts(cfg, trace);
    AllMarksAreAttempts(cfg, trace[..from]);
    BudgetUnchanged(cfg, trace, from, |trace|);
    assert trace[..|trace|] == trace;
  }

  // ---------- what is over stays over ----------

  /** A settled job that no loop holds and no body works on. */
  ghost predicate Over(s: State, id: string) {
    && Stored(s, id) && NoLiveBody(s, id)
    && (s.jobs.at[id].status.Completed? || s.jobs.at[id].status.Failed? || s.jobs.at[id].status.Cancelled?)
    && forall i :: 0 <= i < |s.loops| && s.loops[i].Holding? ==> s.loops[i].job.id != id
  }

  lemma UpdateOther(t: Table, other: string, p: Patch, id: string)
    requires id in t.at && id != other
    ensures id in Update(t, other, p).at && Update(t, other, p).at[id] == t.at[id]
  {
  }

  /** A write of a live body is about another job. */
  lemma OverBodyWrite(s: State, b: nat, p: Patch, id: string)
    requires Over(s, id) && b < |s.bodies| && Live(s.bodies[b])
    ensures s.bodies[b].job.id != id
    ensures var t := Update(s.jobs, s.bodies[b].job.id, p); id in t.at && t.at[id] == s.jobs.at[id]
    ensures forall body: Body :: body.job.id == s.bodies[b].job.id ==> NoLiveBody(s.(bodies := s.bodies[b := body]), id)
  {
    UpdateOther(s.jobs, s.bodies[b].job.id, p, id);
  }

  lemma OverFetch(cfg: Config, s: State, i: nat, id: string)
    requires TableOk(s) && Over(s, id)
    ensures Over(FetchStep(cfg, s, i), id)
  {
    hide JobOk, Valid;
    if NextPending(s.jobs).Some? { NextPendingStored(s.jobs); }
  }

  lemma OverStart(s: State, i: nat, now: int, id: string)
    requires Over(s, id)
    ensures Over(StartStep(s, i, now), id) && !Marks(s, Start(i, now), id)
  {
    hide Apply;
    if i < |s.loops| && s.loops[i].Holding? {
      UpdateOther(s.jobs, s.loops[i].job.id, MarkFailed("No handler registered", now), id);
      UpdateOther(s.jobs, s.loops[i].job.id, MarkRunning(s.loops[i].job.attempts + 1, now), id);
      hide Update;
    }
  }

  lemma OverCancel(s: State, k: nat, id: string)
    requires Over(s, id)
    ensures Over(CancelWriteStep(s, k), id)
  {
  }

  lemma OverStep(cfg: Config, s: State, e: Event, id: string)
    requires Inv(s) && FreshEvent(s, e) && Over(s, id)
    ensures Over(Step(cfg, s, e), id) && !Marks(s, e, id)
  {
    hide JobOk, Valid, Exclusive, BodyOk, LoopOk, TableOk, Update;
    match e
    case Fetch(i) => OverFetch(cfg, s, i, id);
    case Start(i, now) => OverStart(s, i, now, id);
    case Fail(b, error, now) => if b < |s.bodies| && Live(s.bodies[b]) {
      OverBodyWrite(s, b, MarkFailed(error, now), id);
    }
    case Wake(b) => if b < |s.bodies| && Live(s.bodies[b]) { OverBodyWrite(s, b, MarkPending(s.bodies[b].error), id); }
    case Succeed(b, result, now) => if b < |s.bodies| && Live(s.bodies[b]) {
      OverBodyWrite(s, b, MarkCompleted(result, now), id);
    }
    case Finish(b) => FinishOver(s, b, id);
    case CancelWrite(k) => OverCancel(s, k, id);
    case _ =>
  }

  lemma FinishOver(s: State, b: nat, id: string)
    requires NoLiveBody(s, id)
    ensures NoLiveBody(FinishStep(s, b), id)
  {
    if b < |s.bodies| && s.bodies[b].phase.Finishing? {
      var s' := FinishStep(s, b);
      forall c | 0 <= c < |s'.bodies| && Live(s'.bodies[c]) ensures s'.bodies[c].job.id != id {
        assert s'.bodies[c] == s.bodies[if c < b then c else c + 1];
      }
    }
  }

  lemma {:induction false} OverForever(cfg: Config, trace: seq<Event>, from: nat, upTo: nat, id: string)
    requires Proper(cfg, trace) && from <= upTo <= |trace| && Over(Run(cfg, trace[..from]), id)
    ensures Over(Run(cfg, trace[..upTo]), id)
    ensures TimesMarked(cfg, trace[..upTo], id) == TimesMarked(cfg, trace[..from], id)
    decreases upTo
  {
    hide Inv, Proper, Run, Step, Over;
    if upTo > from {
      OverForever(cfg, trace, from, upTo - 1, id);
      EventAt(cfg, trace, upTo - 1);
      OverStep(cfg, Run(cfg, trace[..upTo - 1]), trace[upTo - 1], id);
      assert trace[..upTo][..upTo - 1] == trace[..upTo - 1];
    }
  }

  /** A job that is completed or failed at some point is never marked running again. */
  lemma SettledNeverRestarts(cfg: Config, trace: seq<Event>, from: nat, id: string)
    requires Proper(cfg, trace) && from <= |trace| && id in Run(cfg, trace[..from]).jobs.at
    requires var st := Run(cfg, trace[..from]).jobs.at[id].status; st.Completed? || st.Failed?
    ensures TimesMarked(cfg, trace, id) == TimesMarked(cfg, trace[..from], id)
  {
    ProperPrefix(cfg, trace, from);
    RunKeeps(cfg, trace[..from]);
    SettledIsOver(Run(cfg, trace[..from]), id);
    OverForever(cfg, trace, from, |trace|, id);
    assert trace[..|trace|] == trace;
  }

  lemma SettledIsOver(s: State, id: string)
    requires Inv(s) && id in s.jobs.at && (s.jobs.at[id].status.Completed? || s.jobs.at[id].status.Failed?)
    ensures Over(s, id)
  {
    forall b | 0 <= b < |s.bodies| && Live(s.bodies[b]) ensures s.bodies[b].job.id != id {
      assert BodyOk(s, s.bodies[b]);
    }
    forall i | 0 <= i < |s.loops| && s.loops[i].Holding? ensures s.loops[i].job.id != id {
      assert LoopOk(s, s.loops[i]);
    }
  }

  // ---------- when a cancel takes effect ----------

  /** Nothing suspended is about to write to the job: no loop holds it and no body works on it. */
  ghost predicate Untouched(s: State, id: string) {
    NoLiveBody(s, id) && forall i :: 0 <= i < |s.loops| && s.loops[i].Holding? ==> s.loops[i].job.id != id
  }

  lemma CancelWriteOver(s: State, k: nat)
    requires k < |s.cancels| && Stored(s, s.cancels[k]) && Untouched(s, s.cancels[k])
    ensures Over(CancelWriteStep(s, k), s.cancels[k]) && !Marks(s, CancelWrite(k), s.cancels[k])
  {
  }

  /** A cancel that is written while the job is untouched takes effect: the job never starts again. */
  lemma CancelSticks(cfg: Config, trace: seq<Event>, from: nat, k: nat)
    requires Proper(cfg, trace) && from < |trace| && trace[from] == CancelWrite(k)
    requires var s := Run(cfg, trace[..from]); k < |s.cancels| && Stored(s, s.cancels[k]) && Untouched(s, s.cancels[k])
    ensures var id := Run(cfg, trace[..from]).cancels[k];
      TimesMarked(cfg, trace, id) == TimesMarked(cfg, trace[..from], id)
  {
    hide Inv, Proper, Run, Over, Untouched, Stored;
    var s := Run(cfg, trace[..from]);
    CancelWriteOver(s, k);
    EventAt(cfg, trace, from);
    OverForever(cfg, trace, from + 1, |trace|, s.cancels[k]);
    assert trace[..|trace|] == trace && trace[..from + 1][..from] == trace[..from];
  }

  /** A cancel that is written while a loop holds the job is lost: that loop's next step starts the job anyway. */
  lemma CancelIsLost(s: State, k: nat, i: nat, now: int)
    requires Inv(s) && k < |s.cancels| && i < |s.loops| && s.loops[i].Holding?
    requires s.loops[i].job.id == s.cancels[k] && s.loops[i].job.name in s.handlers
    ensures var s' := CancelWriteStep(s, k); var s'' := StartStep(s', i, now);
      && s.cancels[k] in s'.jobs.at && s'.jobs.at[s.cancels[k]].status.Cancelled?
      && Marks(s', Start(i, now), s.cancels[k]) && s''.jobs.at[s.cancels[k]].status.Running?
  {
    assert LoopOk(s, s.loops[i]);
  }

  // ---------- why one loop at a time matters ----------

  /** With two loops alive, both may take the same pending job: two bodies of it, and two slots, at once. */
  lemma TwoLoopsTakeOneJob(cfg: Config, s: State, i: nat, j: nat, job: Job, now: int)
    requires Valid(s.jobs) && i < j < |s.loops| && s.loops[i].Idle? && s.loops[j].Idle? && s.processing
    requires s.activeJobs < cfg.maxConcurrency && NextPending(s.jobs) == Some(job) && job.name in s.handlers
    ensures var s' := StartStep(StartStep(FetchStep(cfg, FetchStep(cfg, s, i), j), i, now), j, now);
      var n := |s.bodies|;
      && s'.activeJobs == s.activeJobs + 2 && |s'.bodies| == n + 2
      && s'.bodies[n].job.id == s'.bodies[n + 1].job.id == job.id && s'.bodies[n].phase.Executing?
           && s'.bodies[n + 1].phase.Executing?
  {
    var s1 := FetchStep(cfg, s, i);
    var s2 := FetchStep(cfg, s1, j);
    assert s1.jobs == s.jobs && s2.loops == s.loops[i := Holding(job)][j := Holding(job)];
    hide NextPending, Update, FetchStep;
    var s3 := StartStep(s2, i, now);
    assert s3.loops[j] == Holding(job) && s3.handlers == s.handlers && |s3.bodies| == |s.bodies| + 1;
  }
}
