/**
 The job queue over in-memory storage as a state machine. One event is one stretch of code between two awaits;
 what is suspended at an await (the processing loops, the job bodies, half-done cancels and enqueues) is part of
 the state, and any of it may run next.
 */
module JobQueueModel {
  import opened Options
  import opened OrderedMap
  import opened Jobs

  datatype Config = Config(maxConcurrency: int, defaultMaxRetries: int, defaultRetryDelay: int, defaultTimeout: int)

  datatype JobConfig = JobConfig(
    id: string, name: string, data: string, priority: Option<Priority>, maxRetries: Option<int>,
    retryDelay: Option<int>, timeout: Option<int>, cronExpression: Option<string>)

  /** A processing loop: about to look for a job, suspended with the job it was given, or ended. */
  datatype Loop = Idle | Holding(job: Job) | Exited

  /** A job body: its handler is running, it sleeps before a retry, or its last write is done. */
  datatype Phase = Executing | Backoff | Finishing

  datatype Body = Body(job: Job, phase: Phase, error: string)

  /** Bookkeeping of the model: how often a job was marked running, sent to back off, and for how long. */
  datatype Tally = Tally(marks: nat, retries: nat, slept: int)

  datatype State = State(
    jobs: Table, handlers: set<string>, processing: bool, activeJobs: int,
    loops: seq<Loop>, bodies: seq<Body>, kicks: nat, cancels: seq<string>,
    tallies: map<string, Tally>)

  datatype Event =
    | Register(name: string) | Unregister(name: string)
    | Enqueue(config: JobConfig, now: int)
    | Kick
    | Fetch(loop: nat)
    | Start(loop: nat, now: int)
    | Succeed(body: nat, result: string, now: int)
    | Fail(body: nat, error: string, now: int)
    | Wake(body: nat)
    | Finish(body: nat)
    | CancelRead(id: string) | CancelWrite(cancel: nat)
    | Stop

  const Initial := State(Empty(), {}, false, 0, [], [], 0, [], map[])

  function Pow2(n: nat): nat { if n == 0 then 1 else 2 * Pow2(n - 1) }

  function NewJob(cfg: Config, c: JobConfig, now: int): Job {
    Job(c.id, c.name, c.data, Pending, Or(c.priority, Normal), 0, Or(c.maxRetries, cfg.defaultMaxRetries),
        Or(c.retryDelay, cfg.defaultRetryDelay), Or(c.timeout, cfg.defaultTimeout), c.cronExpression,
        None, now, None, None, None, None, None)
  }

  /** Storage update; of a job that is not there it throws and changes nothing. */
  function Update(t: Table, id: string, p: Patch): Table {
    if id in t.at then Put(t, id, Apply(t.at[id], p)) else t
  }

  function MarkRunning(attempts: int, now: int): Patch {
    Patch(status := Some(Running), attempts := Some(attempts), startedAt := Some(Some(now)))
  }

  function MarkCompleted(result: string, now: int): Patch {
    Patch(status := Some(Completed), completedAt := Some(Some(now)), result := Some(Some(result)))
  }

  function MarkFailed(error: string, now: int): Patch {
    Patch(status := Some(Failed), failedAt := Some(Some(now)), error := Some(Some(error)))
  }

  function MarkPending(error: string): Patch {
    Patch(status := Some(Pending), error := Some(Some(error)))
  }

  /** `enqueue` up to its save: refused without a handler. */
  function EnqueueStep(cfg: Config, s: State, c: JobConfig, now: int): State {
    if c.name !in s.handlers then s
    else
      s.(jobs := Put(s.jobs, c.id, NewJob(cfg, c, now)), tallies := s.tallies[c.id := Tally(0, 0, 0)],
         kicks := s.kicks + 1)
  }

  /** The rest of an `enqueue`: start a loop when none is running. */
  function KickStep(s: State): State {
    if s.kicks == 0 then s
    else if s.processing then s.(kicks := s.kicks - 1)
    else s.(kicks := s.kicks - 1, processing := true, loops := s.loops + [Idle])
  }

  /** One turn of a loop up to the job it is given; with none to take, or no room, it sleeps and looks again. */
  function FetchStep(cfg: Config, s: State, i: nat): State
    requires Valid(s.jobs)
  {
    if i >= |s.loops| || !s.loops[i].Idle? then s
    else if !s.processing then s.(loops := s.loops[i := Exited])
    else if s.activeJobs >= cfg.maxConcurrency then s
    else match NextPending(s.jobs)
         case None => s
         case Some(job) => s.(loops := s.loops[i := Holding(job)])
  }

  /** The loop goes on with the job it was given: count it, and run its body up to the first await. */
  function StartStep(s: State, i: nat, now: int): State {
    if i >= |s.loops| || !s.loops[i].Holding? then s
    else
      var job := s.loops[i].job;
      var s' := s.(loops := s.loops[i := Idle], activeJobs := s.activeJobs + 1);
      if job.name !in s.handlers then
        var error := "No handler registered";
        s'.(jobs := Update(s.jobs, job.id, MarkFailed(error, now)), bodies := s.bodies + [Body(job, Finishing, error)])
      else
        var running := job.(attempts := job.attempts + 1);
        var tally := if job.id in s.tallies then s.tallies[job.id] else Tally(0, 0, 0);
        s'.(jobs := Update(s.jobs, job.id, MarkRunning(running.attempts, now)),
            bodies := s.bodies + [Body(running, Executing, "")],
            tallies := s.tallies[job.id := tally.(marks := tally.marks + 1)])
  }

  function SucceedStep(s: State, b: nat, result: string, now: int): State {
    if b >= |s.bodies| || !s.bodies[b].phase.Executing? then s
    else
      var body := s.bodies[b];
      s.(jobs := Update(s.jobs, body.job.id, MarkCompleted(result, now)),
         bodies := s.bodies[b := body.(phase := Finishing)])
  }

  /** The handler threw or timed out: back off if there are retries left, give up otherwise. */
  function FailStep(s: State, b: nat, error: string, now: int): State {
    if b >= |s.bodies| || !s.bodies[b].phase.Executing? then s
    else
      var body := s.bodies[b];
      if body.job.attempts <= body.job.maxRetries then
        var tally := if body.job.id in s.tallies then s.tallies[body.job.id] else Tally(0, 0, 0);
        var delay := body.job.retryDelay * Pow2(if body.job.attempts < 1 then 0 else body.job.attempts - 1);
        s.(bodies := s.bodies[b := body.(phase := Backoff, error := error)],
           tallies := s.tallies[body.job.id := tally.(retries := tally.retries + 1, slept := tally.slept + delay)])
      else
        s.(jobs := Update(s.jobs, body.job.id, MarkFailed(error, now)),
           bodies := s.bodies[b := body.(phase := Finishing, error := error)])
  }

  function WakeStep(s: State, b: nat): State {
    if b >= |s.bodies| || !s.bodies[b].phase.Backoff? then s
    else
      var body := s.bodies[b];
      s.(jobs := Update(s.jobs, body.job.id, MarkPending(body.error)),
         bodies := s.bodies[b := body.(phase := Finishing)])
  }

  /** The body returns and its slot is given back. */
  function FinishStep(s: State, b: nat): State {
    if b >= |s.bodies| || !s.bodies[b].phase.Finishing? then s
    else s.(bodies := s.bodies[..b] + s.bodies[b + 1..], activeJobs := s.activeJobs - 1)
  }

  /** `cancel` reads the job; it refuses one that is missing or running. */
  function CancelReadStep(s: State, id: string): State {
    if id in s.jobs.at && !s.jobs.at[id].status.Running? then s.(cancels := s.cancels + [id]) else s
  }

  function CancelWriteStep(s: State, k: nat): State {
    if k >= |s.cancels| then s
    else
      s.(jobs := Update(s.jobs, s.cancels[k], Patch(status := Some(Cancelled))),
         cancels := s.cancels[..k] + s.cancels[k + 1..])
  }

  function Step(cfg: Config, s: State, e: Event): State
    requires Valid(s.jobs)
  {
    match e
    case Register(name) => s.(handlers := s.handlers + {name})
    case Unregister(name) => s.(handlers := s.handlers - {name})
    case Enqueue(c, now) => EnqueueStep(cfg, s, c, now)
    case Kick => KickStep(s)
    case Fetch(i) => FetchStep(cfg, s, i)
    case Start(i, now) => StartStep(s, i, now)
    case Succeed(b, result, now) => SucceedStep(s, b, result, now)
    case Fail(b, error, now) => FailStep(s, b, error, now)
    case Wake(b) => WakeStep(s, b)
    case Finish(b) => FinishStep(s, b)
    case CancelRead(id) => CancelReadStep(s, id)
    case CancelWrite(k) => CancelWriteStep(s, k)
    case Stop => s.(processing := false)
  }

  lemma StepValid(cfg: Config, s: State, e: Event)
    requires Valid(s.jobs)
    ensures Valid(Step(cfg, s, e).jobs)
  {
    forall id, j ensures Valid(Put(s.jobs, id, j)) { PutValid(s.jobs, id, j); }
    hide Put, Valid, NextPending, NewJob, Apply;
  }

  function Run(cfg: Config, trace: seq<Event>): (s: State)
    ensures Valid(s.jobs)
  {
    if trace == [] then Initial
    else
      var before := Run(cfg, trace[..|trace| - 1]);
      StepValid(cfg, before, trace[|trace| - 1]);
      Step(cfg, before, trace[|trace| - 1])
  }

  lemma RunSnoc(cfg: Config, trace: seq<Event>, e: Event)
    ensures Run(cfg, trace + [e]) == Step(cfg, Run(cfg, trace), e)
  {
    assert (trace + [e])[..|trace + [e]| - 1] == trace;
  }

  /** The state some events later. */
  function Follow(cfg: Config, s: State, events: seq<Event>): (s': State)
    requires Valid(s.jobs)
    ensures Valid(s'.jobs)
    decreases |events|
  {
    if events == [] then s
    else
      StepValid(cfg, s, events[0]);
      Follow(cfg, Step(cfg, s, events[0]), events[1..])
  }

  lemma FollowOne(cfg: Config, s: State, e: Event, rest: seq<Event>)
    requires Valid(s.jobs)
    ensures Valid(Step(cfg, s, e).jobs) && Follow(cfg, s, [e] + rest) == Follow(cfg, Step(cfg, s, e), rest)
  {
    hide Step, Valid;
    StepValid(cfg, s, e);
    assert ([e] + rest)[1..] == rest;
  }

  lemma {:induction false} RunFollow(cfg: Config, trace: seq<Event>, more: seq<Event>)
    ensures Run(cfg, trace + more) == Follow(cfg, Run(cfg, trace), more)
    decreases |more|
  {
    hide Run, Step, Valid;
    if more == [] {
      assert trace + more == trace;
    } else {
      RunSnoc(cfg, trace, more[0]);
      RunFollow(cfg, trace + [more[0]], more[1..]);
      assert trace + more == (trace + [more[0]]) + more[1..];
      hide Follow;
      FollowOne(cfg, Run(cfg, trace), more[0], more[1..]);
      assert more == [more[0]] + more[1..];
    }
  }

  /** Follow one event to a known state. */
  lemma FollowTo(cfg: Config, s: State, events: seq<Event>, next: State)
    requires Valid(s.jobs) && events != [] && Step(cfg, s, events[0]) == next
    ensures Valid(next.jobs) && Follow(cfg, s, events) == Follow(cfg, next, events[1..])
  {
    hide Step;
    StepValid(cfg, s, events[0]);
  }
}
