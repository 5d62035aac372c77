/**
 The job queue object. Each method is the code between two awaits of one of the source's asynchronous methods;
 what those leave suspended is kept in `loops`, `bodies`, `kicks` and `cancels`. Every method takes exactly the
 step of `JobQueueModel` that bears its name, so the theorems about runs are theorems about this object.
 */
module JobQueue {
  import opened Options
  import opened Jobs
  import opened JobStorage
  import Model = JobQueueModel

  class JobQueue {
    var handlers: set<string>
    const storage: InMemoryJobStorage
    var processing: bool
    var activeJobs: int
    const cfg: Model.Config
    var loops: seq<Model.Loop>
    var bodies: seq<Model.Body>
    var kicks: nat
    var cancels: seq<string>
    ghost var tallies: map<string, Model.Tally>

    ghost function View(): Model.State
      reads this, storage
    {
      Model.State(storage.jobs, handlers, processing, activeJobs, loops, bodies, kicks, cancels, tallies)
    }

    constructor (cfg: Model.Config)
      ensures storage.Ok() && fresh(storage) && View() == Model.Initial && this.cfg == cfg
    {
      this.cfg := cfg;
      handlers, processing, activeJobs := {}, false, 0;
      loops, bodies, kicks, cancels, tallies := [], [], 0, [], map[];
      storage := new InMemoryJobStorage();
    }

    /** Refused when the name is taken. */
    method RegisterHandler(name: string) returns (accepted: bool)
      requires storage.Ok()
      modifies this
      ensures View() == Model.Step(cfg, old(View()), Model.Register(name)) && accepted == (name !in old(handlers))
    {
      accepted := name !in handlers;
      handlers := handlers + {name};
    }

    method UnregisterHandler(name: string)
      requires storage.Ok()
      modifies this
      ensures View() == Model.Step(cfg, old(View()), Model.Unregister(name))
    {
      handlers := handlers - {name};
    }

    /** `enqueue` up to the save; no job when there is no handler for it. */
    method Enqueue(config: Model.JobConfig, now: int) returns (job: Option<Job>)
      requires storage.Ok()
      modifies this, storage
      ensures storage.Ok() && View() == Model.Step(cfg, old(View()), Model.Enqueue(config, now))
      ensures job == if config.name in old(handlers) then Some(Model.NewJob(cfg, config, now)) else None
    {
      if config.name !in handlers {
        return None;
      }
      var maxRetries := if config.maxRetries.Some? then config.maxRetries.value else cfg.defaultMaxRetries;
      var retryDelay := if config.retryDelay.Some? then config.retryDelay.value else cfg.defaultRetryDelay;
      var timeout := if config.timeout.Some? then config.timeout.value else cfg.defaultTimeout;
      var priority := if config.priority.Some? then config.priority.value else Normal;
      job := Some(Job(config.id, config.name, config.data, Pending, priority, 0, maxRetries, retryDelay, timeout,
                      config.cronExpression, None, now, None, None, None, None, None));
      storage.Save(job.value);
      kicks := kicks + 1;
      tallies := tallies[config.id := Model.Tally(0, 0, 0)];
    }

    /** The rest of `enqueue`. */
    method StartProcessing()
      requires storage.Ok()
      modifies this
      ensures View() == Model.Step(cfg, old(View()), Model.Kick)
    {
      if kicks == 0 {
        return;
      }
      kicks := kicks - 1;
      if processing {
        return;
      }
      processing := true;
      loops := loops + [Model.Idle];
    }

    /** One turn of the loop, from the test of `processing` to the job it awaits. */
    method LoopTurn(i: nat)
      requires storage.Ok() && i < |loops| && loops[i].Idle?
      modifies this
      ensures View() == Model.Step(cfg, old(View()), Model.Fetch(i))
    {
      if !processing {
        loops := loops[i := Model.Exited];
        return;
      }
      if activeJobs >= cfg.maxConcurrency {
        return;
      }
      var job := storage.GetNextPending();
      if job.Some? {
        loops := loops[i := Model.Holding(job.value)];
      }
    }

    /** The loop resumes with its job and runs the job's body up to the first await. */
    method LoopResume(i: nat, now: int)
      requires storage.Ok() && i < |loops| && loops[i].Holding?
      modifies this, storage
      ensures storage.Ok() && View() == Model.Step(cfg, old(View()), Model.Start(i, now))
    {
      var job := loops[i].job;
      loops := loops[i := Model.Idle];
      activeJobs := activeJobs + 1;
      if job.name !in handlers {
        var error := "No handler registered";
        var _ := storage.Update(
          job.id, Patch(status := Some(Failed), failedAt := Some(Some(now)), error := Some(Some(error))));
        bodies := bodies + [Model.Body(job, Model.Finishing, error)];
        return;
      }
      job := job.(attempts := job.attempts + 1);
      var _ := storage.Update(
        job.id, Patch(status := Some(Running), attempts := Some(job.attempts), startedAt := Some(Some(now))));
      bodies := bodies + [Model.Body(job, Model.Executing, "")];
      ghost var tally := if job.id in tallies then tallies[job.id] else Model.Tally(0, 0, 0);
      tallies := tallies[job.id := tally.(marks := tally.marks + 1)];
    }

    method HandlerReturns(b: nat, result: string, now: int)
      requires storage.Ok() && b < |bodies| && bodies[b].phase.Executing?
      modifies this, storage
      ensures storage.Ok() && View() == Model.Step(cfg, old(View()), Model.Succeed(b, result, now))
    {
      var _ := storage.Update(
        bodies[b].job.id,
        Patch(status := Some(Completed), completedAt := Some(Some(now)), result := Some(Some(result))));
      bodies := bodies[b := bodies[b].(phase := Model.Finishing)];
    }

    /** The handler throws, or its timeout is up first. */
    method HandlerThrows(b: nat, error: string, now: int)
      requires storage.Ok() && b < |bodies| && bodies[b].phase.Executing?
      modifies this, storage
      ensures storage.Ok() && View() == Model.Step(cfg, old(View()), Model.Fail(b, error, now))
    {
      var job := bodies[b].job;
      if job.attempts <= job.maxRetries {
        bodies := bodies[b := bodies[b].(phase := Model.Backoff, error := error)];
        ghost var tally := if job.id in tallies then tallies[job.id] else Model.Tally(0, 0, 0);
        ghost var delay := job.retryDelay * Model.Pow2(if job.attempts < 1 then 0 else job.attempts - 1);
        tallies := tallies[job.id := tally.(retries := tally.retries + 1, slept := tally.slept + delay)];
      } else {
        var _ := storage.Update(
          job.id, Patch(status := Some(Failed), failedAt := Some(Some(now)), error := Some(Some(error))));
        bodies := bodies[b := bodies[b].(phase := Model.Finishing, error := error)];
      }
    }

    method RetryDelayEnds(b: nat)
      requires storage.Ok() && b < |bodies| && bodies[b].phase.Backoff?
      modifies this, storage
      ensures storage.Ok() && View() == Model.Step(cfg, old(View()), Model.Wake(b))
    {
      var _ := storage.Update(bodies[b].job.id, Patch(status := Some(Pending), error := Some(Some(bodies[b].error))));
      bodies := bodies[b := bodies[b].(phase := Model.Finishing)];
    }

    method BodyReturns(b: nat)
      requires storage.Ok() && b < |bodies| && bodies[b].phase.Finishing?
      modifies this
      ensures View() == Model.Step(cfg, old(View()), Model.Finish(b))
    {
      bodies := bodies[..b] + bodies[b + 1..];
      activeJobs := activeJobs - 1;
    }

    /** `cancel` up to its read: refused when the job is missing or running. */
    method Cancel(id: string) returns (accepted: bool)
      requires storage.Ok()
      modifies this
      ensures View() == Model.Step(cfg, old(View()), Model.CancelRead(id))
      ensures accepted == (id in storage.jobs.at && storage.jobs.at[id].status != Running)
    {
      var job := storage.Get(id);
      if job.None? || job.value.status == Running {
        return false;
      }
      cancels := cancels + [id];
      return true;
    }

    method CancelResumes(k: nat)
      requires storage.Ok() && k < |cancels|
      modifies this, storage
      ensures storage.Ok() && View() == Model.Step(cfg, old(View()), Model.CancelWrite(k))
    {
      var _ := storage.Update(cancels[k], Patch(status := Some(Cancelled)));
      cancels := cancels[..k] + cancels[k + 1..];
    }

    method StopProcessing()
      requires storage.Ok()
      modifies this
      ensures View() == Model.Step(cfg, old(View()), Model.Stop)
    {
      processing := false;
    }
  }
}
