/** The in-memory job storage. None of its methods awaits anything, so each is one step. */
module JobStorage {
  import opened Options
  import opened Lists
  import opened OrderedMap
  import opened Jobs
  import Model = JobQueueModel

  /** Count jobs by status in one pass. */
  method CountByStatus(jobs: seq<Job>) returns (stats: Stats)
    ensures stats == StatsOf(jobs)
  {
    stats := Stats(|jobs|, 0, 0, 0, 0, 0, 0);
    for i := 0 to |jobs|
      invariant stats == StatsOf(jobs[..i]).(total := |jobs|)
    {
      CountOneMore(jobs[..i], jobs[i]);
      assert jobs[..i + 1] == jobs[..i] + [jobs[i]];
      match jobs[i].status
      case Pending => stats := stats.(pending := stats.pending + 1);
      case Running => stats := stats.(running := stats.running + 1);
      case Completed => stats := stats.(completed := stats.completed + 1);
      case Failed => stats := stats.(failed := stats.failed + 1);
      case Cancelled => stats := stats.(cancelled := stats.cancelled + 1);
      case Scheduled => stats := stats.(scheduled := stats.scheduled + 1);
    }
    assert jobs[..|jobs|] == jobs;
  }

  lemma CountOneMore(jobs: seq<Job>, j: Job)
    ensures forall s :: Count(jobs + [j], s) == Count(jobs, s) + if j.status == s then 1 else 0
  {
    forall s ensures Count(jobs + [j], s) == Count(jobs, s) + if j.status == s then 1 else 0 {
      FilterConcat(jobs, [j], HasStatus(s));
      FilterOne(j, HasStatus(s));
    }
  }

  class InMemoryJobStorage {
    var jobs: Table

    ghost predicate Ok()
      reads this
    {
      Valid(jobs)
    }

    constructor ()
      ensures Ok() && jobs == Empty()
    {
      jobs := Empty();
    }

    method Save(job: Job)
      requires Ok()
      modifies this
      ensures Ok() && jobs == Put(old(jobs), job.id, job)
    {
      PutValid(jobs, job.id, job);
      jobs := Put(jobs, job.id, job);
    }

    method Get(id: string) returns (job: Option<Job>)
      ensures job == if id in jobs.at then Some(jobs.at[id]) else None
    {
      job := if id in jobs.at then Some(jobs.at[id]) else None;
    }

    /** Throws, here: returns false, when there is no such job. The entry keeps its key whatever id the patch sets. */
    method Update(id: string, updates: Patch) returns (found: bool)
      requires Ok()
      modifies this
      ensures Ok() && found == (id in old(jobs).at) && jobs == Model.Update(old(jobs), id, updates)
    {
      if id !in jobs.at {
        return false;
      }
      PutValid(jobs, id, Apply(jobs.at[id], updates));
      jobs := Put(jobs, id, Apply(jobs.at[id], updates));
      return true;
    }

    method Delete(id: string)
      requires Ok()
      modifies this
      ensures Ok() && jobs == Remove(old(jobs), id)
    {
      RemoveValid(jobs, id);
      jobs := Remove(jobs, id);
    }

    method QueryJobs(q: Query) returns (results: seq<Job>)
      requires Ok()
      ensures results == Answer(q, Values(jobs))
    {
      results := Filter(Values(jobs), Selects(q));
      if !q.sortBy.Unsorted? {
        results := Sort(results, InOrder(q));
      }
      if q.skip != 0 {
        results := From(q.skip, results);
      }
      if q.limit != 0 {
        results := UpTo(q.limit, results);
      }
    }

    method GetStats() returns (stats: Stats)
      requires Ok()
      ensures stats == StatsOf(Values(jobs))
    {
      stats := CountByStatus(Values(jobs));
    }

    method GetNextPending() returns (job: Option<Job>)
      requires Ok()
      ensures job == NextPending(jobs)
    {
      var pendingJobs := Filter(Values(jobs), IsPending());
      if |pendingJobs| == 0 {
        return None;
      }
      SoonerOrders(set j | j in pendingJobs);
      SortLeast(pendingJobs, Sooner(), (set j | j in pendingJobs));
      job := Some(Sort(pendingJobs, Sooner())[0]);
    }
  }
}
