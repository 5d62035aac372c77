/** The persistent job storage over a key-value backend that lists its keys in insertion order. */
module PersistentStorage {
  import opened Options
  import opened Lists
  import opened Decimal
  import opened Iso
  import opened OrderedMap
  import opened Jobs
  import opened JobStorage
  import opened PersistentJobs
  import opened PersistentAgreement

  class KvBackend {
    var table: Kv

    ghost predicate Ok()
      reads this
    {
      Valid(table)
    }

    constructor ()
      ensures Ok() && table == Empty()
    {
      table := Empty();
    }

    method Get(key: string) returns (value: Option<Value>)
      ensures value == if key in table.at then Some(table.at[key]) else None
    {
      value := if key in table.at then Some(table.at[key]) else None;
    }

    method Set(key: string, value: Value)
      requires Ok()
      modifies this
      ensures Ok() && table == Put(old(table), key, value)
    {
      PutValid(table, key, value);
      table := Put(table, key, value);
    }

    method Delete(key: string)
      requires Ok()
      modifies this
      ensures Ok() && table == Remove(old(table), key)
    {
      RemoveValid(table, key);
      table := Remove(table, key);
    }

    method Keys() returns (keys: seq<string>)
      ensures keys == table.order
    {
      keys := table.order;
    }
  }

  class PersistentJobStorage {
    const backend: KvBackend

    constructor (backend: KvBackend)
      ensures this.backend == backend
    {
      this.backend := backend;
    }

    method Save(job: Job)
      requires backend.Ok()
      modifies backend
      ensures backend.Ok() && backend.table == KvSave(old(backend.table), job)
    {
      backend.Set(JobKey(job.id), JobValue(Serialize(job)));
    }

    method Get(id: string) returns (job: Option<Job>)
      ensures job == KvGet(backend.table, id)
    {
      var raw := backend.Get(JobKey(id));
      job := if raw.Some? then Load(raw.value) else None;
    }

    /** Throws, here: returns false, when there is no such job. */
    method Update(id: string, updates: Patch) returns (found: bool)
      requires backend.Ok()
      modifies backend
      ensures backend.Ok() && (backend.table, found) == KvUpdate(old(backend.table), id, updates)
    {
      var existing := Get(id);
      if existing.None? {
        return false;
      }
      Save(Apply(existing.value, updates));
      return true;
    }

    method Delete(id: string)
      requires backend.Ok()
      modifies backend
      ensures backend.Ok() && backend.table == KvDelete(old(backend.table), id)
    {
      backend.Delete(JobKey(id));
    }

    /** The jobs under the job keys, read one by one. */
    method ReadJobs() returns (jobs: seq<Job>)
      ensures jobs == KvJobs(backend.table)
    {
      var keys := backend.Keys();
      jobs := [];
      for i := 0 to |keys|
        invariant jobs == JobsAt(backend.table, keys[..i])
      {
        if IsJobKey(keys[i]) {
          var raw := backend.Get(keys[i]);
          if raw.Some? && Load(raw.value).Some? {
            jobs := jobs + [Load(raw.value).value];
          }
        }
        assert keys[..i + 1][..i] == keys[..i];
      }
      assert keys[..|keys|] == keys;
    }

    method QueryJobs(q: Query) returns (jobs: seq<Job>)
      ensures jobs == Jobs.Answer(q, KvJobs(backend.table))
    {
      jobs := ReadJobs();
      jobs := Filter(jobs, Selects(q));
      if !q.sortBy.Unsorted? {
        jobs := Sort(jobs, InOrder(q));
      }
      if q.skip != 0 {
        jobs := From(q.skip, jobs);
      }
      if q.limit != 0 {
        jobs := UpTo(q.limit, jobs);
      }
    }

    method GetStats() returns (stats: Stats)
      ensures stats == StatsOf(KvJobs(backend.table))
    {
      var jobs := ReadJobs();
      stats := CountByStatus(jobs);
    }

    method GetNextPending() returns (job: Option<Job>)
      ensures job == KvNextPending(backend.table)
    {
      var pending := QueryJobs(PENDING_ONLY);
      if |pending| == 0 {
        return None;
      }
      SortMultiset(pending, Sooner());
      job := Some(Sort(pending, Sooner())[0]);
    }

    method MoveJobToDeadLetter(job: Job, error: string, now: nat)
      requires backend.Ok()
      modifies backend
      ensures backend.Ok() && backend.table == MoveToDeadLetter(old(backend.table), job, error, now)
    {
      var id := "dlq_" + job.id + "_" + PrintNat(now);
      backend.Set(LetterKey(id), LetterValue(Letter(id, job.id, job.name, job.data, error, ToIso(now), job.attempts)));
    }

    /** The id of the new job; none, where the source throws. */
    method Replay(entryId: string, now: nat) returns (newJobId: Option<string>)
      requires backend.Ok()
      modifies backend
      ensures backend.Ok() && (backend.table, newJobId) == ReplayDeadLetter(old(backend.table), entryId, now)
    {
      var raw := backend.Get(LetterKey(entryId));
      if raw.None? || !raw.value.LetterValue? {
        return None;
      }
      var entry := raw.value.letter;
      var id := entry.name + "_replay_" + PrintNat(now);
      var job := Job(id, entry.name, entry.data, Pending, Normal, 0, 3, 1000, 60000, None,
          None, now, None, None, None, None, None);
      Save(job);
      backend.Delete(LetterKey(entryId));
      newJobId := Some(job.id);
    }
  }
}
