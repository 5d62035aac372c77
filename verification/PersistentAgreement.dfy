/** The persistent storage answers every sequence of calls as the in-memory storage does, and dead letters move. */
module PersistentAgreement {
  import opened Options
  import opened Lists
  import opened Decimal
  import opened Iso
  import opened OrderedMap
  import opened Jobs
  import opened PersistentJobs
  import Model = JobQueueModel

  datatype Op =
    | SaveOp(job: Job) | GetOp(id: string) | UpdateOp(id: string, patch: Patch) | DeleteOp(id: string)
    | QueryOp(query: Query) | StatsOp | NextOp

  datatype Answer = Done | Found(job: Option<Job>) | Updated(found: bool) | Many(jobs: seq<Job>) | Counts(stats: Stats)

  function MemoryStep(t: Table, op: Op): (Table, Answer)
    requires Valid(t)
  {
    match op
    case SaveOp(j) => (Put(t, j.id, j), Done)
    case GetOp(id) => (t, Found(if id in t.at then Some(t.at[id]) else None))
    case UpdateOp(id, p) => (Model.Update(t, id, p), Updated(id in t.at))
    case DeleteOp(id) => (Remove(t, id), Done)
    case QueryOp(q) => (t, Many(Jobs.Answer(q, Values(t))))
    case StatsOp => (t, Counts(StatsOf(Values(t))))
    case NextOp => (t, Found(NextPending(t)))
  }

  function StoreStep(kv: Kv, op: Op): (Kv, Answer) {
    match op
    case SaveOp(j) => (KvSave(kv, j), Done)
    case GetOp(id) => (kv, Found(KvGet(kv, id)))
    case UpdateOp(id, p) => (KvUpdate(kv, id, p).0, Updated(KvUpdate(kv, id, p).1))
    case DeleteOp(id) => (KvDelete(kv, id), Done)
    case QueryOp(q) => (kv, Many(Jobs.Answer(q, KvJobs(kv))))
    case StatsOp => (kv, Counts(StatsOf(KvJobs(kv))))
    case NextOp => (kv, Found(KvNextPending(kv)))
  }

  predicate ValidPatchDates(p: Patch) {
    (p.createdAt.Some? ==> IsTime(p.createdAt.value)) && (p.nextRun.Some? ==> Dated(p.nextRun.value)) &&
    (p.startedAt.Some? ==> Dated(p.startedAt.value)) && (p.completedAt.Some? ==> Dated(p.completedAt.value)) &&
    (p.failedAt.Some? ==> Dated(p.failedAt.value))
  }

  /** The dates given are dates, and an update does not give a job another id. */
  predicate Ordinary(op: Op) {
    match op
    case SaveOp(j) => ValidDates(j)
    case UpdateOp(id, p) => ValidPatchDates(p) && (p.id == None || p.id == Some(id))
    case _ => true
  }

  lemma NextAgrees(kv: Kv, t: Table)
    requires Represents(kv, t)
    ensures KvNextPending(kv) == NextPending(t)
  {
    hide KvJobs, Represents, Sort, Valid, Jobs.Answer, Sooner;
    TableIsValid(kv, t);
    JobsAgree(kv, t);
    PendingQuery(Values(t));
  }

  /** The query for pending jobs finds them all, in stored order. */
  lemma PendingQuery(jobs: seq<Job>)
    ensures Jobs.Answer(PENDING_ONLY, jobs) == Filter(jobs, IsPending())
  {
    hide Sort;
    FilterSame(jobs, Selects(PENDING_ONLY), IsPending());
  }

  lemma UpdateAgrees(kv: Kv, t: Table, id: string, p: Patch)
    requires Represents(kv, t) && ValidPatchDates(p) && (p.id == None || p.id == Some(id))
    ensures Represents(KvUpdate(kv, id, p).0, Model.Update(t, id, p)) && KvUpdate(kv, id, p).1 == (id in t.at)
  {
    GetAgrees(kv, t, id);
    if id in t.at {
      assert Holds(kv, id, t.at[id]);
      PatchedDates(t.at[id], p);
      SaveAgrees(kv, t, Apply(t.at[id], p));
    }
  }

  lemma PatchedDates(j: Job, p: Patch)
    requires ValidDates(j) && ValidPatchDates(p)
    ensures ValidDates(Apply(j, p))
  {
  }

  /** One call keeps the two storages in step and answers the same. */
  lemma StepAgrees(kv: Kv, t: Table, op: Op)
    requires Represents(kv, t) && Ordinary(op)
    ensures Represents(StoreStep(kv, op).0, MemoryStep(t, op).0)
    ensures StoreStep(kv, op).1 == MemoryStep(t, op).1
  {
    hide Represents;
    match op
    case SaveOp(j) => SaveAgrees(kv, t, j);
    case GetOp(id) => GetAgrees(kv, t, id);
    case UpdateOp(id, p) => UpdateAgrees(kv, t, id, p);
    case DeleteOp(id) => DeleteAgrees(kv, t, id);
    case NextOp => NextAgrees(kv, t);
    case _ => JobsAgree(kv, t);
  }

  function MemoryRun(trace: seq<Op>): (t: Table)
    ensures Valid(t)
  {
    if trace == [] then Empty()
    else
      var before := MemoryRun(trace[..|trace| - 1]);
      var op := trace[|trace| - 1];
      MemoryStepValid(before, op);
      MemoryStep(before, op).0
  }

  lemma MemoryStepValid(t: Table, op: Op)
    requires Valid(t)
    ensures Valid(MemoryStep(t, op).0)
  {
    match op
    case SaveOp(j) => PutValid(t, j.id, j);
    case UpdateOp(id, p) => if id in t.at { PutValid(t, id, Apply(t.at[id], p)); }
    case DeleteOp(id) => RemoveValid(t, id);
    case _ =>
  }

  function StoreRun(trace: seq<Op>): Kv {
    if trace == [] then Empty() else StoreStep(StoreRun(trace[..|trace| - 1]), trace[|trace| - 1]).0
  }

  lemma EmptyAgrees()
    ensures Represents(Empty(), Empty())
  {
  }

  ghost predicate AllOrdinary(trace: seq<Op>) { forall i :: 0 <= i < |trace| ==> Ordinary(trace[i]) }

  lemma OrdinaryPrefix(trace: seq<Op>)
    requires AllOrdinary(trace) && trace != []
    ensures AllOrdinary(trace[..|trace| - 1]) && Ordinary(trace[|trace| - 1])
  {
  }

  lemma {:induction false} RunAgrees(trace: seq<Op>)
    requires AllOrdinary(trace)
    ensures Represents(StoreRun(trace), MemoryRun(trace))
  {
    if trace == [] {
      EmptyAgrees();
    } else {
      hide Represents, StoreStep, MemoryStep, Ordinary, AllOrdinary, Valid;
      var n := |trace| - 1;
      OrdinaryPrefix(trace);
      RunAgrees(trace[..n]);
      StepAgrees(StoreRun(trace[..n]), MemoryRun(trace[..n]), trace[n]);
    }
  }

  /** The two storages agree: after any calls, each next call gets the same answer from both. */
  lemma StoragesAgree(trace: seq<Op>, op: Op)
    requires Ordinary(op) && AllOrdinary(trace)
    ensures StoreStep(StoreRun(trace), op).1 == MemoryStep(MemoryRun(trace), op).1
  {
    RunAgrees(trace);
    hide Represents, StoreStep, MemoryStep, Ordinary, AllOrdinary, StoreRun, MemoryRun;
    StepAgrees(StoreRun(trace), MemoryRun(trace), op);
  }

  /** Every ordinary call gets the same answer from both storages. */
  ghost predicate AnswerAlike(kv: Kv, t: Table)
    requires Valid(t)
  {
    forall op :: Ordinary(op) ==> StoreStep(kv, op).1 == MemoryStep(t, op).1
  }

  /** The in-memory job took another id under its old key, the stored one a second key: `get` tells them apart. */
  lemma ChangedIdParts(kv: Kv, t: Table, id: string, p: Patch)
    requires Represents(kv, t) && ValidPatchDates(p) && id in t.at && p.id.Some? && p.id.value != id
    ensures var (kv', t') := (KvUpdate(kv, id, p).0, Model.Update(t, id, p));
      && id in t'.at && t'.at[id].id == p.id.value && KvGet(kv', id) == Some(t.at[id]) && t.at[id].id == id
  {
    hide Serialize, Deserialize, ValidDates, JobIds, Valid;
    GetAgrees(kv, t, id);
    assert Holds(kv, id, t.at[id]);
    JobRoundTrip(t.at[id]);
    KeyFacts(id, JobKey(id));
    KeyFacts(p.id.value, JobKey(id));
  }

  /**
   After an update of a stored job the two storages answer alike exactly when the patch leaves the id as it is; with
   another id a `get` of the old one already differs.
   */
  lemma UpdateOfIdAgreesIff(kv: Kv, t: Table, id: string, p: Patch)
    requires Represents(kv, t) && ValidPatchDates(p) && id in t.at
    ensures var (kv', t') := (KvUpdate(kv, id, p).0, Model.Update(t, id, p));
      var kept := p.id == None || p.id == Some(id);
      && Valid(t') && (AnswerAlike(kv', t') <==> kept)
      && (StoreStep(kv', GetOp(id)).1 == MemoryStep(t', GetOp(id)).1 <==> kept)
  {
    hide Represents, KvGet, KvUpdate, Valid;
    var (kv', t') := (KvUpdate(kv, id, p).0, Model.Update(t, id, p));
    TableIsValid(kv, t);
    PutValid(t, id, Apply(t.at[id], p));
    if p.id == None || p.id == Some(id) {
      UpdateAgrees(kv, t, id, p);
      hide Model.Update;
      forall op | Ordinary(op) ensures StoreStep(kv', op).1 == MemoryStep(t', op).1 { StepAgrees(kv', t', op); }
      assert Ordinary(GetOp(id));
    } else {
      ChangedIdParts(kv, t, id, p);
      assert Ordinary(GetOp(id));
    }
  }

  lemma TableIsValid(kv: Kv, t: Table)
    requires Represents(kv, t)
    ensures Valid(t)
  {
  }

  // ---------- dead letters ----------

  function MoveToDeadLetter(kv: Kv, job: Job, error: string, now: nat): Kv {
    var id := "dlq_" + job.id + "_" + PrintNat(now);
    Put(kv, LetterKey(id), LetterValue(Letter(id, job.id, job.name, job.data, error, ToIso(now), job.attempts)))
  }

  function ReplayedJob(letter: Letter, now: nat): Job {
    Job(letter.name + "_replay_" + PrintNat(now), letter.name, letter.data, Pending, Normal, 0, 3, 1000, 60000, None,
        None, now, None, None, None, None, None)
  }

  /** The new job's id; nothing, for an entry that is not there, where the source throws. */
  function ReplayDeadLetter(kv: Kv, entryId: string, now: nat): (Kv, Option<string>) {
    var key := LetterKey(entryId);
    if key !in kv.at || !kv.at[key].LetterValue? then (kv, None)
    else
      var job := ReplayedJob(kv.at[key].letter, now);
      (Remove(KvSave(kv, job), key), Some(job.id))
  }

  /** What happens under other keys than job keys does not matter to the jobs. */
  lemma OtherKeysKeepJobs(kv: Kv, kv': Kv, t: Table)
    requires Represents(kv, t) && Valid(kv') && JobIds(kv'.order) == JobIds(kv.order)
    requires forall k :: IsJobKey(k) && k in kv.at ==> k in kv'.at && kv'.at[k] == kv.at[k]
    ensures Represents(kv', t)
  {
    hide Valid, Serialize, ValidDates, JobIds, JobKey, IsJobKey;
    forall id | id in t.at ensures Holds(kv', id, t.at[id]) {
      KeyFacts(id, JobKey(id));
      assert Holds(kv, id, t.at[id]);
    }
  }

  lemma PutLetter(kv: Kv, t: Table, entryId: string, v: Value)
    requires Represents(kv, t)
    ensures Represents(Put(kv, LetterKey(entryId), v), t)
  {
    var key := LetterKey(entryId);
    KeyFacts(entryId, key);
    PutValid(kv, key, v);
    JobIdsConcat(kv.order, [key]);
    JobIdsOne(key);
    hide Holds, LetterKey, JobKey, IsJobKey, Valid, JobIds;
    OtherKeysKeepJobs(kv, Put(kv, key, v), t);
  }

  /** Writing a dead letter leaves the jobs alone. */
  lemma MoveKeepsJobs(kv: Kv, t: Table, job: Job, error: string, now: nat)
    requires Represents(kv, t)
    ensures Represents(MoveToDeadLetter(kv, job, error, now), t)
  {
    hide Represents, LetterKey, ToIso, PrintNat;
    var id := "dlq_" + job.id + "_" + PrintNat(now);
    PutLetter(kv, t, id, LetterValue(Letter(id, job.id, job.name, job.data, error, ToIso(now), job.attempts)));
  }

  lemma RemoveLetter(kv: Kv, t: Table, entryId: string)
    requires Represents(kv, t)
    ensures Represents(Remove(kv, LetterKey(entryId)), t)
  {
    hide Holds, JobKey, Valid, JobIds, Dropped, PrintNat;
    var key := LetterKey(entryId);
    KeyFacts(entryId, key);
    hide LetterKey, IsJobKey;
    RemoveValid(kv, key);
    JobIdsDropped(kv.order, key);
    OtherKeysKeepJobs(kv, Remove(kv, key), t);
  }

  /**
   Replaying a dead letter to an id that is new moves it: the letter is gone, all other letters are untouched,
   and the jobs grow by exactly one pending job with the letter's name and data.
   */
  lemma ReplayMovesLetter(kv: Kv, t: Table, entryId: string, now: nat)
    requires Represents(kv, t) && LetterKey(entryId) in kv.at && kv.at[LetterKey(entryId)].LetterValue? && IsTime(now)
    requires ReplayedJob(kv.at[LetterKey(entryId)].letter, now).id !in t.at
    ensures var (kv', id) := ReplayDeadLetter(kv, entryId, now); var letter := kv.at[LetterKey(entryId)].letter;
      && id.Some? && Represents(kv', Put(t, id.value, ReplayedJob(letter, now)))
      && Put(t, id.value, ReplayedJob(letter, now)).order == t.order + [id.value]
      && ReplayedJob(letter, now).status == Pending && ReplayedJob(letter, now).name == letter.name
           && ReplayedJob(letter, now).data == letter.data
      && LetterKey(entryId) !in kv'.at
      && forall k :: k in kv.at && !IsJobKey(k) && k != LetterKey(entryId) ==> k in kv'.at && kv'.at[k] == kv.at[k]
  {
    hide Represents, JobKey, LetterKey, ToIso, PrintNat, Serialize, JobIds, Dropped, IsJobKey;
    var job := ReplayedJob(kv.at[LetterKey(entryId)].letter, now);
    SaveAgrees(kv, t, job);
    RemoveLetter(KvSave(kv, job), Put(t, job.id, job), entryId);
    KeyFacts(job.id, JobKey(job.id));
  }

  /** A replayed job has normal priority, three retries after a second and a minute to run; nothing is done yet. */
  ghost predicate NewlyPlain(j: Job) {
    && j.priority == Normal && j.maxRetries == 3 && j.retryDelay == 1000 && j.timeout == 60 * 1000
    && j.cronExpression == None && j.nextRun == None && j.startedAt == None && j.completedAt == None
    && j.failedAt == None && j.error == None && j.result == None
  }

  ghost predicate IsLetterOf(letter: Letter, key: string, job: Job, error: string, now: nat) {
    && "dlq:" + letter.id == key && letter.originalJobId == job.id && letter.name == job.name && letter.data == job.data
    && letter.error == error && letter.retryCount == job.attempts && FromIso(letter.failedAt) == Some(now)
  }

  /** The letter a job leaves: its id, name, data and attempts, the error, and the time, which reads back. */
  lemma LetterTells(kv: Kv, job: Job, error: string, now: nat)
    requires IsTime(now)
    ensures var (kv', key) := (MoveToDeadLetter(kv, job, error, now), "dlq:dlq_" + job.id + "_" + PrintNat(now));
      key in kv'.at && kv'.at[key].LetterValue? && IsLetterOf(kv'.at[key].letter, key, job, error, now)
    ensures var (kv', key) := (MoveToDeadLetter(kv, job, error, now), "dlq:dlq_" + job.id + "_" + PrintNat(now));
      forall k :: k in kv.at && k != key ==> k in kv'.at && kv'.at[k] == kv.at[k]
  {
    hide ToIso, FromIso, PrintNat;
    IsoRoundTrip(now);
    var id := "dlq_" + job.id + "_" + PrintNat(now);
    assert LetterKey(id) == "dlq:dlq_" + job.id + "_" + PrintNat(now);
  }

  /** A failed job, moved away and replayed under a new id, comes back as one pending job with its name and data. */
  lemma MoveThenReplay(kv: Kv, t: Table, job: Job, error: string, now: nat, later: nat)
    requires Represents(kv, t) && IsTime(later) && job.name + "_replay_" + PrintNat(later) !in t.at
    ensures var moved := MoveToDeadLetter(kv, job, error, now);
      var (kv', id) := ReplayDeadLetter(moved, "dlq_" + job.id + "_" + PrintNat(now), later);
      && id == Some(job.name + "_replay_" + PrintNat(later))
      && exists again: Job :: again.id == id.value && again.name == job.name && again.data == job.data
           && again.status == Pending && again.attempts == 0 && again.createdAt == later
           && NewlyPlain(again) && Represents(kv', Put(t, again.id, again))
  {
    hide Represents, JobKey, ToIso, PrintNat, Serialize, JobIds, Dropped, IsJobKey;
    var entryId := "dlq_" + job.id + "_" + PrintNat(now);
    var moved := MoveToDeadLetter(kv, job, error, now);
    MoveKeepsJobs(kv, t, job, error, now);
    hide LetterKey;
    ReplayMovesLetter(moved, t, entryId, later);
    var letter := moved.at[LetterKey(entryId)].letter;
    assert ReplayedJob(letter, later).createdAt == later;
  }
}
