/** Job records as the key-value store holds them, and the storage operations on such a store. */
module PersistentJobs {
  import opened Options
  import opened Iso
  import opened Lists
  import opened OrderedMap
  import opened Jobs

  /** A job with its dates as texts; a missing date is stored as null. */
  datatype Raw = Raw(
    id: string, name: string, data: string, status: Status, priority: Priority, attempts: int, maxRetries: int,
    retryDelay: int, timeout: int, cronExpression: Option<string>, nextRun: Option<string>, createdAt: string,
    startedAt: Option<string>, completedAt: Option<string>, failedAt: Option<string>, error: Option<string>,
    result: Option<string>)

  datatype Letter = Letter(id: string, originalJobId: string, name: string, data: string,
      error: string, failedAt: string, retryCount: int)

  datatype Value = JobValue(job: Raw) | LetterValue(letter: Letter)

  type Kv = OMap<Value>

  function IsoOf(t: Option<int>): Option<string> {
    match t case None => None case Some(ms) => Some(ToIso(ms))
  }

  function Serialize(j: Job): Raw {
    Raw(j.id, j.name, j.data, j.status, j.priority, j.attempts, j.maxRetries, j.retryDelay, j.timeout, j.cronExpression,
        IsoOf(j.nextRun), ToIso(j.createdAt), IsoOf(j.startedAt), IsoOf(j.completedAt),
          IsoOf(j.failedAt), j.error, j.result)
  }

  /** `new Date(text)`; a text that is no date would give an invalid date, here time zero. */
  function DateOf(text: string): int {
    match FromIso(text) case Some(ms) => ms case None => 0
  }

  /** `text ? new Date(text) : undefined` */
  function MaybeDate(text: Option<string>): Option<int> {
    if text.Some? && text.value != "" then Some(DateOf(text.value)) else None
  }

  function Deserialize(r: Raw): Job {
    Job(r.id, r.name, r.data, r.status, r.priority, r.attempts, r.maxRetries, r.retryDelay, r.timeout, r.cronExpression,
        MaybeDate(r.nextRun), DateOf(r.createdAt), MaybeDate(r.startedAt), MaybeDate(r.completedAt),
          MaybeDate(r.failedAt),
        r.error, r.result)
  }

  predicate Dated(t: Option<int>) { t.Some? ==> IsTime(t.value) }

  /** All dates of the job are times a Date can hold. */
  predicate ValidDates(j: Job) {
    IsTime(j.createdAt) && Dated(j.nextRun) && Dated(j.startedAt) && Dated(j.completedAt) && Dated(j.failedAt)
  }

  lemma DateRoundTrip(t: Option<int>)
    requires Dated(t)
    ensures MaybeDate(IsoOf(t)) == t
  {
    if t.Some? {
      IsoRoundTrip(t.value);
    }
  }

  /** Deserializing a serialized job gives back the job. */
  lemma JobRoundTrip(j: Job)
    requires ValidDates(j)
    ensures Deserialize(Serialize(j)) == j
  {
    IsoRoundTrip(j.createdAt);
    DateRoundTrip(j.nextRun);
    DateRoundTrip(j.startedAt);
    DateRoundTrip(j.completedAt);
    DateRoundTrip(j.failedAt);
    hide ToIso, FromIso, MaybeDate, IsoOf;
  }

  // ---------- keys ----------

  function JobKey(id: string): string { "job:" + id }

  function LetterKey(id: string): string { "dlq:" + id }

  predicate HasPrefix(key: string, prefix: string) { |prefix| <= |key| && key[..|prefix|] == prefix }

  predicate IsJobKey(key: string) { HasPrefix(key, "job:") }

  /** The ids of the job keys in a list of keys. */
  function JobIds(keys: seq<string>): seq<string> {
    if keys == [] then [] else (if IsJobKey(keys[0]) then [keys[0][4..]] else []) + JobIds(keys[1..])
  }

  lemma KeyFacts(id: string, key: string)
    ensures IsJobKey(JobKey(id)) && JobKey(id)[4..] == id && !IsJobKey(LetterKey(id))
    ensures IsJobKey(key) ==> JobKey(key[4..]) == key
    ensures JobKey(id) == key ==> IsJobKey(key) && key[4..] == id
  {
    assert LetterKey(id)[0] == 'd';
    assert JobKey(id)[..4] == "job:" && JobKey(id)[4..] == id;
    if IsJobKey(key) { assert key == key[..4] + key[4..]; }
  }

  lemma {:induction false} JobIdsConcat(s: seq<string>, t: seq<string>)
    ensures JobIds(s + t) == JobIds(s) + JobIds(t)
  {
    hide IsJobKey;
    if s == [] {
      assert s + t == t;
    } else {
      assert (s + t)[1..] == s[1..] + t;
      JobIdsConcat(s[1..], t);
    }
  }

  lemma JobIdsOne(key: string)
    ensures JobIds([key]) == if IsJobKey(key) then [key[4..]] else []
  {
    assert [key][1..] == [];
  }

  lemma {:induction false} JobIdsMember(keys: seq<string>, id: string)
    ensures id in JobIds(keys) <==> JobKey(id) in keys
  {
    if keys != [] {
      KeyFacts(id, keys[0]);
      JobIdsMember(keys[1..], id);
      assert keys == [keys[0]] + keys[1..];
    }
  }

  lemma {:induction false} JobIdsDropped(keys: seq<string>, key: string)
    ensures JobIds(Dropped(keys, key)) == if IsJobKey(key) then Dropped(JobIds(keys), key[4..]) else JobIds(keys)
  {
    if keys != [] {
      JobIdsDropped(keys[1..], key);
      KeyFacts("", keys[0]);
      KeyFacts("", key);
      if IsJobKey(keys[0]) {
        assert JobIds(keys)[1..] == JobIds(keys[1..]);
      } else {
        assert JobIds(keys) == JobIds(keys[1..]);
      }
    }
  }

  // ---------- the operations on a key-value store ----------

  function Load(v: Value): Option<Job> {
    match v case JobValue(r) => Some(Deserialize(r)) case LetterValue(_) => None
  }

  function KvSave(kv: Kv, j: Job): Kv { Put(kv, JobKey(j.id), JobValue(Serialize(j))) }

  function KvGet(kv: Kv, id: string): Option<Job> {
    if JobKey(id) in kv.at then Load(kv.at[JobKey(id)]) else None
  }

  /** The merged job is saved under the id it has after the merge. */
  function KvUpdate(kv: Kv, id: string, p: Patch): (Kv, bool) {
    match KvGet(kv, id)
    case None => (kv, false)
    case Some(existing) => (KvSave(kv, Apply(existing, p)), true)
  }

  function KvDelete(kv: Kv, id: string): Kv { Remove(kv, JobKey(id)) }

  /** The stored jobs, read in the order of their keys. */
  function JobsAt(kv: Kv, keys: seq<string>): seq<Job> {
    if keys == [] then []
    else
      var rest := JobsAt(kv, keys[..|keys| - 1]);
      var key := keys[|keys| - 1];
      if IsJobKey(key) && key in kv.at && Load(kv.at[key]).Some? then rest + [Load(kv.at[key]).value] else rest
  }

  function KvJobs(kv: Kv): seq<Job> { JobsAt(kv, kv.order) }

  const PENDING_ONLY := Query(None, Some([Pending]), None, Unsorted, false, 0, 0)

  function KvNextPending(kv: Kv): Option<Job> {
    var pending := Answer(PENDING_ONLY, KvJobs(kv));
    if pending == [] then None
    else
      SortMultiset(pending, Sooner());
      Some(Sort(pending, Sooner())[0])
  }

  // ---------- agreement with the in-memory storage ----------

  /** The store holds exactly the jobs of the table, serialized, under their ids and in the same order. */
  ghost predicate Represents(kv: Kv, t: Table) {
    && Valid(kv) && Valid(t) && JobIds(kv.order) == t.order
    && forall id :: id in t.at ==> Holds(kv, id, t.at[id])
  }

  ghost predicate Holds(kv: Kv, id: string, j: Job) {
    && j.id == id && ValidDates(j)
    && JobKey(id) in kv.at && kv.at[JobKey(id)] == JobValue(Serialize(j))
  }

  lemma HoldsElsewhere(kv: Kv, kv': Kv, id: string, j: Job, other: string)
    requires Holds(kv, id, j) && id != other
    requires kv'.at == kv.at - {JobKey(other)}
        || (JobKey(other) in kv'.at && kv'.at == kv.at[JobKey(other) := kv'.at[JobKey(other)]])
    ensures Holds(kv', id, j)
  {
    KeyFacts(id, JobKey(other));
    KeyFacts(other, JobKey(other));
    hide JobKey, Serialize, ValidDates;
  }

  lemma SaveOrder(kv: Kv, t: Table, id: string, v: Value, j: Job)
    requires Valid(kv) && Valid(t) && JobIds(kv.order) == t.order
    ensures JobIds(Put(kv, JobKey(id), v).order) == Put(t, id, j).order
    ensures Valid(Put(kv, JobKey(id), v)) && Valid(Put(t, id, j))
  {
    KeyFacts(id, JobKey(id));
    JobIdsMember(kv.order, id);
    JobIdsConcat(kv.order, [JobKey(id)]);
    JobIdsOne(JobKey(id));
    PutValid(kv, JobKey(id), v);
    PutValid(t, id, j);
    hide JobKey, JobIds;
    assert JobKey(id) in kv.order <==> JobKey(id) in kv.at;
    assert id in t.order <==> id in t.at;
  }

  lemma SavedHolds(kv: Kv, j: Job)
    requires ValidDates(j)
    ensures Holds(KvSave(kv, j), j.id, j)
  {
    hide ValidDates, Serialize;
  }

  lemma SaveAgrees(kv: Kv, t: Table, j: Job)
    requires Represents(kv, t) && ValidDates(j)
    ensures Represents(KvSave(kv, j), Put(t, j.id, j))
  {
    hide Valid, Holds, JobKey, JobIds, ValidDates, Serialize;
    var (kv', t') := (KvSave(kv, j), Put(t, j.id, j));
    SaveOrder(kv, t, j.id, JobValue(Serialize(j)), j);
    SavedHolds(kv, j);
    forall id | id in t'.at ensures Holds(kv', id, t'.at[id]) {
      if id != j.id { HoldsElsewhere(kv, kv', id, t.at[id], j.id); }
    }
  }

  lemma GetAgrees(kv: Kv, t: Table, id: string)
    requires Represents(kv, t)
    ensures KvGet(kv, id) == if id in t.at then Some(t.at[id]) else None
  {
    JobIdsMember(kv.order, id);
    if id in t.at { JobRoundTrip(t.at[id]); }
    hide Serialize, Deserialize, ValidDates;
  }

  lemma DeleteAgrees(kv: Kv, t: Table, id: string)
    requires Represents(kv, t)
    ensures Represents(KvDelete(kv, id), Remove(t, id))
  {
    var (kv', t') := (KvDelete(kv, id), Remove(t, id));
    KeyFacts(id, JobKey(id));
    JobIdsDropped(kv.order, JobKey(id));
    RemoveValid(kv, JobKey(id));
    RemoveValid(t, id);
    hide Valid, Holds, JobKey;
    forall other | other in t'.at ensures Holds(kv', other, t'.at[other]) {
      HoldsElsewhere(kv, kv', other, t.at[other], id);
    }
  }

  lemma LoadHeld(kv: Kv, id: string, j: Job)
    requires Holds(kv, id, j)
    ensures JobKey(id) in kv.at && Load(kv.at[JobKey(id)]) == Some(j)
  {
    JobRoundTrip(j);
  }

  /** Reading one more key adds the next job of the table, if it is a job key. */
  lemma ReadOneMore(kv: Kv, t: Table, n: nat, m: nat)
    requires Represents(kv, t) && 0 < n <= |kv.order| && m == |JobIds(kv.order[..n - 1])|
    requires IsJobKey(kv.order[n - 1]) && m < |t.order| && t.order[m] == kv.order[n - 1][4..]
    requires JobsAt(kv, kv.order[..n - 1]) == Values(t)[..m]
    ensures JobsAt(kv, kv.order[..n]) == Values(t)[..m + 1]
  {
    hide Serialize, Deserialize, ValidDates, JobIds, Holds;
    var key := kv.order[n - 1];
    var id := key[4..];
    KeyFacts(id, key);
    hide JobKey, IsJobKey;
    assert id in t.order;
    LoadHeld(kv, id, t.at[id]);
    assert kv.order[..n][..n - 1] == kv.order[..n - 1];
    assert Values(t)[..m + 1] == Values(t)[..m] + [t.at[id]];
  }

  /** One more key is one more job id, or none. */
  lemma JobIdsUpTo(kv: Kv, n: nat)
    requires 0 < n <= |kv.order|
    ensures JobIds(kv.order[..n])
         == JobIds(kv.order[..n - 1]) + if IsJobKey(kv.order[n - 1]) then [kv.order[n - 1][4..]] else []
    ensures |JobIds(kv.order[..n])| <= |JobIds(kv.order)|
        && JobIds(kv.order[..n]) == JobIds(kv.order)[..|JobIds(kv.order[..n])|]
  {
    var key := kv.order[n - 1];
    assert kv.order == kv.order[..n] + kv.order[n..];
    JobIdsConcat(kv.order[..n], kv.order[n..]);
    assert kv.order[..n] == kv.order[..n - 1] + [key];
    JobIdsConcat(kv.order[..n - 1], [key]);
    JobIdsOne(key);
  }

  /** The job ids among the first keys are the first ids of the table. */
  lemma JobIdsFollow(kv: Kv, t: Table, n: nat)
    requires Represents(kv, t) && 0 < n <= |kv.order|
    ensures var (m0, m, key) := (|JobIds(kv.order[..n - 1])|, |JobIds(kv.order[..n])|, kv.order[n - 1]);
      && Valid(t) && m <= |t.order| && JobIds(kv.order[..n]) == t.order[..m]
      && if IsJobKey(key) then m == m0 + 1 && t.order[m0] == key[4..] else m == m0
  {
    hide Holds, Valid, JobIds;
    JobIdsUpTo(kv, n);
    var m0 := |JobIds(kv.order[..n - 1])|;
    if IsJobKey(kv.order[n - 1]) { assert JobIds(kv.order[..n])[m0] == kv.order[n - 1][4..]; }
  }

  lemma NoJobsYet(kv: Kv)
    ensures JobIds(kv.order[..0]) == [] && JobsAt(kv, kv.order[..0]) == []
  {
  }

  lemma OtherKeySkipped(kv: Kv, n: nat)
    requires 0 < n <= |kv.order| && !IsJobKey(kv.order[n - 1])
    ensures JobsAt(kv, kv.order[..n]) == JobsAt(kv, kv.order[..n - 1])
  {
    hide IsJobKey;
    assert kv.order[..n][..n - 1] == kv.order[..n - 1];
  }

  lemma {:induction false} JobsAtAgree(kv: Kv, t: Table, n: nat)
    requires Represents(kv, t) && n <= |kv.order|
    ensures var m := |JobIds(kv.order[..n])|;
      m <= |t.order| && JobIds(kv.order[..n]) == t.order[..m] && JobsAt(kv, kv.order[..n]) == Values(t)[..m]
  {
    hide Holds, JobIds, JobsAt, IsJobKey;
    if n == 0 {
      NoJobsYet(kv);
    } else {
      JobIdsFollow(kv, t, n);
      JobsAtAgree(kv, t, n - 1);
      hide Represents, Valid;
      if IsJobKey(kv.order[n - 1]) {
        ReadOneMore(kv, t, n, |JobIds(kv.order[..n - 1])|);
      } else {
        OtherKeySkipped(kv, n);
      }
    }
  }

  lemma JobsAgree(kv: Kv, t: Table)
    requires Represents(kv, t)
    ensures KvJobs(kv) == Values(t)
  {
    JobsAtAgree(kv, t, |kv.order|);
    assert kv.order[..|kv.order|] == kv.order;
  }
}
