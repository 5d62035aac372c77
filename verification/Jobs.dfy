/** Job records, partial updates, and the queries both job storages answer. */
module Jobs {
  import opened Options
  import opened Lists
  import opened OrderedMap

  datatype Status = Pending | Running | Completed | Failed | Cancelled | Scheduled

  datatype Priority = Low | Normal | High | Critical

  /** Times are in milliseconds; `data` and `result` are opaque payloads. */
  datatype Job = Job(
    id: string, name: string, data: string, status: Status, priority: Priority,
    attempts: int, maxRetries: int, retryDelay: int, timeout: int, cronExpression: Option<string>,
    nextRun: Option<int>, createdAt: int, startedAt: Option<int>, completedAt: Option<int>, failedAt: Option<int>,
    error: Option<string>, result: Option<string>)

  /** The fields an update sets; those it leaves out are `None`. */
  datatype Patch = Patch(
    id: Option<string> := None, name: Option<string> := None, data: Option<string> := None,
    status: Option<Status> := None, priority: Option<Priority> := None, attempts: Option<int> := None,
    maxRetries: Option<int> := None, retryDelay: Option<int> := None, timeout: Option<int> := None,
    cronExpression: Option<Option<string>> := None, nextRun: Option<Option<int>> := None,
    createdAt: Option<int> := None, startedAt: Option<Option<int>> := None,
    completedAt: Option<Option<int>> := None, failedAt: Option<Option<int>> := None,
    error: Option<Option<string>> := None, result: Option<Option<string>> := None)

  function Or<T>(update: Option<T>, was: T): T {
    match update case Some(v) => v case None => was
  }

  /** `{ ...job, ...updates }` */
  function Apply(j: Job, p: Patch): Job {
    Job(Or(p.id, j.id), Or(p.name, j.name), Or(p.data, j.data), Or(p.status, j.status), Or(p.priority, j.priority),
        Or(p.attempts, j.attempts), Or(p.maxRetries, j.maxRetries), Or(p.retryDelay, j.retryDelay),
        Or(p.timeout, j.timeout), Or(p.cronExpression, j.cronExpression), Or(p.nextRun, j.nextRun),
        Or(p.createdAt, j.createdAt), Or(p.startedAt, j.startedAt), Or(p.completedAt, j.completedAt),
        Or(p.failedAt, j.failedAt), Or(p.error, j.error), Or(p.result, j.result))
  }

  /** A patch that sets every field. */
  function PatchTo(j: Job): Patch {
    Patch(Some(j.id), Some(j.name), Some(j.data), Some(j.status), Some(j.priority), Some(j.attempts),
          Some(j.maxRetries), Some(j.retryDelay), Some(j.timeout), Some(j.cronExpression), Some(j.nextRun),
          Some(j.createdAt), Some(j.startedAt),
          Some(j.completedAt), Some(j.failedAt), Some(j.error), Some(j.result))
  }

  /** The later of two patches counts, field by field. */
  function Later<T>(first: Option<T>, second: Option<T>): Option<T> { if second.Some? then second else first }

  function Both(p: Patch, q: Patch): Patch {
    Patch(Later(p.id, q.id), Later(p.name, q.name), Later(p.data, q.data), Later(p.status, q.status),
          Later(p.priority, q.priority), Later(p.attempts, q.attempts), Later(p.maxRetries, q.maxRetries),
          Later(p.retryDelay, q.retryDelay), Later(p.timeout, q.timeout),
          Later(p.cronExpression, q.cronExpression), Later(p.nextRun, q.nextRun), Later(p.createdAt, q.createdAt),
          Later(p.startedAt, q.startedAt), Later(p.completedAt, q.completedAt), Later(p.failedAt, q.failedAt),
          Later(p.error, q.error), Later(p.result, q.result))
  }

  /** Patches set what they hold and keep the rest: an empty one nothing, a full one all, and two in a row are one. */
  lemma PatchLaws(j: Job, k: Job, p: Patch, q: Patch)
    ensures Apply(j, Patch()) == j && Apply(j, PatchTo(k)) == k && Apply(Apply(j, p), q) == Apply(j, Both(p, q))
  {
  }

  type Table = OMap<Job>

  function Rank(p: Priority): int {
    match p case Critical => 4 case High => 3 case Normal => 2 case Low => 1
  }

  // ---------- next pending job ----------

  /** Higher priority first, then older first. */
  function Sooner(): (Job, Job) -> bool {
    (a: Job, b: Job) =>
      Rank(a.priority) > Rank(b.priority) || (Rank(a.priority) == Rank(b.priority) && a.createdAt <= b.createdAt)
  }

  function IsPending(): Job -> bool { (j: Job) => j.status == Pending }

  function NextOf(jobs: seq<Job>): Option<Job> {
    var pending := Filter(jobs, IsPending());
    if pending == [] then None else Some(Sort(pending, Sooner())[0])
  }

  function NextPending(t: Table): Option<Job>
    requires Valid(t)
  {
    NextOf(Values(t))
  }

  lemma SoonerOrders(dom: set<Job>)
    ensures Orders(dom, Sooner())
  {
  }

  /** The job stands at position `i`, and no pending job before it is as soon. */
  ghost predicate FirstAmong(jobs: seq<Job>, next: Job, i: int) {
    0 <= i < |jobs| && jobs[i] == next && forall k :: 0 <= k < i && jobs[k].status == Pending ==>
      !Sooner()(jobs[k], next)
  }

  lemma FirstPending(jobs: seq<Job>, i: nat, j: int, next: Job)
    requires IsSource(jobs, IsPending(), i, j) && FirstLeast(Filter(jobs, IsPending()), Sooner(), next, i)
    ensures FirstAmong(jobs, next, j)
  {
    hide Filter;
    var pending := Filter(jobs, IsPending());
    forall k | 0 <= k < j && jobs[k].status == Pending ensures !Sooner()(jobs[k], next) {
      assert IsPending()(jobs[k]);
      var h :| 0 <= h < i && pending[..i][h] == jobs[k];
      assert pending[h] == jobs[k];
    }
  }

  /**
   The job picked is pending, no pending job is sooner, and among equals it is the one listed first; there is
   none exactly when nothing is pending.
   */
  lemma NextOfIsSoonest(jobs: seq<Job>)
    ensures NextOf(jobs).None? <==> forall j :: j in jobs ==> j.status != Pending
    ensures NextOf(jobs).Some? ==>
      var next := NextOf(jobs).value;
      && next in jobs && next.status == Pending
      && (forall j :: j in jobs && j.status == Pending ==> Sooner()(next, j))
      && exists i :: FirstAmong(jobs, next, i)
  {
    hide Filter, Sort;
    var pending := Filter(jobs, IsPending());
    FilterMembers(jobs, IsPending());
    assert forall j {:trigger j in jobs} :: j in jobs && j.status == Pending ==> IsPending()(j);
    if pending != [] {
      assert Sort(pending, Sooner())[0] in pending by {
        SortMultiset(pending, Sooner());
        assert Sort(pending, Sooner())[0] in Sort(pending, Sooner());
      }
      SoonerOrders(set j | j in pending);
      SortLeast(pending, Sooner(), (set j | j in pending));
      SortHead(pending, Sooner(), (set j | j in pending));
      var next := Sort(pending, Sooner())[0];
      var i :| FirstLeast(pending, Sooner(), next, i);
      FilterIndex(jobs, IsPending(), i);
      var j :| IsSource(jobs, IsPending(), i, j);
      FirstPending(jobs, i, j, next);
    }
  }

  /** critical, high, normal, low */
  predicate MoreUrgent(p: Priority, q: Priority) {
    match p
    case Critical => !q.Critical?
    case High => q.Normal? || q.Low?
    case Normal => q.Low?
    case Low => false
  }

  /** No pending job is more urgent than the one picked, or as urgent and older. */
  lemma NextIsOldestOfMostUrgent(jobs: seq<Job>, j: Job)
    requires j in jobs && j.status == Pending
    ensures NextOf(jobs).Some?
    ensures !MoreUrgent(j.priority, NextOf(jobs).value.priority)
    ensures j.priority == NextOf(jobs).value.priority ==> NextOf(jobs).value.createdAt <= j.createdAt
  {
    NextOfIsSoonest(jobs);
    hide NextOf;
    assert Sooner()(NextOf(jobs).value, j);
  }

  // ---------- queries ----------

  datatype SortField = ByCreatedAt | ByPriority | ByNextRun | Unsorted

  datatype Query = Query(
    name: Option<string>, status: Option<seq<Status>>, priority: Option<Priority>,
    sortBy: SortField, descending: bool, skip: int, limit: int)

  /** Sort values; a missing or zero next run counts as zero. */
  function SortValue(field: SortField, j: Job): int {
    match field
    case ByCreatedAt => j.createdAt
    case ByPriority => Rank(j.priority)
    case ByNextRun => (match j.nextRun case Some(t) => t case None => 0)
    case Unsorted => 0
  }

  function InOrder(q: Query): (Job, Job) -> bool {
    (a: Job, b: Job) =>
      if q.descending then SortValue(q.sortBy, b) <= SortValue(q.sortBy, a)
      else SortValue(q.sortBy, a) <= SortValue(q.sortBy, b)
  }

  /** `slice(n)` and `slice(0, n)` when the option is given and not zero. */
  function From(n: int, s: seq<Job>): seq<Job> {
    if n >= 0 then s[if n > |s| then |s| else n..] else s[if |s| + n < 0 then 0 else |s| + n..]
  }

  function UpTo(n: int, s: seq<Job>): seq<Job> {
    if n == 0 then s
    else if n > 0 then s[..if n > |s| then |s| else n]
    else s[..if |s| + n < 0 then 0 else |s| + n]
  }

  function Selects(q: Query): Job -> bool {
    (j: Job) => (q.name.Some? && q.name.value != "" ==> j.name == q.name.value)
      && (q.status.Some? ==> j.status in q.status.value)
         && (q.priority.Some? ==> j.priority == q.priority.value)
  }

  function Answer(q: Query, jobs: seq<Job>): seq<Job> {
    var found := Filter(jobs, Selects(q));
    var sorted := if q.sortBy.Unsorted? then found else Sort(found, InOrder(q));
    UpTo(q.limit, From(q.skip, sorted))
  }

  function Unpaged(q: Query): Query { q.(skip := 0, limit := 0) }

  /** Without paging a query answers with exactly the matching jobs, in the order asked for, or as stored. */
  lemma UnpagedIsAll(q: Query, jobs: seq<Job>)
    ensures var all := Answer(Unpaged(q), jobs);
      && multiset(all) == multiset(Filter(jobs, Selects(q)))
      && (q.sortBy.Unsorted? ==> all == Filter(jobs, Selects(q)))
      && (!q.sortBy.Unsorted? ==> Sorted(all, InOrder(q)))
      && forall j {:trigger j in all} :: j in all ==> j in jobs && Selects(q)(j)
  {
    hide Filter, Sort;
    var found := Filter(jobs, Selects(q));
    assert Selects(Unpaged(q)) == Selects(q) && InOrder(Unpaged(q)) == InOrder(q);
    assert From(0, found) == found;
    FilterMembers(jobs, Selects(q));
    SortMultiset(found, InOrder(q));
    var dom := set j | j in found;
    SortSorted(found, InOrder(q), dom);
  }

  /** Page number `i` of a size. */
  function Page(q: Query, size: nat, i: nat): Query { q.(skip := i * size, limit := size) }

  /** The jobs of the first `k` pages, one page after another. */
  function FirstPages(q: Query, jobs: seq<Job>, size: nat, k: nat): seq<Job> {
    if k == 0 then [] else FirstPages(q, jobs, size, k - 1) + Answer(Page(q, size, k - 1), jobs)
  }

  function Take(n: nat, s: seq<Job>): seq<Job> { if n < |s| then s[..n] else s }

  lemma PageOfAll(q: Query, jobs: seq<Job>, size: nat, i: nat)
    requires size > 0
    ensures Take(i * size, Answer(Unpaged(q), jobs)) + Answer(Page(q, size, i), jobs)
         == Take(i * size + size, Answer(Unpaged(q), jobs))
  {
    hide Filter, Sort;
    assert Selects(Unpaged(q)) == Selects(q) == Selects(Page(q, size, i));
    assert InOrder(Unpaged(q)) == InOrder(q) == InOrder(Page(q, size, i));
  }

  lemma NextStart(size: nat, k: nat)
    requires k > 0
    ensures (k - 1) * size + size == k * size
  {
  }

  /** The pages of a query, one after another, are the unpaged answer: no job is lost or given twice. */
  lemma {:induction false} PagesCover(q: Query, jobs: seq<Job>, size: nat, k: nat)
    requires size > 0
    ensures var all := Answer(Unpaged(q), jobs);
      && FirstPages(q, jobs, size, k) == Take(k * size, all)
      && (k * size >= |all| ==> FirstPages(q, jobs, size, k) == all)
  {
    hide Answer, Unpaged, Page;
    if k == 0 {
      assert 0 * size == 0;
    } else {
      PagesCover(q, jobs, size, k - 1);
      PageOfAll(q, jobs, size, k - 1);
      NextStart(size, k);
    }
  }

  // ---------- statistics ----------

  datatype Stats = Stats(total: nat, pending: nat, running: nat, completed: nat, failed: nat,
      cancelled: nat, scheduled: nat)

  function HasStatus(s: Status): Job -> bool { (j: Job) => j.status == s }

  function Count(jobs: seq<Job>, s: Status): nat { |Filter(jobs, HasStatus(s))| }

  function StatsOf(jobs: seq<Job>): Stats {
    Stats(|jobs|, Count(jobs, Pending), Count(jobs, Running), Count(jobs, Completed), Count(jobs, Failed),
          Count(jobs, Cancelled), Count(jobs, Scheduled))
  }

  lemma {:induction false} StatsAddUp(jobs: seq<Job>)
    ensures var s := StatsOf(jobs);
      s.pending + s.running + s.completed + s.failed + s.cancelled + s.scheduled == s.total
  {
    if jobs != [] { StatsAddUp(jobs[1..]); }
  }
}
