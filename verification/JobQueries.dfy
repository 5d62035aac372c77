/** What a job query answers, in terms of the jobs' own fields: which jobs, in which order, and which piece of them. */
module JobQueries {
  import opened Options
  import opened Lists
  import opened Jobs

  /** An empty name asks for nothing. */
  ghost predicate NameAsked(q: Query, j: Job) {
    match q.name
    case None => true
    case Some(name) => name == "" || j.name == name
  }

  ghost predicate StatusAsked(q: Query, j: Job) {
    match q.status
    case None => true
    case Some(statuses) => exists i :: 0 <= i < |statuses| && statuses[i] == j.status
  }

  ghost predicate PriorityAsked(q: Query, j: Job) {
    match q.priority
    case None => true
    case Some(priority) => j.priority == priority
  }

  /** An unpaged query answers with the jobs that have the name, one of the statuses, and the priority asked for. */
  lemma AnswersAreAsked(q: Query, jobs: seq<Job>, j: Job)
    ensures j in Answer(Unpaged(q), jobs)
      <==> j in jobs && NameAsked(q, j) && StatusAsked(q, j) && PriorityAsked(q, j)
  {
    assert Selects(q)(j) <==> NameAsked(q, j) && StatusAsked(q, j) && PriorityAsked(q, j);
    UnpagedIsAll(q, jobs);
    FilterMembers(jobs, Selects(q));
    var (all, found) := (Answer(Unpaged(q), jobs), Filter(jobs, Selects(q)));
    hide Answer, Filter, Selects;
    assert j in all <==> j in multiset(all);
    assert j in found <==> j in multiset(found);
  }

  // ---------- order ----------

  ghost function NextRunTime(j: Job): int { match j.nextRun case None => 0 case Some(t) => t }

  /** `a` may stand before `b`: not later, not more urgent, or not due later; the other way round when descending. */
  ghost predicate AskedOrder(q: Query, a: Job, b: Job) {
    var (x, y) := if q.descending then (b, a) else (a, b);
    match q.sortBy
    case ByCreatedAt => x.createdAt <= y.createdAt
    case ByPriority => !MoreUrgent(x.priority, y.priority)
    case ByNextRun => NextRunTime(x) <= NextRunTime(y)
    case Unsorted => true
  }

  ghost predicate AskedAlike(q: Query, a: Job, b: Job) {
    match q.sortBy
    case ByCreatedAt => a.createdAt == b.createdAt
    case ByPriority => a.priority == b.priority
    case ByNextRun => NextRunTime(a) == NextRunTime(b)
    case Unsorted => true
  }

  ghost function AlikeAnd(q: Query, z: Job): Job -> bool { (j: Job) => AskedAlike(q, z, j) }

  lemma OrderIsAsked(q: Query, a: Job, b: Job)
    requires !q.sortBy.Unsorted?
    ensures InOrder(q)(a, b) <==> AskedOrder(q, a, b)
    ensures Like(InOrder(q), a)(b) <==> AskedAlike(q, a, b)
  {
  }

  lemma SortedAsAsked(q: Query, found: seq<Job>)
    requires !q.sortBy.Unsorted?
    ensures var all := Sort(found, InOrder(q));
      forall i, j :: 0 <= i < j < |all| ==> AskedOrder(q, all[i], all[j])
  {
    SortSorted(found, InOrder(q), (set j | j in found));
    var all := Sort(found, InOrder(q));
    hide Sort, InOrder, AskedOrder;
    forall i, j | 0 <= i < j < |all| ensures AskedOrder(q, all[i], all[j]) { OrderIsAsked(q, all[i], all[j]); }
  }

  lemma AlikeAsAsked(q: Query, found: seq<Job>, z: Job)
    requires !q.sortBy.Unsorted? && z in found
    ensures Filter(Sort(found, InOrder(q)), AlikeAnd(q, z)) == Filter(found, AlikeAnd(q, z))
  {
    var all := Sort(found, InOrder(q));
    SortClass(found, InOrder(q), (set j | j in found), z);
    hide Sort, Filter, InOrder;
    forall j: Job ensures AlikeAnd(q, z)(j) == Like(InOrder(q), z)(j) { OrderIsAsked(q, z, j); }
    hide AlikeAnd, Like;
    FilterSame(all, AlikeAnd(q, z), Like(InOrder(q), z));
    FilterSame(found, AlikeAnd(q, z), Like(InOrder(q), z));
  }

  /** The jobs stand in the order asked for, and jobs alike in what is sorted by keep their stored order. */
  lemma AnswersInOrder(q: Query, jobs: seq<Job>)
    ensures var all := Answer(Unpaged(q), jobs);
      && (forall i, j :: 0 <= i < j < |all| ==> AskedOrder(q, all[i], all[j]))
      && forall z {:trigger AlikeAnd(q, z)} :: z in all ==>
           Filter(all, AlikeAnd(q, z)) == Filter(Filter(jobs, Selects(q)), AlikeAnd(q, z))
  {
    var (all, found) := (Answer(Unpaged(q), jobs), Filter(jobs, Selects(q)));
    UnpagedIsAll(q, jobs);
    if !q.sortBy.Unsorted? {
      UnpagedSorts(q, jobs);
      SortedAsAsked(q, found);
      hide Answer, Filter, Sort, Selects, InOrder, AskedOrder, AlikeAnd;
      forall z | z in all ensures Filter(all, AlikeAnd(q, z)) == Filter(found, AlikeAnd(q, z)) {
        assert z in multiset(all);
        AlikeAsAsked(q, found, z);
      }
    }
  }

  lemma UnpagedSorts(q: Query, jobs: seq<Job>)
    requires !q.sortBy.Unsorted?
    ensures Answer(Unpaged(q), jobs) == Sort(Filter(jobs, Selects(q)), InOrder(q))
  {
    hide Filter, Sort;
    assert Selects(Unpaged(q)) == Selects(q) && InOrder(Unpaged(q)) == InOrder(q);
  }

  // ---------- the piece of a page ----------

  /** Where a slice starts or ends: negative numbers count from the end, and none lies outside. */
  function Clamped(n: int, length: nat): (at: nat)
    ensures at <= length
  {
    var at := if n < 0 then length + n else n;
    if at < 0 then 0 else if at > length then length else at
  }

  /** A page is the unpaged answer from `skip` on, and of that the piece up to `limit` if the limit is not zero. */
  lemma PageIsPiece(q: Query, jobs: seq<Job>)
    ensures var all := Answer(Unpaged(q), jobs);
      var rest := all[Clamped(q.skip, |all|)..];
      Answer(q, jobs) == if q.limit == 0 then rest else rest[..Clamped(q.limit, |rest|)]
  {
    hide Filter, Sort;
    assert Selects(Unpaged(q)) == Selects(q) && InOrder(Unpaged(q)) == InOrder(q);
  }

  // ---------- statistics ----------

  ghost function Statuses(jobs: seq<Job>): (statuses: seq<Status>)
    ensures |statuses| == |jobs|
  {
    seq(|jobs|, i requires 0 <= i < |jobs| => jobs[i].status)
  }

  lemma {:induction false} CountTells(jobs: seq<Job>, status: Status)
    ensures Count(jobs, status) == multiset(Statuses(jobs))[status]
  {
    if jobs != [] {
      CountTells(jobs[1..], status);
      assert Statuses(jobs) == [jobs[0].status] + Statuses(jobs[1..]);
    }
  }

  /** Each number of the statistics is how many of the stored jobs have that status. */
  lemma StatsTell(jobs: seq<Job>)
    ensures var (stats, statuses) := (StatsOf(jobs), multiset(Statuses(jobs)));
      && stats.total == |jobs|
      && stats.pending == statuses[Pending] && stats.running == statuses[Running]
      && stats.completed == statuses[Completed] && stats.failed == statuses[Failed]
      && stats.cancelled == statuses[Cancelled] && stats.scheduled == statuses[Scheduled]
  {
    hide Count, Statuses;
    CountTells(jobs, Pending);
    CountTells(jobs, Running);
    CountTells(jobs, Completed);
    CountTells(jobs, Failed);
    CountTells(jobs, Cancelled);
    CountTells(jobs, Scheduled);
  }
}
