/** The batch function of the loader factory over a fixed set of records, and what a loader's answers then are. */
module DataLoaderValues {
  import opened Options
  import opened Lists
  import opened DataLoaderModel
  import opened DataLoaderLaws

  datatype Rec = Rec(id: string, body: string)

  ghost predicate DistinctIds(records: seq<Rec>) {
    forall i, j :: 0 <= i < j < |records| ==> records[i].id != records[j].id
  }

  function IdIn(ids: seq<string>): Rec -> bool { (r: Rec) => r.id in ids }

  /** `data.find` with a filter on ids and a limit. */
  function Find(records: seq<Rec>, ids: seq<string>, limit: nat): seq<Rec> {
    var found := Filter(records, IdIn(ids));
    found[..if limit < |found| then limit else |found|]
  }

  /** The map of found records; a record with an empty id is left out. */
  function RecordMap(found: seq<Rec>): map<string, Rec> {
    if found == [] then map[]
    else
      var before := RecordMap(found[..|found| - 1]);
      var r := found[|found| - 1];
      if r.id == "" then before else before[r.id := r]
  }

  function FetchBatch(records: seq<Rec>, ids: seq<string>): seq<Option<Rec>> {
    var m := RecordMap(Find(records, ids, |ids|));
    seq(|ids|, i requires 0 <= i < |ids| => if ids[i] in m then Some(m[ids[i]]) else None)
  }

  /** The record of an id, looked up directly. */
  function Direct(records: seq<Rec>, id: string): Option<Rec> {
    if records == [] then None else if records[0].id == id then Some(records[0]) else Direct(records[1..], id)
  }

  /** What a batched lookup is meant to give: the direct lookup, with no record for an empty id. */
  function Wanted(records: seq<Rec>, id: string): Option<Rec> {
    if id == "" then None else Direct(records, id)
  }

  lemma {:induction false} DirectFacts(records: seq<Rec>, id: string)
    ensures Direct(records, id).Some? ==> Direct(records, id).value in records && Direct(records, id).value.id == id
    ensures Direct(records, id).None? ==> forall r :: r in records ==> r.id != id
  {
    if records != [] {
      assert records == [records[0]] + records[1..];
      DirectFacts(records[1..], id);
    }
  }

  lemma {:induction false} DirectUnique(records: seq<Rec>, r: Rec)
    requires DistinctIds(records) && r in records
    ensures Direct(records, r.id) == Some(r)
  {
    var i :| 0 <= i < |records| && records[i] == r;
    if i > 0 {
      assert records[1..][i - 1] == r;
      assert DistinctIds(records[1..]) by {
        assert forall k :: 0 <= k < |records| - 1 ==> records[1..][k] == records[k + 1];
      }
      DirectUnique(records[1..], r);
    }
  }

  lemma {:induction false} RecordMapFacts(found: seq<Rec>, id: string)
    requires DistinctIds(found)
    ensures id in RecordMap(found) <==> id != "" && exists r :: r in found && r.id == id
    ensures id in RecordMap(found) ==> RecordMap(found)[id] in found && RecordMap(found)[id].id == id
  {
    if found != [] {
      var n := |found| - 1;
      RecordMapFacts(found[..n], id);
      assert found == found[..n] + [found[n]];
    }
  }

  lemma {:induction false} FilterDistinct(records: seq<Rec>, ids: seq<string>)
    requires DistinctIds(records)
    ensures DistinctIds(Filter(records, IdIn(ids)))
  {
    if records != [] {
      assert DistinctIds(records[1..]) by {
        assert forall k :: 0 <= k < |records| - 1 ==> records[1..][k] == records[k + 1];
      }
      FilterDistinct(records[1..], ids);
      var rest := Filter(records[1..], IdIn(ids));
      FilterMembers(records[1..], IdIn(ids));
      forall k | 0 <= k < |rest| ensures rest[k].id != records[0].id {
        assert rest[k] in rest;
        var i :| 0 <= i < |records[1..]| && records[1..][i] == rest[k];
        assert records[i + 1].id == rest[k].id;
      }
    }
  }

  /** Records of different ids, all among some ids, are no more than those ids: the limit cuts nothing off. */
  lemma {:induction false} NoMoreThanIds(found: seq<Rec>, ids: set<string>)
    requires DistinctIds(found) && forall r :: r in found ==> r.id in ids
    ensures |found| <= |ids|
  {
    if found != [] {
      var n := |found| - 1;
      assert found[n] in found;
      forall r | r in found[..n] ensures r.id in ids - {found[n].id} {
        var i :| 0 <= i < n && found[..n][i] == r;
        assert r in found && found[i].id != found[n].id;
      }
      NoMoreThanIds(found[..n], ids - {found[n].id});
    }
  }

  lemma {:induction false} SetNoLarger(ids: seq<string>)
    ensures |set id | id in ids| <= |ids|
  {
    if ids == [] {
      assert (set id | id in ids) == {};
    } else {
      SetNoLarger(ids[1..]);
      assert ids == [ids[0]] + ids[1..];
      assert (set id | id in ids) == {ids[0]} + set id | id in ids[1..];
    }
  }

  lemma FindsAll(records: seq<Rec>, ids: seq<string>)
    requires DistinctIds(records)
    ensures Find(records, ids, |ids|) == Filter(records, IdIn(ids))
  {
    FilterDistinct(records, ids);
    FilterMembers(records, IdIn(ids));
    SetNoLarger(ids);
    NoMoreThanIds(Filter(records, IdIn(ids)), set id | id in ids);
  }

  /** Every position of a batch gets the direct lookup of its id, repeated ids included. */
  lemma FetchIsWanted(records: seq<Rec>, ids: seq<string>, i: nat)
    requires DistinctIds(records) && i < |ids|
    ensures FetchBatch(records, ids)[i] == Wanted(records, ids[i])
  {
    FindsAll(records, ids);
    var found := Filter(records, IdIn(ids));
    FilterDistinct(records, ids);
    FilterMembers(records, IdIn(ids));
    RecordMapFacts(found, ids[i]);
    DirectFacts(records, ids[i]);
    hide Filter, RecordMap, Direct, Find;
    if ids[i] in RecordMap(found) {
      DirectUnique(records, RecordMap(found)[ids[i]]);
    } else if Direct(records, ids[i]).Some? {
      assert IdIn(ids)(Direct(records, ids[i]).value);
    }
  }

  // ---------- a loader over fixed records ----------

  function KeysOf(batch: seq<Load>): seq<string> {
    seq(|batch|, i requires 0 <= i < |batch| => batch[i].key)
  }

  function Nulls(n: nat): seq<Option<Rec>> { seq(n, _ => None) }

  /** What the batch function answers: nulls when its find fails. */
  ghost predicate AnswersBatch(records: seq<Rec>, mayFail: bool, ids: seq<string>, results: seq<Option<Rec>>) {
    results == FetchBatch(records, ids) || (mayFail && results == Nulls(|ids|))
  }

  /** Batches come back as the batch function answers them; what is primed is what a lookup would give. */
  ghost predicate Honest(records: seq<Rec>, mayFail: bool, s: State<Rec>, e: Event<Rec>) {
    match e
    case Return(b, results) => b < |s.inFlight| ==> AnswersBatch(records, mayFail, KeysOf(s.inFlight[b]), results)
    case Prime(key, value) => Wanted(records, key) == Some(value)
    case _ => true
  }

  ghost predicate Right(records: seq<Rec>, mayFail: bool, key: string, value: Option<Rec>) {
    value == Wanted(records, key) || (mayFail && value == None)
  }

  /** Cached values are what the records hold, and so are resolved values, but for nulls from finds that failed. */
  ghost predicate Truthful(records: seq<Rec>, mayFail: bool, s: State<Rec>) {
    && (forall k :: k in s.cache ==> Wanted(records, k) == Some(s.cache[k]))
    && (forall t :: t in s.settled && t < |s.keys| && s.settled[t].Resolved? ==>
          Right(records, mayFail, s.keys[t], s.settled[t].value))
  }

  lemma {:induction false} CacheAllTruthful(
    records: seq<Rec>, cache: map<string, Rec>, batch: seq<Load>, results: seq<Option<Rec>>)
    requires forall k :: k in cache ==> Wanted(records, k) == Some(cache[k])
    requires forall i :: 0 <= i < |batch| ==> Right(records, true, batch[i].key, ResultAt(results, i))
    ensures var m := CacheAll(cache, batch, results); forall k :: k in m ==> Wanted(records, k) == Some(m[k])
  {
    if batch != [] {
      CacheAllTruthful(records, cache, batch[..|batch| - 1], results);
    }
  }

  lemma ReturnTruthful(
    cfg: Config, records: seq<Rec>, mayFail: bool, s: State<Rec>, b: nat, results: seq<Option<Rec>>)
    requires DistinctIds(records) && Accounted(s) && Truthful(records, mayFail, s) && b < |s.inFlight|
    requires AnswersBatch(records, mayFail, KeysOf(s.inFlight[b]), results)
    ensures Truthful(records, mayFail, ReturnStep(cfg, s, b, results))
  {
    var (s', batch) := (ReturnStep(cfg, s, b, results), s.inFlight[b]);
    BatchIsOpen(s, b);
    hide Wanted, FetchBatch, Accounted;
    forall i | 0 <= i < |batch| ensures Right(records, mayFail, batch[i].key, ResultAt(results, i)) {
      FetchIsWanted(records, KeysOf(batch), i);
    }
    CacheAllTruthful(records, s.cache, batch, results);
    forall t | t in s'.settled && t < |s.keys| && s'.settled[t].Resolved?
      ensures Right(records, mayFail, s.keys[t], s'.settled[t].value)
    {
      SettleAllElsewhere(s.settled, batch, results, t);
      if HasTicket(batch, t) {
        var l: Load :| l in batch && l.ticket == t;
        var i :| 0 <= i < |batch| && batch[i] == l;
        ReturnAnswers(cfg, s, b, results, i);
        assert Open(s, l);
      }
    }
  }

  lemma ThrowTruthful(records: seq<Rec>, mayFail: bool, s: State<Rec>, b: nat)
    requires Truthful(records, mayFail, s) && b < |s.inFlight|
    ensures Truthful(records, mayFail, ThrowStep(s, b))
  {
    hide Wanted;
    var s' := ThrowStep(s, b);
    forall t | t in s'.settled && s'.settled[t].Resolved? ensures t in s.settled && s'.settled[t] == s.settled[t] {
      RejectAllElsewhere(s.settled, s.inFlight[b], t);
      RejectedAreRejected(s.settled, s.inFlight[b], t);
    }
  }

  lemma {:induction false} RejectedAreRejected(settled: map<nat, Outcome<Rec>>, batch: seq<Load>, t: nat)
    ensures HasTicket(batch, t) ==> t in RejectAll(settled, batch) && RejectAll(settled, batch)[t].Rejected?
  {
    if batch != [] {
      var (before, last) := (batch[..|batch| - 1], batch[|batch| - 1]);
      assert batch == before + [last];
      TicketOfMore(before, last, t);
      RejectedAreRejected(settled, before, t);
    }
  }

  lemma StepTruthful(cfg: Config, records: seq<Rec>, mayFail: bool, s: State<Rec>, e: Event<Rec>)
    requires DistinctIds(records) && Accounted(s) && Truthful(records, mayFail, s) && Honest(records, mayFail, s, e)
    ensures Truthful(records, mayFail, Step(cfg, s, e))
  {
    match e
    case Return(b, results) => if b < |s.inFlight| { ReturnTruthful(cfg, records, mayFail, s, b, results); }
    case Throw(b) => if b < |s.inFlight| { ThrowTruthful(records, mayFail, s, b); }
    case _ => hide Wanted;
  }

  /**
   Over fixed records, every load that resolves gets what a direct lookup of its key gives. Where finds may fail it may
   get null instead, and such a null is never cached.
   */
  lemma {:induction false} AnswersAreLookups(cfg: Config, records: seq<Rec>, mayFail: bool, trace: seq<Event<Rec>>)
    requires DistinctIds(records)
    requires forall k :: 0 <= k < |trace| ==> Honest(records, mayFail, Run(cfg, Initial<Rec>(), trace[..k]), trace[k])
    ensures Truthful(records, mayFail, Run(cfg, Initial<Rec>(), trace))
  {
    if trace != [] {
      var n := |trace| - 1;
      forall k | 0 <= k < n ensures Honest(records, mayFail, Run(cfg, Initial<Rec>(), trace[..n][..k]), trace[..n][k]) {
        assert trace[..n][..k] == trace[..k];
      }
      AnswersAreLookups(cfg, records, mayFail, trace[..n]);
      NothingIsLost(cfg, trace[..n]);
      hide Truthful, Honest, Accounted, Step;
      StepTruthful(cfg, records, mayFail, Run(cfg, Initial(), trace[..n]), trace[n]);
    }
  }
}
