/**
 The data loader object. Each method is the code between two awaits; the microtasks queued and the batches with
 the batch function are kept in `queued` and `inFlight`, the outcomes of the returned promises in `settled`.
 */
module DataLoader {
  import opened Options
  import opened Model = DataLoaderModel
  import Values = DataLoaderValues

  class Loader<V> {
    var batch: seq<Model.Load>
    var cache: map<string, V>
    var batchScheduled: bool
    const cfg: Config
    var queued: nat
    var inFlight: seq<seq<Model.Load>>
    var settled: map<nat, Outcome<V>>
    var made: nat
    ghost var keys: seq<string>
    ghost var listed: seq<Model.Load>
    ghost var batches: seq<seq<Model.Load>>

    ghost predicate Valid()
      reads this
    {
      made == |keys|
    }

    ghost function View(): State<V>
      reads this
    {
      State(batch, batchScheduled, queued, inFlight, cache, keys, settled, listed, batches)
    }

    /** Defaults: batches of 100, caching on. */
    constructor (maxBatchSize: Option<int>, cacheEnabled: Option<bool>)
      ensures Valid() && View() == Initial()
      ensures cfg == Config(
                       if maxBatchSize.Some? then maxBatchSize.value else 100,
                       if cacheEnabled.Some? then cacheEnabled.value else true)
    {
      cfg := Config(
        if maxBatchSize.Some? then maxBatchSize.value else 100,
        if cacheEnabled.Some? then cacheEnabled.value else true);
      batch, cache, batchScheduled, queued, inFlight, settled, made := [], map[], false, 0, [], map[], 0;
      keys, listed, batches := [], [], [];
    }

    /** Returns the ticket of the load's promise. */
    method MakeLoad(key: string) returns (ticket: nat)
      requires Valid()
      modifies this
      ensures Valid() && View() == Step(cfg, old(View()), Model.MakeLoad(key)) && ticket == |old(keys)|
    {
      ticket := made;
      made := made + 1;
      keys := keys + [key];
      if cfg.cacheEnabled && key in cache {
        settled := settled[ticket := Resolved(Some(cache[key]))];
        return;
      }
      batch := batch + [Model.Load(ticket, key)];
      listed := listed + [Model.Load(ticket, key)];
      if !batchScheduled {
        batchScheduled := true;
        queued := queued + 1;
      }
    }

    /** A queued microtask runs: up to the call of the batch function. */
    method DispatchBatch()
      requires Valid() && queued > 0
      modifies this
      ensures Valid() && View() == Step(cfg, old(View()), Dispatch)
    {
      queued := queued - 1;
      batchScheduled := false;
      var n := if cfg.maxBatchSize < 0 then 0 else if cfg.maxBatchSize < |batch| then cfg.maxBatchSize else |batch|;
      var taken := batch[..n];
      batch := batch[n..];
      if |taken| == 0 {
        return;
      }
      inFlight := inFlight + [taken];
      batches := batches + [taken];
    }

    /** The batch function's promise is fulfilled. */
    method BatchReturns(b: nat, results: seq<Option<V>>)
      requires Valid() && b < |inFlight|
      modifies this
      ensures Valid() && View() == Step(cfg, old(View()), Return(b, results))
    {
      var done := inFlight[b];
      for i := 0 to |done|
        invariant Valid() && View() == old(View()).(settled := settled, cache := cache)
        invariant settled == SettleAll(old(settled), done[..i], results)
        invariant cache == if cfg.cacheEnabled then CacheAll(old(cache), done[..i], results) else old(cache)
      {
        var value := if i < |results| then results[i] else None;
        if cfg.cacheEnabled && value.Some? {
          cache := cache[done[i].key := value.value];
        }
        settled := settled[done[i].ticket := Resolved(value)];
        assert done[..i + 1][..i] == done[..i];
      }
      assert done[..|done|] == done;
      EndBatch(b);
    }

    /** The batch function's promise is rejected. */
    method BatchThrows(b: nat)
      requires Valid() && b < |inFlight|
      modifies this
      ensures Valid() && View() == Step(cfg, old(View()), Throw(b))
    {
      var done := inFlight[b];
      for i := 0 to |done|
        invariant Valid() && View() == old(View()).(settled := settled)
        invariant settled == RejectAll(old(settled), done[..i])
      {
        settled := settled[done[i].ticket := Rejected];
        assert done[..i + 1][..i] == done[..i];
      }
      assert done[..|done|] == done;
      EndBatch(b);
    }

    method EndBatch(b: nat)
      requires Valid() && b < |inFlight|
      modifies this
      ensures Valid() && View() == Leave(old(View()), b)
    {
      inFlight := inFlight[..b] + inFlight[b + 1..];
      if |batch| > 0 {
        queued := queued + 1;
      }
    }

    method PrimeKey(key: string, value: V)
      requires Valid()
      modifies this
      ensures Valid() && View() == Step(cfg, old(View()), Prime(key, value))
    {
      if cfg.cacheEnabled {
        cache := cache[key := value];
      }
    }

    method ClearCached()
      requires Valid()
      modifies this
      ensures Valid() && View() == Step(cfg, old(View()), ClearCache)
    {
      cache := map[];
    }
  }

  /** The factory's batch function: one find, a map of what was found, and a look into it for every id. */
  method FetchRecords(records: seq<Values.Rec>, fails: bool, ids: seq<string>)
    returns (results: seq<Option<Values.Rec>>)
    requires Values.DistinctIds(records)
    ensures |results| == |ids|
    ensures forall i :: 0 <= i < |ids| ==> results[i] == if fails then None else Values.Wanted(records, ids[i])
    ensures Values.AnswersBatch(records, fails, ids, results)
  {
    if fails { return seq(|ids|, _ => None); }
    var found := Values.Find(records, ids, |ids|);
    var recordMap: map<string, Values.Rec> := map[];
    for i := 0 to |found|
      invariant recordMap == Values.RecordMap(found[..i])
    {
      if found[i].id != "" {
        recordMap := recordMap[found[i].id := found[i]];
      }
      assert found[..i + 1][..i] == found[..i];
    }
    assert found[..|found|] == found;
    results := seq(|ids|, i requires 0 <= i < |ids| => if ids[i] in recordMap then Some(recordMap[ids[i]]) else None);
    forall i | 0 <= i < |ids| ensures results[i] == Values.Wanted(records, ids[i]) {
      Values.FetchIsWanted(records, ids, i);
    }
  }
}
