/**
 The batching data loader as a state machine: loads that wait, dispatches that are queued, and batches that are
 with the batch function. Each event is a stretch of code between two awaits.
 */
module DataLoaderModel {
  import opened Options

  datatype Config = Config(maxBatchSize: int, cacheEnabled: bool)

  /** A load that was not answered from the cache; tickets number all loads in the order they were made. */
  datatype Load = Load(ticket: nat, key: string)

  datatype Outcome<V> = Resolved(value: Option<V>) | Rejected

  datatype State<V> = State(
    pending: seq<Load>, scheduled: bool, queued: nat, inFlight: seq<seq<Load>>, cache: map<string, V>,
    // what has happened: keys by ticket, answers by ticket, loads put on the list, batches given to the batch function
    keys: seq<string>, settled: map<nat, Outcome<V>>, listed: seq<Load>, batches: seq<seq<Load>>)

  datatype Event<V> =
    | MakeLoad(key: string)
    | Dispatch
    | Return(batch: nat, results: seq<Option<V>>)
    | Throw(batch: nat)
    | Prime(key: string, value: V)
    | ClearCache

  function Initial<V>(): State<V> { State([], false, 0, [], map[], [], map[], [], []) }

  function LoadStep<V>(cfg: Config, s: State<V>, key: string): State<V> {
    var ticket := |s.keys|;
    var s' := s.(keys := s.keys + [key]);
    if cfg.cacheEnabled && key in s.cache then s'.(settled := s.settled[ticket := Resolved(Some(s.cache[key]))])
    else
      s'.(pending := s.pending + [Load(ticket, key)], listed := s.listed + [Load(ticket, key)],
          scheduled := true, queued := if s.scheduled then s.queued else s.queued + 1)
  }

  /** How many loads `splice(0, maxBatchSize)` takes from a list of a length. */
  function Taken(cfg: Config, n: nat): nat {
    if cfg.maxBatchSize < 0 then 0 else if cfg.maxBatchSize > n then n else cfg.maxBatchSize
  }

  function DispatchStep<V>(cfg: Config, s: State<V>): State<V> {
    if s.queued == 0 then s
    else
      var n := Taken(cfg, |s.pending|);
      var s' := s.(queued := s.queued - 1, scheduled := false);
      if n == 0 then s'
      else
        var batch := s.pending[..n];
        s'.(pending := s.pending[n..], inFlight := s.inFlight + [batch], batches := s.batches + [batch])
  }

  /** `results[i] ?? null` */
  function ResultAt<V>(results: seq<Option<V>>, i: nat): Option<V> {
    if i < |results| then results[i] else None
  }

  function SettleAll<V>(settled: map<nat, Outcome<V>>, batch: seq<Load>, results: seq<Option<V>>)
    : map<nat, Outcome<V>>
  {
    if batch == [] then settled
    else
      var n := |batch| - 1;
      SettleAll(settled, batch[..n], results)[batch[n].ticket := Resolved(ResultAt(results, n))]
  }

  function CacheAll<V>(cache: map<string, V>, batch: seq<Load>, results: seq<Option<V>>): map<string, V> {
    if batch == [] then cache
    else
      var n := |batch| - 1;
      var before := CacheAll(cache, batch[..n], results);
      match ResultAt(results, n) case None => before case Some(v) => before[batch[n].key := v]
  }

  function RejectAll<V>(settled: map<nat, Outcome<V>>, batch: seq<Load>): map<nat, Outcome<V>> {
    if batch == [] then settled else RejectAll(settled, batch[..|batch| - 1])[batch[|batch| - 1].ticket := Rejected]
  }

  /** A batch is over: what waits gets another dispatch. */
  function Leave<V>(s: State<V>, b: nat): State<V>
    requires b < |s.inFlight|
  {
    s.(inFlight := s.inFlight[..b] + s.inFlight[b + 1..], queued := if s.pending != [] then s.queued + 1 else s.queued)
  }

  function ReturnStep<V>(cfg: Config, s: State<V>, b: nat, results: seq<Option<V>>): State<V> {
    if b >= |s.inFlight| then s
    else
      Leave(s.(settled := SettleAll(s.settled, s.inFlight[b], results),
               cache := if cfg.cacheEnabled then CacheAll(s.cache, s.inFlight[b], results) else s.cache), b)
  }

  function ThrowStep<V>(s: State<V>, b: nat): State<V> {
    if b >= |s.inFlight| then s else Leave(s.(settled := RejectAll(s.settled, s.inFlight[b])), b)
  }

  function Step<V>(cfg: Config, s: State<V>, e: Event<V>): State<V> {
    match e
    case MakeLoad(key) => LoadStep(cfg, s, key)
    case Dispatch => DispatchStep(cfg, s)
    case Return(b, results) => ReturnStep(cfg, s, b, results)
    case Throw(b) => ThrowStep(s, b)
    case Prime(key, value) => if cfg.cacheEnabled then s.(cache := s.cache[key := value]) else s
    case ClearCache => s.(cache := map[])
  }

  function Run<V>(cfg: Config, from: State<V>, trace: seq<Event<V>>): State<V> {
    if trace == [] then from else Step(cfg, Run(cfg, from, trace[..|trace| - 1]), trace[|trace| - 1])
  }
}
