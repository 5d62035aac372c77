/** No load is lost, invented, reordered or answered twice; batches are few and full; values are direct lookups. */
module DataLoaderLaws {
  import opened Options
  import opened Lists
  import opened DataLoaderModel

  function Flatten(bs: seq<seq<Load>>): seq<Load> {
    if bs == [] then [] else bs[0] + Flatten(bs[1..])
  }

  lemma {:induction false} FlattenConcat(a: seq<seq<Load>>, b: seq<seq<Load>>)
    ensures Flatten(a + b) == Flatten(a) + Flatten(b)
  {
    if a == [] {
      assert a + b == b;
    } else {
      FlattenConcat(a[1..], b);
      assert (a + b)[1..] == a[1..] + b;
      ConcatAssoc(a[0], Flatten(a[1..]), Flatten(b));
    }
  }

  lemma FlattenOne(b: seq<Load>)
    ensures Flatten([b]) == b
  {
    assert [b][1..] == [];
  }

  /** The loads of one batch stand between those of the earlier and of the later batches. */
  lemma FlattenSplit(before: seq<seq<Load>>, b: seq<Load>, after: seq<seq<Load>>)
    ensures Flatten(before + [b] + after) == Flatten(before) + b + Flatten(after)
  {
    FlattenConcat(before + [b], after);
    FlattenConcat(before, [b]);
    FlattenOne(b);
  }

  ghost predicate Ascending(s: seq<Load>) {
    forall i, j :: 0 <= i < j < |s| ==> s[i].ticket < s[j].ticket
  }

  /** The loads still without an answer: those with the batch function, then those on the list. */
  function Outstanding<V>(s: State<V>): seq<Load> { Flatten(s.inFlight) + s.pending }

  /** A load that is not answered, made with its key. */
  ghost predicate Open<V>(s: State<V>, l: Load) {
    l.ticket < |s.keys| && l.ticket !in s.settled && s.keys[l.ticket] == l.key
  }

  ghost predicate HasTicket(loads: seq<Load>, t: nat) { exists l :: l in loads && l.ticket == t }

  /** Every load is answered or outstanding, never both; outstanding loads are in the order they were made. */
  ghost predicate Accounted<V>(s: State<V>) {
    && Ascending(Outstanding(s))
    && (forall l :: l in Outstanding(s) ==> Open(s, l))
    && (forall t :: 0 <= t < |s.keys| ==> t in s.settled || HasTicket(Outstanding(s), t))
    && (forall t :: t in s.settled ==> t < |s.keys|)
  }

  ghost predicate Fifo<V>(cfg: Config, s: State<V>) {
    && Flatten(s.batches) + s.pending == s.listed
    && forall b :: b in s.batches ==> 1 <= |b| <= cfg.maxBatchSize
  }

  /** What is on the list will be dispatched. */
  ghost predicate Scheduled<V>(s: State<V>) {
    && (s.scheduled ==> s.queued > 0)
    && (s.pending != [] ==> s.queued > 0 || s.inFlight != [])
  }

  // ---------- settling ----------

  lemma NoTicket(t: nat)
    ensures !HasTicket([], t)
  {
  }

  lemma TicketOfMore(batch: seq<Load>, l: Load, t: nat)
    ensures HasTicket(batch + [l], t) <==> HasTicket(batch, t) || l.ticket == t
  {
    if HasTicket(batch, t) {
      var m: Load :| m in batch && m.ticket == t;
      assert m in batch + [l];
    }
    assert l in batch + [l];
  }

  lemma {:induction false} SettleAllElsewhere<V>(
    settled: map<nat, Outcome<V>>, batch: seq<Load>, results: seq<Option<V>>, t: nat)
    ensures var m := SettleAll(settled, batch, results);
      && (t in m <==> t in settled || HasTicket(batch, t))
           && (t in settled && !HasTicket(batch, t) ==> m[t] == settled[t])
  {
    hide HasTicket;
    NoTicket(t);
    if batch != [] {
      var (before, last) := (batch[..|batch| - 1], batch[|batch| - 1]);
      assert batch == before + [last];
      TicketOfMore(before, last, t);
      SettleAllElsewhere(settled, before, results, t);
    }
  }

  lemma {:induction false} SettleAllAt<V>(
    settled: map<nat, Outcome<V>>, batch: seq<Load>, results: seq<Option<V>>, i: nat)
    requires Ascending(batch) && i < |batch|
    ensures var m := SettleAll(settled, batch, results);
      batch[i].ticket in m && m[batch[i].ticket] == Resolved(ResultAt(results, i))
  {
    var n := |batch| - 1;
    if i < n {
      SettleAllAt(settled, batch[..n], results, i);
    }
  }

  lemma {:induction false} RejectAllElsewhere<V>(settled: map<nat, Outcome<V>>, batch: seq<Load>, t: nat)
    ensures var m := RejectAll(settled, batch);
      && (t in m <==> t in settled || HasTicket(batch, t))
           && (t in settled && !HasTicket(batch, t) ==> m[t] == settled[t])
  {
    hide HasTicket;
    NoTicket(t);
    if batch != [] {
      var (before, last) := (batch[..|batch| - 1], batch[|batch| - 1]);
      assert batch == before + [last];
      TicketOfMore(before, last, t);
      RejectAllElsewhere(settled, before, t);
    }
  }

  /** The answers of one batch are added, none changed, when all its loads are open. */
  lemma AccountedLeave<V>(s: State<V>, s': State<V>, b: nat)
    requires Accounted(s) && b < |s.inFlight|
    requires s'.inFlight == s.inFlight[..b] + s.inFlight[b + 1..] && s'.pending == s.pending && s'.keys == s.keys
    requires forall t :: t in s'.settled <==> t in s.settled || HasTicket(s.inFlight[b], t)
    ensures Accounted(s')
  {
    var (x, m, y) := (Flatten(s.inFlight[..b]), s.inFlight[b], Flatten(s.inFlight[b + 1..]) + s.pending);
    OutstandingParts(s, s', b);
    hide Flatten, Outstanding;
    AscendingParts(x, m, y);
    forall l | l in x + y ensures Open(s', l) {
      assert l in x + m + y;
    }
    forall t: nat | HasTicket(m, t) ensures t < |s.keys| {
      var l: Load :| l in m && l.ticket == t;
      assert l in x + m + y;
    }
    forall t | 0 <= t < |s.keys| && t !in s'.settled ensures HasTicket(x + y, t) {
      var l: Load :| l in x + m + y && l.ticket == t;
      assert l !in m;
      assert l in x + y;
    }
  }

  lemma OutstandingParts<V>(s: State<V>, s': State<V>, b: nat)
    requires b < |s.inFlight| && s'.inFlight == s.inFlight[..b] + s.inFlight[b + 1..] && s'.pending == s.pending
    ensures var (x, m, y) := (Flatten(s.inFlight[..b]), s.inFlight[b], Flatten(s.inFlight[b + 1..]) + s.pending);
      Outstanding(s) == x + m + y && Outstanding(s') == x + y
  {
    var (before, m, after) := (s.inFlight[..b], s.inFlight[b], s.inFlight[b + 1..]);
    assert s.inFlight == before + [m] + after;
    FlattenSplit(before, m, after);
    FlattenConcat(before, after);
    hide Flatten;
    ConcatAssoc(Flatten(before) + m, Flatten(after), s.pending);
    ConcatAssoc(Flatten(before), Flatten(after), s.pending);
  }

  lemma AscendingParts(x: seq<Load>, m: seq<Load>, y: seq<Load>)
    requires Ascending(x + m + y)
    ensures Ascending(x + y) && Ascending(m)
    ensures forall l :: l in x + y ==> !HasTicket(m, l.ticket)
  {
    var all := x + m + y;
    forall i, j | 0 <= i < j < |x + y| ensures (x + y)[i].ticket < (x + y)[j].ticket {
      var (i', j') := (if i < |x| then i else i + |m|, if j < |x| then j else j + |m|);
      assert all[i'] == (x + y)[i] && all[j'] == (x + y)[j];
    }
    forall i, j | 0 <= i < j < |m| ensures m[i].ticket < m[j].ticket {
      assert all[|x| + i] == m[i] && all[|x| + j] == m[j];
    }
    forall l | l in x + y ensures !HasTicket(m, l.ticket) {
      var i :| 0 <= i < |x + y| && (x + y)[i] == l;
      var i' := if i < |x| then i else i + |m|;
      assert all[i'] == l;
      forall k | 0 <= k < |m| ensures m[k].ticket != l.ticket {
        assert all[|x| + k] == m[k];
      }
    }
  }

  // ---------- what every event keeps ----------

  lemma LoadKeeps<V>(cfg: Config, s: State<V>, key: string)
    requires Accounted(s)
    ensures Accounted(LoadStep(cfg, s, key))
  {
    var s' := LoadStep(cfg, s, key);
    var l := Load(|s.keys|, key);
    if s'.pending != s.pending {
      ConcatAssoc(Flatten(s.inFlight), s.pending, [l]);
      assert Outstanding(s') == Outstanding(s) + [l];
    } else {
      assert Outstanding(s') == Outstanding(s);
    }
    assert forall t :: 0 <= t < |s.keys| ==> s'.keys[t] == s.keys[t];
    hide Flatten, Outstanding;
    var out := Outstanding(s);
    forall i | 0 <= i < |out| ensures out[i].ticket < |s.keys| {
      assert out[i] in out;
    }
    forall t: nat | t < |s'.keys| && t !in s'.settled ensures HasTicket(Outstanding(s'), t) {
      if t < |s.keys| {
        var m: Load :| m in Outstanding(s) && m.ticket == t;
        assert m in Outstanding(s');
      } else {
        assert l in Outstanding(s');
      }
    }
  }

  lemma DispatchKeeps<V>(cfg: Config, s: State<V>)
    ensures Outstanding(DispatchStep(cfg, s)) == Outstanding(s)
    ensures Accounted(s) ==> Accounted(DispatchStep(cfg, s))
  {
    var n := Taken(cfg, |s.pending|);
    assert s.pending == s.pending[..n] + s.pending[n..];
    FlattenConcat(s.inFlight, [s.pending[..n]]);
    FlattenOne(s.pending[..n]);
    hide Flatten;
    ConcatAssoc(Flatten(s.inFlight), s.pending[..n], s.pending[n..]);
  }

  lemma ReturnKeeps<V>(cfg: Config, s: State<V>, b: nat, results: seq<Option<V>>)
    requires Accounted(s) && b < |s.inFlight|
    ensures Accounted(ReturnStep(cfg, s, b, results))
    ensures forall t :: t in s.settled ==>
        t in ReturnStep(cfg, s, b, results).settled && ReturnStep(cfg, s, b, results).settled[t] == s.settled[t]
  {
    BatchIsOpen(s, b);
    forall t ensures var m := SettleAll(s.settled, s.inFlight[b], results);
      && (t in m <==> t in s.settled || HasTicket(s.inFlight[b], t))
           && (t in s.settled && !HasTicket(s.inFlight[b], t) ==> m[t] == s.settled[t])
    {
      SettleAllElsewhere(s.settled, s.inFlight[b], results, t);
    }
    hide SettleAll, CacheAll, Accounted, HasTicket, Ascending, Open;
    AccountedLeave(s, ReturnStep(cfg, s, b, results), b);
  }

  /** The loads of a returned batch get the results at their positions. */
  lemma ReturnAnswers<V>(cfg: Config, s: State<V>, b: nat, results: seq<Option<V>>, i: nat)
    requires Accounted(s) && b < |s.inFlight| && i < |s.inFlight[b]|
    ensures var m := ReturnStep(cfg, s, b, results).settled;
      s.inFlight[b][i].ticket in m && m[s.inFlight[b][i].ticket] == Resolved(ResultAt(results, i))
  {
    BatchIsOpen(s, b);
    SettleAllAt(s.settled, s.inFlight[b], results, i);
  }

  lemma ThrowKeeps<V>(s: State<V>, b: nat)
    requires Accounted(s) && b < |s.inFlight|
    ensures Accounted(ThrowStep(s, b))
    ensures forall t :: t in s.settled ==> t in ThrowStep(s, b).settled && ThrowStep(s, b).settled[t] == s.settled[t]
  {
    BatchIsOpen(s, b);
    forall t ensures var m := RejectAll(s.settled, s.inFlight[b]);
      && (t in m <==> t in s.settled || HasTicket(s.inFlight[b], t))
           && (t in s.settled && !HasTicket(s.inFlight[b], t) ==> m[t] == s.settled[t])
    {
      RejectAllElsewhere(s.settled, s.inFlight[b], t);
    }
    hide RejectAll, Accounted, HasTicket, Ascending, Open;
    AccountedLeave(s, ThrowStep(s, b), b);
  }

  lemma BatchIsOpen<V>(s: State<V>, b: nat)
    requires Accounted(s) && b < |s.inFlight|
    ensures Ascending(s.inFlight[b])
    ensures forall l :: l in s.inFlight[b] ==> Open(s, l)
    ensures forall t :: t in s.settled ==> !HasTicket(s.inFlight[b], t)
  {
    var (x, m, y) := (Flatten(s.inFlight[..b]), s.inFlight[b], Flatten(s.inFlight[b + 1..]) + s.pending);
    OutstandingParts(s, s.(inFlight := s.inFlight[..b] + s.inFlight[b + 1..]), b);
    hide Flatten, Outstanding;
    AscendingParts(x, m, y);
    forall l | l in m ensures Open(s, l) {
      assert l in x + m + y;
    }
  }

  lemma StepKeeps<V>(cfg: Config, s: State<V>, e: Event<V>)
    requires Accounted(s)
    ensures Accounted(Step(cfg, s, e))
    ensures forall t :: t in s.settled ==> t in Step(cfg, s, e).settled && Step(cfg, s, e).settled[t] == s.settled[t]
  {
    match e
    case MakeLoad(key) => LoadKeeps(cfg, s, key);
    case Dispatch => DispatchKeeps(cfg, s);
    case Return(b, results) => if b < |s.inFlight| { ReturnKeeps(cfg, s, b, results); }
    case Throw(b) => if b < |s.inFlight| { ThrowKeeps(s, b); }
    case _ =>
  }

  lemma FifoDispatch<V>(cfg: Config, s: State<V>)
    requires Fifo(cfg, s)
    ensures Fifo(cfg, DispatchStep(cfg, s))
  {
    var n := Taken(cfg, |s.pending|);
    var (front, rest) := (s.pending[..n], s.pending[n..]);
    assert s.pending == front + rest;
    FlattenConcat(s.batches, [front]);
    FlattenOne(front);
    hide Flatten;
    ConcatAssoc(Flatten(s.batches), front, rest);
  }

  lemma FifoStep<V>(cfg: Config, s: State<V>, e: Event<V>)
    requires Fifo(cfg, s)
    ensures Fifo(cfg, Step(cfg, s, e))
  {
    hide Flatten;
    match e
    case MakeLoad(key) => ConcatAssoc(Flatten(s.batches), s.pending, [Load(|s.keys|, key)]);
    case Dispatch => FifoDispatch(cfg, s);
    case _ => hide SettleAll, RejectAll, CacheAll;
  }

  lemma ScheduledStep<V>(cfg: Config, s: State<V>, e: Event<V>)
    requires Scheduled(s) && cfg.maxBatchSize >= 1
    ensures Scheduled(Step(cfg, s, e))
  {
  }

  // ---------- promises about runs ----------

  /** Every load ever made is answered or outstanding, the outstanding ones in the order they were made. */
  lemma {:induction false} NothingIsLost<V>(cfg: Config, trace: seq<Event<V>>)
    ensures Accounted(Run(cfg, Initial<V>(), trace))
  {
    if trace != [] {
      var n := |trace| - 1;
      NothingIsLost(cfg, trace[..n]);
      StepKeeps(cfg, Run(cfg, Initial(), trace[..n]), trace[n]);
    }
  }

  lemma LastStep<V>(cfg: Config, from: State<V>, trace: seq<Event<V>>)
    requires trace != []
    ensures Run(cfg, from, trace) == Step(cfg, Run(cfg, from, trace[..|trace| - 1]), trace[|trace| - 1])
  {
  }

  /** An answer, once given, stays: no load settles twice. */
  lemma {:induction false} SettlesOnce<V>(cfg: Config, trace: seq<Event<V>>, k: nat, t: nat)
    requires k <= |trace| && t in Run(cfg, Initial<V>(), trace[..k]).settled
    ensures var s := Run(cfg, Initial<V>(), trace);
      t in s.settled && s.settled[t] == Run(cfg, Initial<V>(), trace[..k]).settled[t]
    decreases |trace|
  {
    hide Accounted, Step, Run;
    if k == |trace| {
      assert trace[..k] == trace;
    } else {
      var n := |trace| - 1;
      assert trace[..n][..k] == trace[..k];
      SettlesOnce(cfg, trace[..n], k, t);
      NothingIsLost(cfg, trace[..n]);
      LastStep(cfg, Initial(), trace);
      StepKeeps(cfg, Run(cfg, Initial(), trace[..n]), trace[n]);
    }
  }

  /** The batches are consecutive pieces, of at most `maxBatchSize`, of the loads in the order they were listed. */
  lemma {:induction false} BatchesAreFifo<V>(cfg: Config, trace: seq<Event<V>>)
    ensures Fifo(cfg, Run(cfg, Initial<V>(), trace))
  {
    if trace != [] {
      var n := |trace| - 1;
      BatchesAreFifo(cfg, trace[..n]);
      FifoStep(cfg, Run(cfg, Initial(), trace[..n]), trace[n]);
    }
  }

  lemma {:induction false} AlwaysScheduled<V>(cfg: Config, trace: seq<Event<V>>)
    requires cfg.maxBatchSize >= 1
    ensures Scheduled(Run(cfg, Initial<V>(), trace))
  {
    if trace != [] {
      var n := |trace| - 1;
      AlwaysScheduled(cfg, trace[..n]);
      ScheduledStep(cfg, Run(cfg, Initial(), trace[..n]), trace[n]);
    }
  }

  /** Listed loads always have a dispatch coming exactly when batches may hold at least one load. */
  lemma DispatchComesIff<V(!new)>(cfg: Config)
    ensures (forall trace: seq<Event<V>> :: Scheduled(Run(cfg, Initial<V>(), trace))) <==> cfg.maxBatchSize >= 1
  {
    if cfg.maxBatchSize >= 1 {
      forall trace: seq<Event<V>> ensures Scheduled(Run(cfg, Initial<V>(), trace)) { AlwaysScheduled(cfg, trace); }
    } else {
      var trace: seq<Event<V>> := [MakeLoad("k"), Dispatch];
      assert trace[..1] == [MakeLoad("k")] && trace[..1][..0] == [];
      assert Run(cfg, Initial<V>(), trace[..1]) == LoadStep(cfg, Initial<V>(), "k");
      assert !Scheduled(Run(cfg, Initial<V>(), trace));
    }
  }

  // ---------- the cost of a burst ----------

  /** How many pieces of a size a list of a length falls into: the quotient, rounded up. */
  function Ceil(n: nat, size: nat): nat
    requires size >= 1
  {
    if n == 0 then 0 else 1 + Ceil(if n <= size then 0 else n - size, size)
  }

  lemma {:induction false} CeilRoundsUp(n: nat, size: nat)
    requires size >= 1
    ensures Ceil(n, size) * size - size < n <= Ceil(n, size) * size || n == Ceil(n, size) == 0
  {
    if n > size { CeilRoundsUp(n - size, size); }
  }

  /** Nothing waits, nothing runs. */
  ghost predicate Quiescent<V>(s: State<V>) {
    s.pending == [] && s.queued == 0 && s.inFlight == [] && !s.scheduled
  }

  /** One thing at a time: a dispatch is queued, or a batch is out, or all is done. */
  ghost predicate Chain<V>(s: State<V>) {
    && s.queued + |s.inFlight| <= 1
    && (s.pending != [] ==> s.queued + |s.inFlight| == 1)
    && (s.queued == 1 ==> s.pending != [])
    && (s.scheduled ==> s.queued == 1)
  }

  function Cost<V>(cfg: Config, s: State<V>): nat
    requires cfg.maxBatchSize >= 1
  {
    |s.batches| + Ceil(|s.pending|, cfg.maxBatchSize)
  }

  /** Events of the loader itself, with no new loads. */
  predicate Internal<V>(e: Event<V>) { e.Dispatch? || e.Return? || e.Throw? }

  lemma ChainStep<V>(cfg: Config, s: State<V>, e: Event<V>)
    requires cfg.maxBatchSize >= 1 && Chain(s) && Internal(e)
    ensures Chain(Step(cfg, s, e)) && Cost(cfg, Step(cfg, s, e)) == Cost(cfg, s)
  {
  }

  function Burst<V>(keys: seq<string>): seq<Event<V>> {
    seq(|keys|, i requires 0 <= i < |keys| => MakeLoad(keys[i]))
  }

  lemma {:induction false} BurstListed<V>(cfg: Config, s: State<V>, keys: seq<string>)
    requires Quiescent(s) && (cfg.cacheEnabled ==> forall k :: k in keys ==> k !in s.cache)
    ensures var s' := Run(cfg, s, Burst(keys));
      && |s'.pending| == |keys| && s'.inFlight == [] && s'.batches == s.batches && s'.cache == s.cache
      && s'.queued == (if keys == [] then 0 else 1) && s'.scheduled == (keys != [])
  {
    if keys != [] {
      var n := |keys| - 1;
      BurstListed(cfg, s, keys[..n]);
      assert Burst<V>(keys)[..n] == Burst<V>(keys[..n]);
    }
  }

  lemma {:induction false} ChainRun<V>(cfg: Config, s: State<V>, trace: seq<Event<V>>)
    requires cfg.maxBatchSize >= 1 && Chain(s) && forall i :: 0 <= i < |trace| ==> Internal(trace[i])
    ensures Chain(Run(cfg, s, trace)) && Cost(cfg, Run(cfg, s, trace)) == Cost(cfg, s)
  {
    if trace != [] {
      var n := |trace| - 1;
      ChainRun(cfg, s, trace[..n]);
      hide Chain, Cost, Step;
      ChainStep(cfg, Run(cfg, s, trace[..n]), trace[n]);
    }
  }

  /**
   From rest, a burst of loads of uncached keys costs exactly ceil(n / maxBatchSize) calls of the batch function,
   however the loader's own events run until it is at rest again.
   */
  lemma BurstCost<V>(cfg: Config, s: State<V>, keys: seq<string>, trace: seq<Event<V>>)
    requires cfg.maxBatchSize >= 1 && Quiescent(s) && (cfg.cacheEnabled ==> forall k :: k in keys ==> k !in s.cache)
    requires forall i :: 0 <= i < |trace| ==> Internal(trace[i])
    requires Quiescent(Run(cfg, Run(cfg, s, Burst(keys)), trace))
    ensures |Run(cfg, Run(cfg, s, Burst(keys)), trace).batches| == |s.batches| + Ceil(|keys|, cfg.maxBatchSize)
  {
    BurstListed(cfg, s, keys);
    ChainRun(cfg, Run(cfg, s, Burst(keys)), trace);
  }

  function Remaining<V>(cfg: Config, s: State<V>): nat
    requires cfg.maxBatchSize >= 1
  {
    2 * Ceil(|s.pending|, cfg.maxBatchSize) + |s.inFlight|
  }

  /** The loader does come to rest: until then some event of its own is due, and each uses up what remains. */
  lemma ChainAdvances<V>(cfg: Config, s: State<V>)
    requires cfg.maxBatchSize >= 1 && Chain(s)
    ensures Remaining(cfg, s) == 0 <==> s.pending == [] && s.inFlight == []
    ensures s.queued > 0 ==> Remaining(cfg, DispatchStep(cfg, s)) == Remaining(cfg, s) - 1
    ensures s.inFlight != [] ==> forall results ::
        Remaining(cfg, ReturnStep(cfg, s, 0, results)) == Remaining(cfg, s) - 1
    ensures s.inFlight != [] ==> Remaining(cfg, ThrowStep(s, 0)) == Remaining(cfg, s) - 1
    ensures Remaining(cfg, s) > 0 ==> s.queued > 0 || s.inFlight != []
  {
  }
}
