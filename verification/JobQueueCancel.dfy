/** Exactly when a cancel takes effect, whatever happens after it. */
module JobQueueCancel {
  import opened Options
  import opened OrderedMap
  import opened Jobs
  import opened JobQueueModel
  import opened JobQueueSafety
  import opened JobQueueTheorems

  ghost predicate IsCancelled(s: State, id: string) { id in s.jobs.at && s.jobs.at[id].status.Cancelled? }

  // ---------- an untouched job stays cancelled ----------

  /** A cancelled job nobody holds or works on is cancelled after every event. */
  lemma CancelledStep(cfg: Config, s: State, e: Event, id: string)
    requires Inv(s) && FreshEvent(s, e) && Over(s, id) && IsCancelled(s, id)
    ensures IsCancelled(Step(cfg, s, e), id)
  {
    hide JobOk, Valid, Exclusive, BodyOk, LoopOk, TableOk, Update;
    match e
    case Start(i, now) =>
      if i < |s.loops| && s.loops[i].Holding? {
        var job := s.loops[i].job;
        UpdateOther(s.jobs, job.id, MarkFailed("No handler registered", now), id);
        UpdateOther(s.jobs, job.id, MarkRunning(job.attempts + 1, now), id);
      }
    case Fail(b, error, now) =>
      if b < |s.bodies| && Live(s.bodies[b]) { OverBodyWrite(s, b, MarkFailed(error, now), id); }
    case Wake(b) => if b < |s.bodies| && Live(s.bodies[b]) { OverBodyWrite(s, b, MarkPending(s.bodies[b].error), id); }
    case Succeed(b, result, now) =>
      if b < |s.bodies| && Live(s.bodies[b]) { OverBodyWrite(s, b, MarkCompleted(result, now), id); }
    case CancelWrite(k) => if k < |s.cancels| { CancelAgain(s.jobs, s.cancels[k], id); }
    case _ =>
  }

  lemma CancelAgain(t: Table, other: string, id: string)
    requires id in t.at && t.at[id].status.Cancelled?
    ensures var t' := Update(t, other, Patch(status := Some(Cancelled))); id in t'.at && t'.at[id].status.Cancelled?
  {
  }

  lemma {:induction false} CancelledForever(cfg: Config, trace: seq<Event>, from: nat, id: string)
    requires Proper(cfg, trace) && from <= |trace|
    requires Over(Run(cfg, trace[..from]), id) && IsCancelled(Run(cfg, trace[..from]), id)
    ensures Over(Run(cfg, trace), id) && IsCancelled(Run(cfg, trace), id)
    decreases |trace|
  {
    hide Inv, Proper, Run, Step, Over, IsCancelled;
    if from == |trace| {
      assert trace[..from] == trace;
    } else {
      var n := |trace| - 1;
      LastEvent(cfg, trace);
      assert trace[..n][..from] == trace[..from];
      CancelledForever(cfg, trace[..n], from, id);
      OverStep(cfg, Run(cfg, trace[..n]), trace[n], id);
      CancelledStep(cfg, Run(cfg, trace[..n]), trace[n], id);
    }
  }

  // ---------- a touched job is overwritten ----------

  lemma LoopsSet(loops: seq<Loop>, i: nat)
    requires i < |loops| && loops[i].Holding?
    ensures LiveLoops(loops[i := Idle]) == LiveLoops(loops)
    decreases |loops|
  {
    if i > 0 {
      assert loops[i := Idle][1..] == loops[1..][i - 1 := Idle];
      LoopsSet(loops[1..], i - 1);
    } else {
      assert loops[i := Idle][1..] == loops[1..];
    }
  }

  /** Whoever holds the job or works on it has one event that writes another status. */
  lemma TouchedIsOverwritten(cfg: Config, s: State, id: string) returns (e: Event)
    requires Inv(s) && id in s.jobs.at && !Untouched(s, id)
    ensures !e.Enqueue? && !IsCancelled(Step(cfg, s, e), id) && LiveLoops(Step(cfg, s, e).loops) == LiveLoops(s.loops)
  {
    hide JobOk, Valid, Exclusive, BodyOk, LoopOk, TableOk, LiveLoops;
    if NoLiveBody(s, id) {
      var i :| 0 <= i < |s.loops| && s.loops[i].Holding? && s.loops[i].job.id == id;
      e := Start(i, 0);
      LoopsSet(s.loops, i);
    } else {
      var b :| 0 <= b < |s.bodies| && Live(s.bodies[b]) && s.bodies[b].job.id == id;
      e := if s.bodies[b].phase.Executing? then Succeed(b, "", 0) else Wake(b);
    }
  }

  // ---------- the condition ----------

  lemma ProperSnoc(cfg: Config, trace: seq<Event>, e: Event)
    requires Proper(cfg, trace) && FreshEvent(Run(cfg, trace), e)
    requires LiveLoops(Step(cfg, Run(cfg, trace), e).loops) <= 1
    ensures Proper(cfg, trace + [e])
  {
    hide Run, Step, FreshEvent, LiveLoops;
    var longer := trace + [e];
    RunSnoc(cfg, trace, e);
    forall k | 0 <= k <= |longer| ensures LiveLoops(Run(cfg, longer[..k]).loops) <= 1 {
      if k <= |trace| { assert longer[..k] == trace[..k]; } else { assert longer[..k] == longer; }
    }
    forall k | 0 <= k < |longer| ensures FreshEvent(Run(cfg, longer[..k]), longer[k]) {
      if k < |trace| { assert longer[..k] == trace[..k]; } else { assert longer[..k] == trace; }
    }
  }

  /** Whatever follows the write of the cancel, the job is cancelled. */
  ghost predicate StaysCancelled(cfg: Config, trace: seq<Event>, id: string) {
    forall more: seq<Event> :: Proper(cfg, trace + more) ==> IsCancelled(Run(cfg, trace + more), id)
  }

  /**
   A cancel of a stored job holds in every continuation exactly when, at its write, no loop holds the job and no
   body works on it.
   */
  lemma CancelHoldsIff(cfg: Config, trace: seq<Event>, k: nat)
    requires Proper(cfg, trace) && k < |Run(cfg, trace).cancels|
        && Run(cfg, trace).cancels[k] in Run(cfg, trace).jobs.at
    ensures var s := Run(cfg, trace);
      StaysCancelled(cfg, trace + [CancelWrite(k)], s.cancels[k]) <==> Untouched(s, s.cancels[k])
  {
    hide Run, Step, Inv, Over, IsCancelled, Untouched, Proper, LiveLoops;
    var (s, written) := (Run(cfg, trace), trace + [CancelWrite(k)]);
    var id := s.cancels[k];
    RunKeeps(cfg, trace);
    LiveAtEnd(cfg, trace);
    CancelWritten(cfg, s, k);
    RunSnoc(cfg, trace, CancelWrite(k));
    ProperSnoc(cfg, trace, CancelWrite(k));
    RunKeeps(cfg, written);
    var s' := Run(cfg, written);
    if Untouched(s, id) {
      forall more: seq<Event> | Proper(cfg, written + more) ensures IsCancelled(Run(cfg, written + more), id) {
        assert (written + more)[..|written|] == written;
        CancelledForever(cfg, written + more, |written|, id);
      }
    } else {
      var e := TouchedIsOverwritten(cfg, s', id);
      ProperSnoc(cfg, written, e);
      RunSnoc(cfg, written, e);
      assert !IsCancelled(Run(cfg, written + [e]), id);
    }
  }

  lemma LiveAtEnd(cfg: Config, trace: seq<Event>)
    requires Proper(cfg, trace)
    ensures LiveLoops(Run(cfg, trace).loops) <= 1
  {
    assert trace[..|trace|] == trace;
  }

  /** What the write of a cancel does and leaves alone. */
  lemma CancelWritten(cfg: Config, s: State, k: nat)
    requires Inv(s) && k < |s.cancels| && s.cancels[k] in s.jobs.at
    ensures var (id, s') := (s.cancels[k], Step(cfg, s, CancelWrite(k)));
      && IsCancelled(s', id) && id in s'.jobs.at && s'.loops == s.loops && FreshEvent(s, CancelWrite(k))
      && (Untouched(s, id) <==> Untouched(s', id)) && (Untouched(s, id) ==> Over(s', id))
  {
    hide JobOk, Valid, Exclusive, BodyOk, LoopOk;
  }
}
