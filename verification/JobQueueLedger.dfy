/** Handlers, processing, and the suspended starts and cancels of the queue, told from the events of the run. */
module JobQueueLedger {
  import opened Options
  import opened OrderedMap
  import opened Jobs
  import opened JobQueueModel

  /** Registered, and not unregistered since. */
  ghost predicate HasHandler(trace: seq<Event>, name: string) {
    exists k :: 0 <= k < |trace| && trace[k] == Register(name) && NoneAfter(trace, k, Unregister(name))
  }

  ghost predicate NoneAfter(trace: seq<Event>, k: nat, e: Event) { forall j :: k < j < |trace| ==> trace[j] != e }

  lemma AfterSnoc(trace: seq<Event>, x: Event, e: Event, k: nat)
    requires k < |trace|
    ensures NoneAfter(trace + [x], k, e) <==> NoneAfter(trace, k, e) && x != e
  {
    var all := trace + [x];
    assert all[|trace|] == x && forall j :: 0 <= j < |trace| ==> all[j] == trace[j];
  }

  ghost predicate HandlerAfter(trace: seq<Event>, x: Event, name: string) {
    HasHandler(trace + [x], name) <==> x == Register(name) || (HasHandler(trace, name) && x != Unregister(name))
  }

  lemma HandlerSnoc(trace: seq<Event>, x: Event, name: string)
    ensures HandlerAfter(trace, x, name)
  {
    var all := trace + [x];
    assert all[|trace|] == x && forall j :: 0 <= j < |trace| ==> all[j] == trace[j];
    forall k | 0 <= k < |trace|
      ensures NoneAfter(all, k, Unregister(name)) <==> NoneAfter(trace, k, Unregister(name)) && x != Unregister(name)
    {
      AfterSnoc(trace, x, Unregister(name), k);
    }
    assert NoneAfter(all, |trace|, Unregister(name));
    if HasHandler(trace, name) && x != Unregister(name) {
      var k :| 0 <= k < |trace| && trace[k] == Register(name) && NoneAfter(trace, k, Unregister(name));
      assert all[k] == Register(name);
    }
  }

  /** The enqueues that were accepted and have not yet gone on to start a loop. */
  ghost function Owed(trace: seq<Event>): nat {
    if trace == [] then 0
    else
      var (before, last) := (trace[..|trace| - 1], trace[|trace| - 1]);
      if last.Enqueue? && HasHandler(before, last.config.name) then Owed(before) + 1
      else if last.Kick? && Owed(before) > 0 then Owed(before) - 1
      else Owed(before)
  }

  /** Started by an enqueue, and not stopped since. */
  ghost predicate Processing(trace: seq<Event>) {
    exists k :: 0 <= k < |trace| && trace[k].Kick? && Owed(trace[..k]) > 0 && NoneAfter(trace, k, Stop)
  }

  lemma ProcessingSnoc(trace: seq<Event>, x: Event)
    ensures Processing(trace + [x]) <==> (x.Kick? && Owed(trace) > 0) || (Processing(trace) && x != Stop)
  {
    hide Owed, HasHandler;
    var all := trace + [x];
    assert all[|trace|] == x && all[..|trace|] == trace && forall j :: 0 <= j < |trace| ==> all[j] == trace[j];
    forall k | 0 <= k < |trace| ensures all[..k] == trace[..k] {}
    forall k | 0 <= k < |trace| ensures NoneAfter(all, k, Stop) <==> NoneAfter(trace, k, Stop) && x != Stop {
      AfterSnoc(trace, x, Stop, k);
    }
    if x.Kick? && Owed(trace) > 0 { assert NoneAfter(all, |trace|, Stop); }
    if Processing(trace) && x != Stop {
      var k :| 0 <= k < |trace| && trace[k].Kick? && Owed(trace[..k]) > 0 && NoneAfter(trace, k, Stop);
      assert all[k].Kick? && Owed(all[..k]) > 0;
    }
  }

  /** The cancels that were let through and have not yet written. */
  ghost function Cancelling(cfg: Config, trace: seq<Event>): seq<string> {
    if trace == [] then []
    else
      var (before, last) := (trace[..|trace| - 1], trace[|trace| - 1]);
      var was := Cancelling(cfg, before);
      if last.CancelRead? && MayCancel(Run(cfg, before).jobs, last.id) then was + [last.id]
      else if last.CancelWrite? && last.cancel < |was| then was[..last.cancel] + was[last.cancel + 1..]
      else was
  }

  ghost predicate MayCancel(t: Table, id: string) { id in t.at && t.at[id].status != Running }

  ghost predicate Ledger(cfg: Config, trace: seq<Event>, s: State) {
    && (forall name :: name in s.handlers <==> HasHandler(trace, name))
    && s.kicks == Owed(trace) && s.processing == Processing(trace) && s.cancels == Cancelling(cfg, trace)
  }

  /**
   In every run: who has a handler, which enqueues have yet to start a loop, whether the queue is processing, and
   which cancels have yet to write.
   */
  lemma {:induction false} LedgerTold(cfg: Config, trace: seq<Event>)
    ensures Ledger(cfg, trace, Run(cfg, trace))
  {
    if trace == [] {
      assert forall name :: !HasHandler(trace, name);
    } else {
      var n := |trace| - 1;
      var (before, e) := (trace[..n], trace[n]);
      LedgerTold(cfg, before);
      assert trace == before + [e];
      forall name ensures HandlerAfter(before, e, name) { HandlerSnoc(before, e, name); }
      ProcessingSnoc(before, e);
      assert Run(cfg, trace) == Step(cfg, Run(cfg, before), e);
      hide HasHandler, Processing, Run;
      StepLedger(cfg, before, e, Run(cfg, before));
    }
  }

  lemma StepLedger(cfg: Config, before: seq<Event>, e: Event, s: State)
    requires Valid(s.jobs) && s == Run(cfg, before) && Ledger(cfg, before, s)
    requires forall name :: HandlerAfter(before, e, name)
    requires Processing(before + [e]) <==> (e.Kick? && Owed(before) > 0) || (Processing(before) && e != Stop)
    ensures Ledger(cfg, before + [e], Step(cfg, s, e))
  {
    hide HasHandler, Processing, Run, NextPending, NewJob, Update, Valid;
    var trace := before + [e];
    assert trace[..|trace| - 1] == before && trace[|trace| - 1] == e;
    forall name ensures name in Step(cfg, s, e).handlers <==> HasHandler(trace, name) {
      assert HandlerAfter(before, e, name);
    }
  }

  // ---------- one turn of a loop ----------

  /** A stored job that is pending, none of them more urgent, nor as urgent and older. */
  ghost predicate FirstInLine(t: Table, job: Job)
    requires Valid(t)
  {
    && job in Values(t) && job.status == Pending
    && forall j :: j in Values(t) && j.status == Pending ==>
      !MoreUrgent(j.priority, job.priority) && (j.priority == job.priority ==> job.createdAt <= j.createdAt)
  }

  ghost predicate SomePending(t: Table)
    requires Valid(t)
  {
    exists j :: j in Values(t) && j.status == Pending
  }

  /**
   A loop whose turn it is ends if the queue has been stopped. Otherwise it is given the first job in line, if one is
   pending and there is room; with neither nothing changes.
   */
  lemma TurnMeaning(cfg: Config, s: State, i: nat)
    requires Valid(s.jobs) && i < |s.loops| && s.loops[i] == Idle
    ensures var s' := Step(cfg, s, Fetch(i));
      if !s.processing then s' == s.(loops := s.loops[i := Exited])
      else if s.activeJobs < cfg.maxConcurrency && SomePending(s.jobs) then
        s'.loops[i].Holding? && FirstInLine(s.jobs, s'.loops[i].job) && s' == s.(loops := s.loops[i := s'.loops[i]])
      else s' == s
  {
    var jobs := Values(s.jobs);
    NextOfIsSoonest(jobs);
    forall j | j in jobs && j.status == Pending
      ensures NextOf(jobs).Some? && !MoreUrgent(j.priority, NextOf(jobs).value.priority)
           && (j.priority == NextOf(jobs).value.priority ==> NextOf(jobs).value.createdAt <= j.createdAt)
    {
      NextIsOldestOfMostUrgent(jobs, j);
    }
    hide NextOf, MoreUrgent, Values, Valid, FirstAmong, Sooner;
  }
}
