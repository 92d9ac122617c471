/** One apply run over prepared repositories (ApplyWorkspace, stageOnHosts,
    commitPublicationLedgers, publishAndRecord and applyExecution in
    engine/workspace.go). Every answer of a gate, a host, a probe or Git is left open,
    effects that are reported as errors included, and every answer is in the trace, so what
    is promised holds on every success and failure path, and a run fails exactly where an
    answer makes it fail. */
module ApplyRun {
  import opened Wrappers
  import opened Records
  import opened ApplyTrace

  class Execution {
    const plan: Plan
    const dryRun: bool

    var events: seq<Event>
    var applied: int
    var current: int
    var deployments: seq<DeploymentRecord>
    /** When each receipt was made. */
    ghost var clock: map<nat, int>

    constructor (plan: Plan, dryRun: bool)
      ensures this.plan == plan && this.dryRun == dryRun
      ensures events == [] && applied == 0 && current == 0 && deployments == []
    {
      this.plan, this.dryRun := plan, dryRun;
      events, applied, current, deployments, clock := [], 0, 0, [], map[];
    }

    predicate Prepared() { NoopsAreCurrent(plan) }

    function Done(): Summary
      reads this`events
    {
      Summarize(events)
    }

    ghost predicate Valid()
      reads this`events, this`applied
    {
      Prepared() && TraceOK(plan, events) && applied == Reported(events)
    }

    /** The ledgers are recorded, and nothing has failed. */
    ghost predicate Going()
      reads this`events
    {
      !Done().stopped && Done().failed == {} && LedgersDone(plan, Done())
    }

    /** The outdated among the first n repositories. */
    function Outdated(n: nat): nat
      requires n <= |plan.items|
    {
      if n == 0 then 0 else Outdated(n - 1) + if plan.items[n - 1].current then 0 else 1
    }

    /** The first n repositories are settled, counted and have their receipts. */
    ghost predicate PublishedTo(n: nat)
      requires n <= |plan.items|
      reads this`events, this`applied, this`current, this`deployments, this`clock
    {
      && Going() && Done().below <= n
      && deployments == Receipts(plan, n, Done().committed, clock)
      && applied == Outdated(n) && current == n - Outdated(n)
      && forall i: nat | i < n :: Settled(plan, Done(), i)
    }

    method Emit(e: Event)
      requires TraceOK(plan, events) && Admissible(plan, events, e)
      modifies this`events
      ensures TraceOK(plan, events) && events == old(events) + [e] && LastIs(events, e)
      ensures Done() == Extend(old(Done()), e)
      ensures Reported(events) == old(Reported(events)) + (if CommitCounted(e) then 1 else 0) - (if RestoreCounted(e) then 1 else 0)
    {
      Append(plan, events, e);
      CountAppend(events, e);
      events := events + [e];
    }

    /** authorize: a noop needs no gate; anything else must find the plan unexpired and
        its gate open now. */
    method Authorize(i: nat) returns (ok: bool)
      requires i < |plan.items| && TraceOK(plan, events) && !Done().stopped
      modifies this`events
      ensures TraceOK(plan, events) && Reported(events) == old(Reported(events)) && old(events) <= events
      ensures plan.items[i].planned.action == Noop ==> ok && events == old(events)
      ensures ok && plan.items[i].planned.action != Noop ==> events == old(events) + [Authorized(i)]
      ensures !ok ==> EndsInFailure(plan, events)
      ensures forall e | e in events :: e in old(events) || (e.Asked? && e.index == i)
      ensures ok ==> Done() == old(Done())
    {
      if plan.items[i].planned.action == Noop {
        return true;
      }
      var expired: bool, gateOpen: bool := *, *;
      Emit(Asked(i, expired, gateOpen));
      ok := !expired && gateOpen;
    }

    /** One check of the run, other than a client probe of what is live. */
    method Confirm(check: Check) returns (ok: bool)
      requires TraceOK(plan, events) && !Done().stopped && !check.Client?
      modifies this`events
      ensures TraceOK(plan, events) && Reported(events) == old(Reported(events))
      ensures events == old(events) + [Checked(check, ok)]
      ensures if ok then Done() == old(Done()).(passed := old(Done()).passed + {check}) else EndsInFailure(plan, events)
    {
      ok := *;
      Emit(Checked(check, ok));
    }

    /** More is staged and checked, and nothing else is different. */
    ghost predicate OnlyStaged(before: Summary)
      reads this`events
    {
      && Done() == before.(passed := Done().passed, staged := Done().staged)
      && before.passed <= Done().passed && before.staged <= Done().staged
    }

    /** stageOnHosts, for one repository that is not current. */
    method StageOne(i: nat) returns (ok: bool)
      requires i < |plan.items| && !plan.items[i].current && Prepared() && TraceOK(plan, events) && !Done().stopped
      modifies this`events
      ensures TraceOK(plan, events) && Reported(events) == old(Reported(events))
      ensures if ok then OnlyStaged(old(Done())) && StagedWell(plan, Done(), i) else EndsInFailure(plan, events)
    {
      ok := Confirm(Files(i));
      if !ok {
        return;
      }
      ok := Authorize(i);
      if !ok {
        return;
      }
      ok := *;
      Emit(Staged(i, ok));
      if ok && !plan.structuralOnly {
        ok := Confirm(StageClient(i));
      }
    }

    /** stageOnHosts: success means that every outdated repository is staged, and accepted by a
        client unless the run is structural. */
    method StageOnHosts() returns (ok: bool)
      requires Prepared() && TraceOK(plan, events) && !Done().stopped
      modifies this`events
      ensures TraceOK(plan, events) && Reported(events) == old(Reported(events))
      ensures if ok then OnlyStaged(old(Done())) && AllStaged(plan, Done()) else EndsInFailure(plan, events)
    {
      for i := 0 to |plan.items|
        invariant TraceOK(plan, events) && Reported(events) == old(Reported(events))
        invariant OnlyStaged(old(Done())) && StagedTo(plan, Done(), i)
      {
        if !plan.items[i].current {
          ok := StageOne(i);
          if !ok {
            return;
          }
        }
      }
      return true;
    }

    /** The gates are asked again before the first ledger commit of a plan. */
    method AuthorizeLedgers() returns (ok: bool)
      requires TraceOK(plan, events) && !Done().stopped
      modifies this`events
      ensures TraceOK(plan, events) && Reported(events) == old(Reported(events))
      ensures if ok then Done() == old(Done()) else EndsInFailure(plan, events)
      ensures old(events) <= events
      ensures ok && !plan.ledgerCommitted ==>
                forall i | 0 <= i < |plan.items| && plan.items[i].planned.publicationRecords && HasEffect(plan, i) ::
                  Authorized(i) in events[|old(events)|..]
    {
      if !plan.ledgerCommitted {
        for i := 0 to |plan.items|
          invariant TraceOK(plan, events) && Reported(events) == old(Reported(events)) && Done() == old(Done())
          invariant old(events) <= events
          invariant forall k | 0 <= k < i && plan.items[k].planned.publicationRecords && HasEffect(plan, k) ::
                      Authorized(k) in events[|old(events)|..]
        {
          if plan.items[i].planned.publicationRecords {
            ok := Authorize(i);
            if !ok {
              return;
            }
          }
        }
      }
      return true;
    }

    /** commitPublicationLedgers: validate the ledgers an earlier run committed, or write,
        commit and validate them. The commit may land although it is reported as failed. */
    method CommitPublicationLedgers() returns (ok: bool)
      requires TraceOK(plan, events) && !Done().stopped && AllStaged(plan, Done())
      modifies this`events
      ensures TraceOK(plan, events) && Reported(events) == old(Reported(events))
      ensures ok ==> Done() == old(Done()).(passed := Done().passed, ledger := true) && old(Done()).passed <= Done().passed
      ensures ok ==> LedgersReady(plan, Done())
      ensures !ok ==> EndsInFailure(plan, events)
    {
      if plan.ledgerCommitted {
        ok := Confirm(LedgersValid);
        if !ok {
          return;
        }
      }
      ok := Confirm(RecordsPrepared);
      if !ok {
        return;
      }
      var answer := Found;
      if !plan.ledgerCommitted && NeedsLedgers(plan) {
        answer := *;
      }
      Emit(LedgersRecorded(answer));
      ok := answer.Acknowledged();
      if ok && !plan.ledgerCommitted && NeedsLedgers(plan) {
        ok := Confirm(LedgersValid);
      }
    }

    /** recordDeployment */
    method RecordDeployment(i: nat, native: string)
      requires i < |plan.items| && plan.items[i].planned.action != Noop
      requires deployments == Receipts(plan, i, Done().committed, clock)
      requires native == if plan.items[i].current then plan.items[i].observed.native
                         else if i in Done().committed then Done().committed[i].native else ""
      modifies this`deployments, this`clock
      ensures deployments == Receipts(plan, i + 1, Done().committed, clock)
    {
      var now: int := *;
      var item := plan.items[i];
      ReceiptsFrame(plan, i, Done().committed, clock, Done().committed, clock[i := now]);
      deployments := deployments + [DeploymentRecordFor(item.planned, item.deployment, item.observed, item.signing,
                                                        native, plan.planID, plan.createdAt, now)];
      clock := clock[i := now];
    }

    /** restoreFailedPublication: a gated, conditional restore. The host may put back the old
        revision and still return an error, or find it already there. */
    method RestoreFailedPublication(i: nat, expected: Revision, own: bool) returns (ok: bool)
      requires HasEffect(plan, i) && TraceOK(plan, events) && !Done().stopped && LedgersDone(plan, Done())
      requires ProbeFailed(plan, Done(), i) && Restorable(plan, Done(), i)
      requires if own then Done().below == i + 1 && i in Done().committed && expected == Done().committed[i]
               else plan.items[i].current && expected == plan.items[i].observed
      modifies this`events
      ensures TraceOK(plan, events) && EndsInFailure(plan, events)
      ensures Reported(events) == old(Reported(events)) - if own && ok then 1 else 0
    {
      ok := Authorize(i);
      if ok {
        var answer: Answer, restored: Revision := *, *;
        Emit(Restored(i, expected, restored, own, answer));
        ok := answer.Acknowledged();
      }
    }

    /** applyExecution.restore: compensate a failed probe of what was just committed. */
    method Restore(i: nat, revision: Revision, restorable: bool)
      requires HasEffect(plan, i) && !plan.items[i].current && Valid() && !Done().stopped && LedgersDone(plan, Done())
      requires Done().below == i + 1 && i in Done().committed && Done().committed[i] == revision
      requires ProbeFailed(plan, Done(), i) && restorable == Restorable(plan, Done(), i)
      requires !restorable ==> EndsInFailure(plan, events)
      modifies this`events, this`applied
      ensures Valid() && EndsInFailure(plan, events)
    {
      if !restorable {
        return;
      }
      var restored := RestoreFailedPublication(i, revision, true);
      if restored {
        applied := applied - 1;
      }
    }

    /** Host.Commit: it may commit and still return an error, or find the plan already served. */
    method Commit(i: nat) returns (ok: bool, revision: Revision, restorable: bool)
      requires TraceOK(plan, events) && Going() && Done().below <= i
      requires Touches(plan, events, i) && |events| > 1 && events[|events| - 2] == Checked(Head(i), true)
      requires !plan.items[i].current && forall j: nat | j < i :: Settled(plan, Done(), j)
      modifies this`events
      ensures TraceOK(plan, events) && Reported(events) == old(Reported(events)) + if ok then 1 else 0
      ensures !ok ==> EndsInFailure(plan, events)
      ensures ok ==> Going() && Done().below == i + 1 && KeepsOthers(old(Done()), Done(), i)
      ensures ok ==> CommitIsLast(events, i, revision) && restorable == (i in Done().restorable)
      ensures ok ==> Done().committed == old(Done()).committed[i := revision]
    {
      var answer: Answer;
      answer, revision, restorable := *, *, *;
      Emit(Committed(i, plan.items[i].planned.observed, revision, restorable, answer));
      ok := answer.Acknowledged();
    }

    /** The observation after a commit: the host must be seen to serve what was committed. */
    method Observe(i: nat, revision: Revision, restorable: bool) returns (ok: bool)
      requires HasEffect(plan, i) && !plan.items[i].current && Valid() && Going() && Done().below == i + 1
      requires CommitIsLast(events, i, revision) && restorable == (i in Done().restorable)
      requires i in Done().committed && Done().committed[i] == revision
      modifies this`events, this`applied
      ensures Valid()
      ensures ok ==> i in Done().seen && Done() == old(Done()).(seen := old(Done()).seen[i := Done().seen[i]]) && applied == old(applied)
      ensures ok ==> SeenServed(plan, Done(), i) && LastIs(events, Observed(i, Done().seen[i]))
      ensures !ok ==> EndsInFailure(plan, events)
    {
      var observed: Option<Revision> := *;
      Emit(Observed(i, observed));
      ok := !(observed.None? || observed.value.tree != plan.items[i].planned.desiredTree || observed.value.native != revision.native
              || (i in plan.strict && observed.value != revision));
      if !ok {
        Restore(i, revision, restorable);
      }
    }

    /** The client probe after it. */
    method ProbeClient(i: nat, revision: Revision, restorable: bool) returns (ok: bool)
      requires HasEffect(plan, i) && !plan.items[i].current && Valid() && Going() && Done().below == i + 1
      requires SeenServed(plan, Done(), i) && LastIs(events, Observed(i, Done().seen[i]))
      requires Done().committed[i] == revision && restorable == (i in Done().restorable)
      modifies this`events, this`applied
      ensures Valid()
      ensures ok ==> Done() == old(Done()).(passed := old(Done()).passed + if plan.structuralOnly then {} else {Client(i)})
      ensures ok ==> applied == old(applied)
      ensures !ok ==> EndsInFailure(plan, events)
    {
      ok := true;
      if !plan.structuralOnly {
        ok := *;
        Emit(Checked(Client(i), ok));
        if !ok {
          Restore(i, revision, restorable);
        }
      }
    }

    /** The rest of applyExecution.publish, before the receipt: the host must be seen to serve
        what was committed, and a client must accept it; otherwise the commit is undone. */
    method Probe(i: nat, revision: Revision, restorable: bool) returns (ok: bool)
      requires HasEffect(plan, i) && !plan.items[i].current && Valid() && Going() && Done().below == i + 1
      requires CommitIsLast(events, i, revision) && restorable == (i in Done().restorable)
      requires i in Done().committed && Done().committed[i] == revision
      modifies this`events, this`applied
      ensures Valid()
      ensures ok ==> Going() && Settled(plan, Done(), i) && KeepsOthers(old(Done()), Done(), i)
      ensures ok ==> Done().below == i + 1 && Done().committed == old(Done()).committed && applied == old(applied)
      ensures !ok ==> EndsInFailure(plan, events)
    {
      ghost var before := Done();
      ok := Observe(i, revision, restorable);
      if !ok {
        return;
      }
      ok := ProbeClient(i, revision, restorable);
      if !ok {
        return;
      }
      ok := Confirm(Head(i));
      if ok {
        ProbedIsSettled(plan, before, Done(), i);
      }
    }

    /** What publish makes sure of before its commit. */
    method Approach(i: nat) returns (ok: bool)
      requires HasEffect(plan, i) && TraceOK(plan, events) && !Done().stopped
      modifies this`events
      ensures TraceOK(plan, events) && Reported(events) == old(Reported(events))
      ensures !ok ==> EndsInFailure(plan, events)
      ensures ok ==> Done() == old(Done()).(passed := old(Done()).passed + {Head(i)})
      ensures ok ==> Touches(plan, events, i) && |events| > 1 && events[|events| - 2] == Checked(Head(i), true)
    {
      ok := Confirm(Head(i));
      if ok {
        ok := Authorize(i);
      }
    }

    /** applyExecution.publish up to the commit. */
    method CommitOne(i: nat) returns (ok: bool, revision: Revision, restorable: bool)
      requires i < |plan.items| && !plan.items[i].current && Valid() && Going() && Done().below <= i
      requires forall j: nat | j < i :: Settled(plan, Done(), j)
      modifies this`events, this`applied
      ensures Valid()
      ensures !ok ==> EndsInFailure(plan, events)
      ensures ok ==> Going() && Done().below == i + 1 && KeepsOthers(old(Done()), Done(), i)
      ensures ok ==> CommitIsLast(events, i, revision) && restorable == (i in Done().restorable)
      ensures ok ==> Done().committed == old(Done()).committed[i := revision] && applied == old(applied) + 1
    {
      revision, restorable := *, *;
      ok := Approach(i);
      if !ok {
        return;
      }
      OthersSettled(plan, old(Done()), Done(), i);
      ok, revision, restorable := Commit(i);
      if ok {
        applied := applied + 1;
      }
    }

    /** applyExecution.publish up to the receipt. */
    method Switch(i: nat) returns (ok: bool, revision: Revision)
      requires i < |plan.items| && !plan.items[i].current && Valid() && Going() && Done().below <= i
      requires forall j: nat | j < i :: Settled(plan, Done(), j)
      modifies this`events, this`applied
      ensures Valid()
      ensures ok ==> Going() && Done().below == i + 1 && Done().committed == old(Done()).committed[i := revision]
      ensures ok ==> applied == old(applied) + 1 && forall j: nat | j <= i :: Settled(plan, Done(), j)
      ensures !ok ==> EndsInFailure(plan, events)
    {
      var restorable;
      ok, revision, restorable := CommitOne(i);
      if ok {
        ghost var between := Done();
        ok := Probe(i, revision, restorable);
        if ok {
          StillSettled(plan, old(Done()), between, Done(), i);
        }
      }
    }

    /** applyExecution.publish */
    method Publish(i: nat) returns (ok: bool)
      requires i < |plan.items| && !plan.items[i].current && Valid() && PublishedTo(i)
      modifies this`events, this`applied, this`deployments, this`clock
      ensures Valid()
      ensures if ok then PublishedTo(i + 1) else EndsInFailure(plan, events)
    {
      ghost var before := Done().committed;
      var revision;
      ok, revision := Switch(i);
      if ok {
        ReceiptsFrame(plan, i, before, clock, before[i := revision], clock);
        RecordDeployment(i, revision.native);
      }
    }

    /** The client probe of verifyCurrent, and what follows if it fails. */
    method ProbeCurrent(i: nat) returns (ok: bool)
      requires HasEffect(plan, i) && plan.items[i].current && !plan.structuralOnly && Valid() && Going()
      modifies this`events, this`current
      ensures Valid()
      ensures ok ==> Done() == old(Done()).(passed := old(Done()).passed + {Access(i), Client(i)}) && current == old(current)
      ensures !ok ==> EndsInFailure(plan, events)
    {
      ok := Confirm(Access(i));
      if !ok {
        return;
      }
      ok := *;
      Emit(Checked(Client(i), ok));
      if !ok && plan.items[i].observed.restoreID != "" {
        var restored := RestoreFailedPublication(i, plan.items[i].observed, false);
        if restored {
          current := current - 1;
        }
      }
    }

    /** What verifyCurrent makes sure of. */
    method SettleCurrent(i: nat) returns (ok: bool)
      requires i < |plan.items| && plan.items[i].current && Valid() && Going() && Done().below <= i
      requires forall j: nat | j < i :: Settled(plan, Done(), j)
      modifies this`events, this`current
      ensures Valid()
      ensures ok ==> Going() && Done().below <= i && Done().committed == old(Done()).committed && current == old(current)
      ensures ok ==> forall j: nat | j <= i :: Settled(plan, Done(), j)
      ensures !ok ==> EndsInFailure(plan, events)
    {
      ok := true;
      if !plan.structuralOnly && plan.items[i].planned.action != Noop {
        ok := ProbeCurrent(i);
      }
      if ok {
        StillSettled(plan, old(Done()), old(Done()), Done(), i);
      }
    }

    /** applyExecution.verifyCurrent */
    method VerifyCurrent(i: nat) returns (ok: bool)
      requires i < |plan.items| && plan.items[i].current && Valid() && PublishedTo(i)
      modifies this`events, this`current, this`deployments, this`clock
      ensures Valid()
      ensures if ok then PublishedTo(i + 1) else EndsInFailure(plan, events)
    {
      current := current + 1;
      ok := SettleCurrent(i);
      if ok && plan.items[i].planned.action != Noop {
        RecordDeployment(i, plan.items[i].observed.native);
      }
    }

    /** The loop of publishAndRecord. */
    method PublishAll() returns (ok: bool)
      requires Valid() && PublishedTo(0)
      modifies this`events, this`applied, this`current, this`deployments, this`clock
      ensures Valid()
      ensures if ok then PublishedTo(|plan.items|) else EndsInFailure(plan, events)
    {
      for i := 0 to |plan.items|
        invariant Valid() && PublishedTo(i)
      {
        if plan.items[i].current {
          ok := VerifyCurrent(i);
        } else {
          ok := Publish(i);
        }
        if !ok {
          return;
        }
      }
      return true;
    }

    /** publishAndRecord. The commit of the receipts may land although it is reported as failed. */
    method PublishAndRecord() returns (ok: bool)
      requires Valid() && !Done().stopped && Done().failed == {} && Done().below == 0 && deployments == [] && current == 0
      requires LedgersReady(plan, Done()) && Reported(events) == 0
      modifies this`events, this`applied, this`current, this`deployments, this`clock
      ensures Valid()
      ensures if ok then Succeeded() else EndsInFailure(plan, events)
    {
      ok := Confirm(Locked);
      if ok {
        ok := PublishAll();
      }
      if ok {
        ok := RecordAll();
      }
    }

    /** The last step of publishAndRecord. */
    method RecordAll() returns (ok: bool)
      requires Valid() && PublishedTo(|plan.items|)
      modifies this`events
      ensures Valid()
      ensures if ok then Succeeded() else EndsInFailure(plan, events)
    {
      var answer: Answer := *;
      assert AllReceipts(plan, Done().committed, deployments);
      Emit(ReceiptsCommitted(deployments, answer));
      ok := answer.Acknowledged();
      assert forall i: nat | i < |plan.items| :: Settled(plan, old(Done()), i);
      forall i: nat | HasEffect(plan, i) ensures Probed(plan, events, i) {
        assert Settled(plan, old(Done()), i);
        SettledMeansProbed(plan, events, i);
      }
    }

    /** Every outdated repository is published and counted, each repository with an effect was
        probed, and the receipts, which were committed last, are those of the plan. */
    ghost predicate Succeeded()
      reads this`events, this`applied, this`current, this`deployments, this`clock
    {
      && applied == Outdated(|plan.items|) && current == |plan.items| - applied
      && |events| > 0 && events[|events| - 1].ReceiptsCommitted? && events[|events| - 1].answer.Acknowledged()
      && events[|events| - 1].records == deployments == Receipts(plan, |plan.items|, Done().committed, clock)
      && forall i: nat | HasEffect(plan, i) :: Probed(plan, events, i)
    }

    /** ApplyWorkspace after preparation. The run succeeds exactly if it does not end in a failure.
        On every path the reported number is the acknowledged commits minus the acknowledged
        restores of them; how that differs from what the host did is ApplyTrace.ReportedIsOffBy.
        A dry run that succeeds reports what it would publish instead, and touches no host. */
    method Apply() returns (ok: bool, published: int, kept: int)
      requires Prepared() && events == [] && applied == 0 && current == 0 && deployments == []
      modifies this
      ensures TraceOK(plan, events)
      ensures ok <==> !EndsInFailure(plan, events)
      ensures ok ==> published == Outdated(|plan.items|) && kept == |plan.items| - published
      ensures !ok || !dryRun ==> published == Reported(events)
      ensures dryRun ==> forall e | e in events :: e.Asked?
      ensures ok && !dryRun ==> Succeeded()
    {
      for i := 0 to |plan.items|
        invariant TraceOK(plan, events) && Done() == NOTHING && Reported(events) == 0
        invariant applied == 0 && current == 0 && deployments == [] && !EndsInFailure(plan, events)
        invariant forall e | e in events :: e.Asked?
      {
        ok := Authorize(i);
        if !ok {
          return false, 0, 0;
        }
      }
      if dryRun {
        var would := 0;
        for i := 0 to |plan.items|
          invariant would == Outdated(i)
        {
          if !plan.items[i].current {
            would := would + 1;
          }
        }
        return true, would, |plan.items| - would;
      }
      ok := StageOnHosts();
      if !ok {
        return false, 0, 0;
      }
      ok := AuthorizeLedgers();
      if !ok {
        return false, 0, 0;
      }
      ok := CommitPublicationLedgers();
      if !ok {
        return false, 0, 0;
      }
      ok := PublishAndRecord();
      published, kept := applied, current;
    }
  }
}
