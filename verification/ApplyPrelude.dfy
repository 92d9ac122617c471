/** The events of an apply run up to its first commit, where everything goes well: it can come to
    that commit from every prepared plan (engine/workspace.go). */
module ApplyPrelude {
  import opened ApplyTrace
  import opened Records

  /** The gates of the first n repositories are asked. */
  function Gates(plan: Plan, n: nat): seq<Event>
    requires n <= |plan.items|
  {
    if n == 0 then [] else Gates(plan, n - 1) + if HasEffect(plan, n - 1) then [Authorized(n - 1)] else []
  }

  /** One outdated repository is staged: its files are read, its gate is asked again, and a
      client accepts what was staged. */
  function Stage(plan: Plan, i: nat): seq<Event> {
    Bring(i) + if plan.structuralOnly then [] else [Checked(StageClient(i), true)]
  }

  function Bring(i: nat): seq<Event> { [Checked(Files(i), true), Authorized(i), Staged(i, true)] }

  function StageAt(plan: Plan, i: nat): seq<Event>
    requires i < |plan.items|
  {
    if plan.items[i].current then [] else Stage(plan, i)
  }

  /** These events, and the first n repositories staged. */
  function Stages(plan: Plan, events: seq<Event>, n: nat): seq<Event>
    requires n <= |plan.items|
  {
    if n == 0 then events else Stages(plan, events, n - 1) + StageAt(plan, n - 1)
  }

  function LedgerGateAt(plan: Plan, i: nat): seq<Event>
    requires i < |plan.items|
  {
    if plan.items[i].planned.publicationRecords && HasEffect(plan, i) && !plan.ledgerCommitted then [Authorized(i)] else []
  }

  /** These events, and the gates of those that are to be recorded, before the ledgers. */
  function LedgerGates(plan: Plan, events: seq<Event>, n: nat): seq<Event>
    requires n <= |plan.items|
  {
    if n == 0 then events else LedgerGates(plan, events, n - 1) + LedgerGateAt(plan, n - 1)
  }

  /** The ledgers an earlier run committed are validated, or they are committed and validated. */
  function Ledgers(plan: Plan): seq<Event> {
    if plan.ledgerCommitted then [Checked(LedgersValid, true), Checked(RecordsPrepared, true), LedgersRecorded(Found)]
    else if NeedsLedgers(plan) then [Checked(RecordsPrepared, true), LedgersRecorded(Confirmed), Checked(LedgersValid, true)]
    else [Checked(RecordsPrepared, true), LedgersRecorded(Found)]
  }

  /** These events, and the current repositories among the first n probed. */
  function Probes(plan: Plan, events: seq<Event>, n: nat): seq<Event>
    requires n <= |plan.items|
  {
    if n == 0 then events else Probes(plan, events, n - 1) + ProbeAt(plan, n - 1)
  }

  function ProbeAt(plan: Plan, i: nat): seq<Event> {
    if HasEffect(plan, i) && !plan.structuralOnly then [Checked(Access(i), true), Checked(Client(i), true)] else []
  }

  /** The phases of apply up to the commit of its first outdated repository i. */
  function Prelude(plan: Plan, i: nat): seq<Event>
    requires i < |plan.items|
  {
    var n := |plan.items|;
    var staged := LedgerGates(plan, Stages(plan, Gates(plan, n), n), n);
    Probes(plan, staged + Ledgers(plan) + [Checked(Locked, true)], i) + [Checked(Head(i), true), Authorized(i)]
  }

  /** A trace that has committed nothing yet. */
  ghost predicate Quiet(plan: Plan, events: seq<Event>) {
    var s := Summarize(events);
    && TraceOK(plan, events) && !s.stopped && s.failed == {} && s.below == 0 && s.committed == map[]
    && Reported(events) == 0 && Balance(events) == 0
  }

  predicate Silent(e: Event) { e.Asked? || e.Checked? || e.Staged? || e.LedgersRecorded? }

  /** More is known after than before. */
  predicate Grows(s: Summary, t: Summary) { s.passed <= t.passed && s.staged <= t.staged && (s.ledger ==> t.ledger) }

  lemma {:induction false} QuietNext(plan: Plan, events: seq<Event>, e: Event)
    requires Quiet(plan, events) && Silent(e) && !Ends(e) && (e.Checked? ==> e.ok) && Admissible(plan, events, e)
    ensures Quiet(plan, events + [e]) && Grows(Summarize(events), Summarize(events + [e]))
    ensures Summarize(events + [e]) == Extend(Summarize(events), e) && LastIs(events + [e], e)
  {
    Append(plan, events, e);
    CountAppend(events, e);
  }

  lemma {:induction false} QuietGates(plan: Plan, n: nat)
    requires n <= |plan.items|
    ensures Quiet(plan, Gates(plan, n))
  {
    if n > 0 {
      QuietGates(plan, n - 1);
      if HasEffect(plan, n - 1) {
        QuietNext(plan, Gates(plan, n - 1), Authorized(n - 1));
      } else {
        assert Gates(plan, n - 1) + [] == Gates(plan, n - 1);
      }
    }
  }

  lemma {:induction false} QuietBring(plan: Plan, events: seq<Event>, i: nat)
    requires HasEffect(plan, i) && !plan.items[i].current && Quiet(plan, events)
    ensures Quiet(plan, events + Bring(i)) && Grows(Summarize(events), Summarize(events + Bring(i)))
    ensures i in Summarize(events + Bring(i)).staged
  {
    QuietNext(plan, events, Checked(Files(i), true));
    var one := events + [Checked(Files(i), true)];
    QuietNext(plan, one, Authorized(i));
    var two := one + [Authorized(i)];
    QuietNext(plan, two, Staged(i, true));
    assert two + [Staged(i, true)] == events + Bring(i);
  }

  lemma {:induction false} QuietStage(plan: Plan, events: seq<Event>, i: nat)
    requires HasEffect(plan, i) && !plan.items[i].current && Quiet(plan, events)
    ensures Quiet(plan, events + Stage(plan, i)) && Grows(Summarize(events), Summarize(events + Stage(plan, i)))
    ensures StagedWell(plan, Summarize(events + Stage(plan, i)), i)
  {
    QuietBring(plan, events, i);
    var brought := events + Bring(i);
    if plan.structuralOnly {
      assert brought == events + Stage(plan, i);
    } else {
      QuietNext(plan, brought, Checked(StageClient(i), true));
      assert brought + [Checked(StageClient(i), true)] == events + Stage(plan, i);
    }
  }

  /** Nothing committed yet, and the first n staged. */
  ghost predicate QuietAndStaged(plan: Plan, events: seq<Event>, n: nat)
    requires n <= |plan.items|
  {
    Quiet(plan, events) && StagedTo(plan, Summarize(events), n)
  }

  lemma {:induction false} QuietNextStage(plan: Plan, events: seq<Event>, i: nat)
    requires NoopsAreCurrent(plan) && i < |plan.items| && QuietAndStaged(plan, events, i)
    ensures QuietAndStaged(plan, events + StageAt(plan, i), i + 1)
  {
    if plan.items[i].current {
      assert events + [] == events;
    } else {
      QuietStage(plan, events, i);
    }
  }

  lemma {:induction false} QuietStages(plan: Plan, events: seq<Event>, n: nat)
    requires NoopsAreCurrent(plan) && n <= |plan.items| && Quiet(plan, events)
    ensures QuietAndStaged(plan, Stages(plan, events, n), n)
  {
    if n > 0 {
      QuietStages(plan, events, n - 1);
      QuietNextStage(plan, Stages(plan, events, n - 1), n - 1);
    }
  }

  lemma {:induction false} QuietLedgerGate(plan: Plan, events: seq<Event>, i: nat)
    requires i < |plan.items| && Quiet(plan, events)
    ensures Quiet(plan, events + LedgerGateAt(plan, i)) && Grows(Summarize(events), Summarize(events + LedgerGateAt(plan, i)))
  {
    if LedgerGateAt(plan, i) == [] {
      assert events + [] == events;
    } else {
      QuietNext(plan, events, Authorized(i));
    }
  }

  lemma {:induction false} QuietLedgerGates(plan: Plan, events: seq<Event>, n: nat)
    requires n <= |plan.items| && Quiet(plan, events)
    ensures Quiet(plan, LedgerGates(plan, events, n)) && Grows(Summarize(events), Summarize(LedgerGates(plan, events, n)))
  {
    if n > 0 {
      QuietLedgerGates(plan, events, n - 1);
      QuietLedgerGate(plan, LedgerGates(plan, events, n - 1), n - 1);
    }
  }

  lemma {:induction false} QuietThree(plan: Plan, events: seq<Event>, a: Event, b: Event, c: Event)
    requires Quiet(plan, events) && Silent(a) && Silent(b) && Silent(c) && !Ends(a) && !Ends(b) && !Ends(c)
    requires (a.Checked? ==> a.ok) && (b.Checked? ==> b.ok) && (c.Checked? ==> c.ok)
    requires Admissible(plan, events, a) && Admissible(plan, events + [a], b) && Admissible(plan, events + [a] + [b], c)
    ensures Quiet(plan, events + [a, b, c])
    ensures Summarize(events + [a, b, c]) == Extend(Extend(Extend(Summarize(events), a), b), c)
  {
    QuietNext(plan, events, a);
    QuietNext(plan, events + [a], b);
    QuietNext(plan, events + [a] + [b], c);
    assert events + [a] + [b] + [c] == events + [a, b, c];
  }

  lemma {:induction false} QuietCommittedLedgers(plan: Plan, events: seq<Event>)
    requires Quiet(plan, events) && AllStaged(plan, Summarize(events)) && plan.ledgerCommitted
    ensures Quiet(plan, events + Ledgers(plan)) && LedgersReady(plan, Summarize(events + Ledgers(plan)))
  {
    var prepared, valid := Checked(RecordsPrepared, true), Checked(LedgersValid, true);
    QuietNext(plan, events, valid);
    QuietNext(plan, events + [valid], prepared);
    QuietThree(plan, events, valid, prepared, LedgersRecorded(Found));
  }

  lemma {:induction false} QuietNewLedgers(plan: Plan, events: seq<Event>)
    requires Quiet(plan, events) && AllStaged(plan, Summarize(events)) && !plan.ledgerCommitted && NeedsLedgers(plan)
    ensures Quiet(plan, events + Ledgers(plan)) && LedgersReady(plan, Summarize(events + Ledgers(plan)))
  {
    var prepared, valid := Checked(RecordsPrepared, true), Checked(LedgersValid, true);
    QuietNext(plan, events, prepared);
    QuietNext(plan, events + [prepared], LedgersRecorded(Confirmed));
    QuietThree(plan, events, prepared, LedgersRecorded(Confirmed), valid);
  }

  lemma {:induction false} QuietNoLedgers(plan: Plan, events: seq<Event>)
    requires Quiet(plan, events) && AllStaged(plan, Summarize(events)) && !plan.ledgerCommitted && !NeedsLedgers(plan)
    ensures Quiet(plan, events + Ledgers(plan)) && LedgersReady(plan, Summarize(events + Ledgers(plan)))
  {
    var prepared := Checked(RecordsPrepared, true);
    QuietNext(plan, events, prepared);
    QuietNext(plan, events + [prepared], LedgersRecorded(Found));
    assert events + [prepared] + [LedgersRecorded(Found)] == events + Ledgers(plan);
  }

  lemma {:induction false} QuietLedgers(plan: Plan, events: seq<Event>)
    requires Quiet(plan, events) && AllStaged(plan, Summarize(events))
    ensures Quiet(plan, events + Ledgers(plan) + [Checked(Locked, true)])
    ensures LedgersDone(plan, Summarize(events + Ledgers(plan) + [Checked(Locked, true)]))
  {
    if plan.ledgerCommitted {
      QuietCommittedLedgers(plan, events);
    } else if NeedsLedgers(plan) {
      QuietNewLedgers(plan, events);
    } else {
      QuietNoLedgers(plan, events);
    }
    QuietNext(plan, events + Ledgers(plan), Checked(Locked, true));
  }

  predicate ProbedTo(plan: Plan, s: Summary, n: nat)
    requires n <= |plan.items|
  {
    plan.structuralOnly || forall i: nat | i < n && HasEffect(plan, i) :: Client(i) in s.passed
  }

  /** Nothing committed yet, the first n probed, and what was known before is still known. */
  ghost predicate QuietAndProbed(plan: Plan, start: Summary, events: seq<Event>, n: nat)
    requires n <= |plan.items|
  {
    Quiet(plan, events) && Grows(start, Summarize(events)) && ProbedTo(plan, Summarize(events), n)
  }

  lemma {:induction false} QuietProbe(plan: Plan, start: Summary, events: seq<Event>, i: nat)
    requires i < |plan.items| && plan.items[i].current && QuietAndProbed(plan, start, events, i)
    ensures QuietAndProbed(plan, start, events + ProbeAt(plan, i), i + 1)
  {
    if HasEffect(plan, i) && !plan.structuralOnly {
      QuietNext(plan, events, Checked(Access(i), true));
      var one := events + [Checked(Access(i), true)];
      QuietNext(plan, one, Checked(Client(i), true));
      assert one + [Checked(Client(i), true)] == events + ProbeAt(plan, i);
    } else {
      assert events + [] == events;
    }
  }

  lemma {:induction false} QuietProbes(plan: Plan, events: seq<Event>, n: nat)
    requires n <= |plan.items| && Quiet(plan, events) && forall j | 0 <= j < n :: plan.items[j].current
    ensures QuietAndProbed(plan, Summarize(events), Probes(plan, events, n), n)
  {
    if n > 0 {
      QuietProbes(plan, events, n - 1);
      QuietProbe(plan, Summarize(events), Probes(plan, events, n - 1), n - 1);
    }
  }

  lemma {:induction false} QuietPrelude(plan: Plan, i: nat) returns (quiet: seq<Event>)
    requires NoopsAreCurrent(plan) && i < |plan.items| && forall j | 0 <= j < i :: plan.items[j].current
    ensures Prelude(plan, i) == quiet + [Checked(Head(i), true), Authorized(i)]
    ensures Quiet(plan, quiet) && LedgersDone(plan, Summarize(quiet)) && ProbedTo(plan, Summarize(quiet), i)
  {
    var n := |plan.items|;
    QuietGates(plan, n);
    QuietStages(plan, Gates(plan, n), n);
    QuietLedgerGates(plan, Stages(plan, Gates(plan, n), n), n);
    var staged := LedgerGates(plan, Stages(plan, Gates(plan, n), n), n);
    assert AllStaged(plan, Summarize(staged));
    QuietLedgers(plan, staged);
    QuietProbes(plan, staged + Ledgers(plan) + [Checked(Locked, true)], i);
    quiet := Probes(plan, staged + Ledgers(plan) + [Checked(Locked, true)], i);
  }

  /** Through all the phases of apply a plan comes to the commit of its first outdated
      repository, which the host may answer as it likes. */
  lemma {:induction false} CommitCanComeNext(plan: Plan, i: nat, revision: Revision, restorable: bool, answer: Answer)
    requires NoopsAreCurrent(plan) && i < |plan.items| && !plan.items[i].current
    requires forall j | 0 <= j < i :: plan.items[j].current
    ensures TraceOK(plan, Prelude(plan, i)) && Reported(Prelude(plan, i)) == Balance(Prelude(plan, i)) == 0
    ensures Admissible(plan, Prelude(plan, i), Committed(i, plan.items[i].planned.observed, revision, restorable, answer))
  {
    var quiet := QuietPrelude(plan, i);
    QuietNext(plan, quiet, Checked(Head(i), true));
    var one := quiet + [Checked(Head(i), true)];
    QuietNext(plan, one, Authorized(i));
    assert one + [Authorized(i)] == Prelude(plan, i);
    var s := Summarize(Prelude(plan, i));
    forall j: nat | j < i ensures Settled(plan, s, j) {
      assert HasEffect(plan, j) || plan.items[j].planned.action == Noop;
    }
  }
}
