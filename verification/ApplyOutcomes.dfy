/** What an apply run, cut off anywhere, leaves behind for each repository. This ties the
    traces of ApplyRun to the outcomes Preparation reasons about, so that committing at most
    once over any number of retries is a fact about apply itself. */
module ApplyOutcomes {
  import opened Wrappers
  import opened HexDigest
  import opened Records
  import opened Preparation
  import opened ApplyTrace

  /** The effect of one event on the i-th repository. */
  function Replay1(plan: Plan, i: nat, site: Site, e: Event): Site
    requires i < |plan.items|
  {
    match e
    case LedgersRecorded(answer) => site.(ledger := site.ledger || answer != Failed)
    case Committed(j, _, revision, _, answer) =>
      if j == i && answer.Effective() then site.(live := revision, commits := site.commits + 1) else site
    case Restored(j, _, restored, _, answer) =>
      if j == i && answer.Effective() then site.(live := restored, restores := site.restores + 1) else site
    case ReceiptsCommitted(records, answer) =>
      var k := |NamesWithEffect(plan.items, i)|;
      if answer != Failed && plan.items[i].planned.action != Noop && k < |records| then site.(receipt := records[k]) else site
    case _ => site
  }

  /** The i-th repository after these events. */
  function Replay(plan: Plan, i: nat, site: Site, events: seq<Event>): Site
    requires i < |plan.items|
  {
    if events == [] then site
    else Replay1(plan, i, Replay(plan, i, site, events[..|events| - 1]), events[|events| - 1])
  }

  /** What the host owes one event: a commit serves the plan, a restore puts back what the
      commit displaced; and with no other actor no commit is found already there. */
  predicate HostKeepsWord1(plan: Plan, i: nat, e: Event)
    requires i < |plan.items|
  {
    && (e.Committed? && e.index == i ==> e.answer != Found && Serves(plan.items[i].planned, plan.planID, e.revision))
    && (e.Restored? && e.index == i && e.answer.Effective() ==> Restores(plan.items[i].planned, e.expected, e.restored))
  }

  predicate HostKeepsWord(plan: Plan, i: nat, events: seq<Event>)
    requires i < |plan.items|
  {
    forall k | 0 <= k < |events| :: HostKeepsWord1(plan, i, events[k])
  }

  /** The i-th item of the plan is what preparation made of this repository. */
  predicate PreparedAs(plan: Plan, i: nat, site: Site, facts: Facts) {
    && i < |plan.items| && facts.WellFormed() && facts.matchesPlan && facts.ledgerCommitted == site.ledger
    && PrepareRepository(plan.items[i].planned, plan.planID, site.receipt, site.live, facts) == Ok(plan.items[i])
  }

  /** The outcome of a run that may still go on. */
  function Pending(s: Summary, i: nat): Outcome {
    if i in s.committed then CutOffAfterCommit(s.committed[i]) else StopsBeforePublication(s.ledger)
  }

  /** This outcome is possible and leaves the repository like this. */
  ghost predicate Leaves(plan: Plan, i: nat, site: Site, facts: Facts, outcome: Outcome, after: Site)
    requires PreparedAs(plan, i, site, facts)
  {
    var planned := plan.items[i].planned;
    && Possible(planned, plan.planID, site, facts, outcome)
    && after == After(planned, plan.planID, site, facts, plan.createdAt, outcome)
  }

  lemma {:induction false} StartLeaves(plan: Plan, i: nat, site: Site, facts: Facts)
    requires PreparedAs(plan, i, site, facts)
    ensures Leaves(plan, i, site, facts, StopsBeforePublication(false), site)
  {
  }

  lemma {:induction false} LedgerLeaves(plan: Plan, i: nat, site: Site, facts: Facts, s: Summary, after: Site)
    requires PreparedAs(plan, i, site, facts) && Leaves(plan, i, site, facts, Pending(s, i), after)
    ensures Leaves(plan, i, site, facts, Pending(s.(ledger := true), i), after.(ledger := true))
  {
  }

  /** An effective commit of an outdated repository. */
  lemma {:induction false} CommitLeaves(plan: Plan, i: nat, site: Site, facts: Facts, after: Site, revision: Revision)
    requires PreparedAs(plan, i, site, facts) && !plan.items[i].current
    requires Leaves(plan, i, site, facts, StopsBeforePublication(true), after)
    requires Serves(plan.items[i].planned, plan.planID, revision)
    ensures Leaves(plan, i, site, facts, CutOffAfterCommit(revision), after.(live := revision, commits := after.commits + 1))
  {
  }

  /** A restore of this run's commit, or of what was found current. */
  lemma {:induction false} RestoreLeaves(plan: Plan, i: nat, site: Site, facts: Facts, after: Site, committed: Revision, restored: Revision)
    requires PreparedAs(plan, i, site, facts) && Restores(plan.items[i].planned, committed, restored)
    requires if plan.items[i].current then
               committed == plan.items[i].observed && committed.restoreID != ""
               && Leaves(plan, i, site, facts, StopsBeforePublication(true), after)
             else Leaves(plan, i, site, facts, CutOffAfterCommit(committed), after)
    ensures Leaves(plan, i, site, facts, ProbeFails(committed, restored), after.(live := restored, restores := after.restores + 1))
  {
  }

  /** The receipt of a repository that was committed, or found current. */
  lemma {:induction false} ReceiptLeaves(
    plan: Plan, i: nat, site: Site, facts: Facts, after: Site, committed: map<nat, Revision>, clock: map<nat, int>)
    returns (outcome: Outcome)
    requires PreparedAs(plan, i, site, facts)
    requires if plan.items[i].current then Leaves(plan, i, site, facts, StopsBeforePublication(true), after)
             else i in committed && Leaves(plan, i, site, facts, CutOffAfterCommit(committed[i]), after)
    ensures Leaves(plan, i, site, facts, outcome, after.(receipt := ReceiptAt(plan, i, committed, clock)))
  {
    outcome := Completes(if plan.items[i].current then site.live else committed[i], if i in clock then clock[i] else 0);
  }

  /** Other repositories' events change nothing, nor do this one's without an effect. */
  lemma {:induction false} OtherEvent(plan: Plan, i: nat, site: Site, s: Summary, e: Event)
    requires i < |plan.items|
    requires e.Asked? || e.Checked? || e.Staged? || e.Observed? || ((e.Committed? || e.Restored?) && (e.index != i || !e.answer.Effective()))
    ensures Replay1(plan, i, site, e) == site
    ensures e.Committed? ==> e.index == i || Pending(Extend(s, e), i) == Pending(s, i)
  {
  }

  /** A position below the bound stays as it is; one at or above it is not committed yet. */
  lemma {:induction false} NotYetCommitted(plan: Plan, events: seq<Event>, i: nat)
    requires TraceOK(plan, events) && Summarize(events).below <= i
    ensures i !in Summarize(events).committed
  {
    SummaryBelow(plan, events);
  }

  /** Only outdated repositories are committed. */
  lemma {:induction false} CommittedWasOutdated(plan: Plan, events: seq<Event>, i: nat)
    requires TraceOK(plan, events) && i in Summarize(events).committed
    ensures i < |plan.items| && !plan.items[i].current
  {
    if events != [] {
      var n := |events| - 1;
      if i in Summarize(events[..n]).committed {
        CommittedWasOutdated(plan, events[..n], i);
      }
    }
  }

  /** One event more. */
  lemma {:induction false} NextLeaves(plan: Plan, i: nat, site: Site, facts: Facts, events: seq<Event>, e: Event, after: Site)
    returns (outcome: Outcome)
    requires PreparedAs(plan, i, site, facts) && TraceOK(plan, events) && Admissible(plan, events, e)
    requires Leaves(plan, i, site, facts, Pending(Summarize(events), i), after) && HostKeepsWord1(plan, i, e)
    ensures Leaves(plan, i, site, facts, outcome, Replay1(plan, i, after, e))
    ensures !Extend(Summarize(events), e).stopped ==> outcome == Pending(Extend(Summarize(events), e), i)
  {
    var s := Summarize(events);
    outcome := Pending(s, i);
    match e
    case LedgersRecorded(answer) =>
      if answer != Failed {
        LedgerLeaves(plan, i, site, facts, s, after);
        outcome := Pending(Extend(s, e), i);
      }
    case Committed(j, _, revision, _, answer) =>
      if j == i && answer != Failed {
        NotYetCommitted(plan, events, i);
        CommitLeaves(plan, i, site, facts, after, revision);
        outcome := CutOffAfterCommit(revision);
      } else {
        OtherEvent(plan, i, after, s, e);
      }
    case Restored(j, expected, restored, own, answer) =>
      if j == i && answer.Effective() {
        outcome := RestoredLeaves(plan, i, site, facts, events, e, after);
      } else {
        OtherEvent(plan, i, after, s, e);
      }
    case ReceiptsCommitted(records, answer) =>
      if answer != Failed && plan.items[i].planned.action != Noop {
        outcome := RecordedLeaves(plan, i, site, facts, events, records, answer, after);
      }
    case _ =>
      OtherEvent(plan, i, after, s, e);
  }

  lemma {:induction false} RestoredLeaves(plan: Plan, i: nat, site: Site, facts: Facts, events: seq<Event>, e: Event, after: Site)
    returns (outcome: Outcome)
    requires PreparedAs(plan, i, site, facts) && TraceOK(plan, events) && Admissible(plan, events, e)
    requires Leaves(plan, i, site, facts, Pending(Summarize(events), i), after) && HostKeepsWord1(plan, i, e)
    requires e.Restored? && e.index == i && e.answer.Effective()
    ensures Leaves(plan, i, site, facts, outcome, Replay1(plan, i, after, e))
  {
    outcome := ProbeFails(e.expected, e.restored);
    if i in Summarize(events).committed {
      CommittedWasOutdated(plan, events, i);
    }
    RestoreLeaves(plan, i, site, facts, after, e.expected, e.restored);
  }

  lemma {:induction false} RecordedLeaves(
    plan: Plan, i: nat, site: Site, facts: Facts, events: seq<Event>, records: seq<DeploymentRecord>, answer: Answer, after: Site)
    returns (outcome: Outcome)
    requires PreparedAs(plan, i, site, facts) && TraceOK(plan, events) && Admissible(plan, events, ReceiptsCommitted(records, answer)) && answer != Failed
    requires Leaves(plan, i, site, facts, Pending(Summarize(events), i), after) && plan.items[i].planned.action != Noop
    ensures Leaves(plan, i, site, facts, outcome, Replay1(plan, i, after, ReceiptsCommitted(records, answer)))
  {
    var s := Summarize(events);
    var clock: map<nat, int> :| records == Receipts(plan, |plan.items|, s.committed, clock);
    ReceiptsHold(plan, |plan.items|, s.committed, clock, i);
    assert Settled(plan, s, i);
    if i in s.committed {
      CommittedWasOutdated(plan, events, i);
    }
    outcome := ReceiptLeaves(plan, i, site, facts, after, s.committed, clock);
  }

  /** Every run, cut off anywhere, leaves each repository as one of the outcomes does. */
  lemma {:induction false} TraceHasOutcome(plan: Plan, i: nat, site: Site, facts: Facts, events: seq<Event>) returns (outcome: Outcome)
    requires PreparedAs(plan, i, site, facts) && TraceOK(plan, events) && HostKeepsWord(plan, i, events)
    ensures Leaves(plan, i, site, facts, outcome, Replay(plan, i, site, events))
    ensures !Summarize(events).stopped ==> outcome == Pending(Summarize(events), i)
    decreases |events|
  {
    if events == [] {
      outcome := StopsBeforePublication(false);
      StartLeaves(plan, i, site, facts);
    } else {
      var n := |events| - 1;
      var before := TraceHasOutcome(plan, i, site, facts, events[..n]);
      assert HostKeepsWord1(plan, i, events[n]);
      outcome := NextLeaves(plan, i, site, facts, events[..n], events[n], Replay(plan, i, site, events[..n]));
    }
  }

  /** What a repository is planned as after a run: the desired tree, manifest and signing state are
      those the run had, and the ledger lacks nothing. */
  function Replanned(item: Item, site: Site): PlanRepository {
    PlanRepositoryFor(item.planned.name, item.planned.desiredTree, item.planned.desiredManifest, item.planned.managedRemote,
                      site.live, site.receipt, false, item.signing)
  }

  /** What is live before the receipts is what they name. */
  lemma {:induction false} LiveIsRecorded(plan: Plan, i: nat, site: Site, facts: Facts, events: seq<Event>)
    requires PreparedAs(plan, i, site, facts) && TraceOK(plan, events) && HostKeepsWord(plan, i, events)
    requires !Summarize(events).stopped && HasEffect(plan, i) && Settled(plan, Summarize(events), i)
    ensures var live := Replay(plan, i, site, events).live;
            if plan.items[i].current then live == plan.items[i].observed
            else i in Summarize(events).committed && live == Summarize(events).committed[i] && Serves(plan.items[i].planned, plan.planID, live)
  {
    var outcome := TraceHasOutcome(plan, i, site, facts, events);
    if i in Summarize(events).committed {
      CommittedWasOutdated(plan, events, i);
    }
  }

  /** Plan and apply converge: where a run of apply wrote its receipts, planning the same again
      changes nothing. */
  lemma {:induction false} ApplyConverges(
    plan: Plan, i: nat, site: Site, facts: Facts, events: seq<Event>, records: seq<DeploymentRecord>, answer: Answer)
    requires PreparedAs(plan, i, site, facts) && HasEffect(plan, i) && HostKeepsWord(plan, i, events)
    requires TraceOK(plan, events) && Admissible(plan, events, ReceiptsCommitted(records, answer)) && answer != Failed
    requires ValidDigest(plan.items[i].planned.desiredTree)
    ensures var after := Replay1(plan, i, Replay(plan, i, site, events), ReceiptsCommitted(records, answer));
            after.live.native != "" ==> Replanned(plan.items[i], after).action == Noop
  {
    var s := Summarize(events);
    assert Settled(plan, s, i);
    LiveIsRecorded(plan, i, site, facts, events);
    var clock: map<nat, int> :| records == Receipts(plan, |plan.items|, s.committed, clock);
    ReceiptsHold(plan, |plan.items|, s.committed, clock, i);
  }

  // ----- any number of runs -----

  /** A run of apply: what it prepared, what it read, and what it did before it ended. */
  datatype Attempt = Attempt(plan: Plan, facts: Facts, events: seq<Event>)

  /** The attempts are runs of one plan, one after the other, with no other actor. `i` is the
      repository's position in the plan. */
  ghost predicate Attempts(planned: PlanRepository, planID: string, i: nat, site: Site, attempts: seq<Attempt>)
    decreases |attempts|
  {
    attempts == [] ||
    var a := attempts[0];
    && PreparedAs(a.plan, i, site, a.facts) && a.plan.items[i].planned == planned && a.plan.planID == planID
    && TraceOK(a.plan, a.events) && HostKeepsWord(a.plan, i, a.events)
    && Attempts(planned, planID, i, Replay(a.plan, i, site, a.events), attempts[1..])
  }

  ghost function ReplayAll(planned: PlanRepository, planID: string, i: nat, site: Site, attempts: seq<Attempt>): Site
    requires Attempts(planned, planID, i, site, attempts)
    decreases |attempts|
  {
    if attempts == [] then site
    else ReplayAll(planned, planID, i, Replay(attempts[0].plan, i, site, attempts[0].events), attempts[1..])
  }

  /** A run keeps at most one commit of its plan, and commits only where none stands. */
  lemma {:induction false} ApplyCommitsOnce(plan: Plan, i: nat, site: Site, facts: Facts, events: seq<Event>)
    requires PreparedAs(plan, i, site, facts) && TraceOK(plan, events) && HostKeepsWord(plan, i, events)
    requires NewPlan(plan.items[i].planned, plan.planID) && OneCommit(plan.items[i].planned, plan.planID, site)
    ensures var after := Replay(plan, i, site, events);
            && OneCommit(plan.items[i].planned, plan.planID, after)
            && (after.commits > site.commits ==> site.commits == site.restores && site.live == plan.items[i].planned.observed)
  {
    var outcome := TraceHasOutcome(plan, i, site, facts, events);
    RunCommitsOnce(plan.items[i].planned, plan.planID, site, plan.createdAt, Run(facts, outcome));
  }

  /** However often a plan is applied and wherever each run is cut off, no repository holds
      two commits of it. */
  lemma {:induction false} AppliesCommitOnce(planned: PlanRepository, planID: string, i: nat, site: Site, attempts: seq<Attempt>)
    requires Attempts(planned, planID, i, site, attempts) && NewPlan(planned, planID) && OneCommit(planned, planID, site)
    ensures OneCommit(planned, planID, ReplayAll(planned, planID, i, site, attempts))
    decreases |attempts|
  {
    if attempts != [] {
      var a := attempts[0];
      ApplyCommitsOnce(a.plan, i, site, a.facts, a.events);
      AppliesCommitOnce(planned, planID, i, Replay(a.plan, i, site, a.events), attempts[1..]);
    }
  }
}
