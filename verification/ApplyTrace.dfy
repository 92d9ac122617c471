/** The effects of one apply run, in order, with the answers that led to them, and what every
    run promises about them (ApplyWorkspace, stageOnHosts, commitPublicationLedgers and
    publishAndRecord in engine/workspace.go). */
module ApplyTrace {
  import opened Wrappers
  import opened Records
  import opened Preparation

  /** The repositories of a plan as apply prepared them, and how it is applied. `strict` holds
      the positions on S3, where what is observed must be the committed revision in every
      field. */
  datatype Plan = Plan(items: seq<Item>, planID: string, createdAt: int, structuralOnly: bool, ledgerCommitted: bool, strict: set<nat>)

  /** How a call went: it took effect and said so; it took effect and returned an error; it
      returned success because what was asked for was already there; or it returned an error
      and did nothing. */
  datatype Answer = Confirmed | Lost | Found | Failed {
    predicate Effective() { Confirmed? || Lost? }

    predicate Acknowledged() { Confirmed? || Found? }
  }

  /** What a run makes sure of on its way: the files of a tree can be read, a client accepts the
      staged tree, the ledgers in Git are the plan's, their records can be written, the
      revision can be locked, the branch is where the run left it, the host gives access,
      and a client accepts what is live. */
  datatype Check =
    | Files(index: nat)
    | StageClient(index: nat)
    | LedgersValid
    | RecordsPrepared
    | Locked
    | Head(index: nat)
    | Access(index: nat)
    | Client(index: nat)

  /** Every answer a run gets. `index` is the position in the plan. A commit is `restorable` if
      the host gave a way back. A restore is `own` if it compensates a commit of this run, and
      not if a repository found current fails its probe. */
  datatype Event =
    | Asked(index: nat, expired: bool, open: bool)
    | Checked(check: Check, ok: bool)
    | Staged(index: nat, ok: bool)
    | LedgersRecorded(answer: Answer)
    | Committed(index: nat, expected: Revision, revision: Revision, restorable: bool, answer: Answer)
    | Observed(index: nat, seen: Option<Revision>)
    | Restored(index: nat, expected: Revision, restored: Revision, own: bool, answer: Answer)
    | ReceiptsCommitted(records: seq<DeploymentRecord>, answer: Answer)

  /** The plan has not expired and the repository's gate is open. */
  function Authorized(i: nat): Event { Asked(i, false, true) }

  // ----- what happened so far -----

  /** `passed` holds the checks that passed, for a repository since its commit; `failed` the
      positions whose client probe failed; `committed` maps a position to the revision its
      commit gave, `restorable` holds those with a way back, and `seen` maps them to what was
      observed after the commit; `below` bounds the committed positions, and `stopped` says that
      nothing may follow. */
  datatype Summary = Summary(
    passed: set<Check>, failed: set<nat>, staged: set<nat>, ledger: bool, below: nat, committed: map<nat, Revision>,
    restorable: set<nat>, seen: map<nat, Option<Revision>>, stopped: bool)

  const NOTHING := Summary({}, {}, {}, false, 0, map[], {}, map[], false)

  function Extend(s: Summary, e: Event): Summary {
    match e
    case Asked(_, expired, open) => s.(stopped := expired || !open)
    case Checked(check, ok) =>
      if ok then s.(passed := s.passed + {check})
      else if check.Client? then s.(passed := s.passed - {check}, failed := s.failed + {check.index})
      else s.(stopped := true)
    case Staged(index, ok) => if ok then s.(staged := s.staged + {index}) else s.(stopped := true)
    case LedgersRecorded(answer) => s.(ledger := s.ledger || answer != Failed, stopped := !answer.Acknowledged())
    case Committed(index, _, revision, restorable, answer) =>
      if answer == Failed then s.(stopped := true)
      else s.(below := index + 1, committed := s.committed[index := revision], seen := s.seen - {index},
              restorable := s.restorable - {index} + (if restorable then {index} else {}),
              passed := s.passed - {Client(index), Head(index)}, stopped := answer == Lost)
    case Observed(index, seen) => s.(seen := s.seen[index := seen])
    case Restored(_, _, _, _, _) => s.(stopped := true)
    case ReceiptsCommitted(_, _) => s.(stopped := true)
  }

  function Summarize(events: seq<Event>): Summary {
    if events == [] then NOTHING
    else Extend(Summarize(events[..|events| - 1]), events[|events| - 1])
  }

  predicate LastIs(events: seq<Event>, e: Event) {
    |events| > 0 && events[|events| - 1] == e
  }

  /** The last event is the acknowledged commit of this revision. */
  predicate CommitIsLast(events: seq<Event>, index: nat, revision: Revision) {
    && |events| > 0 && events[|events| - 1].Committed?
    && events[|events| - 1].index == index && events[|events| - 1].revision == revision
    && events[|events| - 1].answer.Acknowledged()
  }

  /** What preparation guarantees: a noop is current (Preparation.NoopIsCurrent). */
  predicate NoopsAreCurrent(plan: Plan) {
    forall i | 0 <= i < |plan.items| && plan.items[i].planned.action == Noop :: plan.items[i].current
  }

  // ----- receipts -----

  /** The receipts of the first n repositories, in plan order: one for each that is not
      a noop, with the observed native revision if it was current and the committed one
      otherwise. `clock` gives the time each was made. */
  function Receipts(plan: Plan, n: nat, committed: map<nat, Revision>, clock: map<nat, int>): seq<DeploymentRecord>
    requires n <= |plan.items|
  {
    if n == 0 then []
    else
      Receipts(plan, n - 1, committed, clock) +
      if plan.items[n - 1].planned.action == Noop then [] else [ReceiptAt(plan, n - 1, committed, clock)]
  }

  function ReceiptAt(plan: Plan, i: nat, committed: map<nat, Revision>, clock: map<nat, int>): DeploymentRecord
    requires i < |plan.items|
  {
    var item := plan.items[i];
    var native := if item.current then item.observed.native else if i in committed then committed[i].native else "";
    DeploymentRecordFor(item.planned, item.deployment, item.observed, item.signing, native, plan.planID, plan.createdAt,
                        if i in clock then clock[i] else 0)
  }

  lemma {:induction false} ReceiptsFrame(
    plan: Plan, n: nat, committed: map<nat, Revision>, clock: map<nat, int>, committed': map<nat, Revision>, clock': map<nat, int>)
    requires n <= |plan.items|
    requires forall i: nat | i < n :: (i in committed <==> i in committed') && (i in committed ==> committed[i] == committed'[i])
    requires forall i: nat | i < n :: (i in clock <==> i in clock') && (i in clock ==> clock[i] == clock'[i])
    ensures Receipts(plan, n, committed, clock) == Receipts(plan, n, committed', clock')
  {
    if n > 0 {
      ReceiptsFrame(plan, n - 1, committed, clock, committed', clock');
    }
  }

  /** The names of the first n repositories that are not a noop, in plan order. */
  function NamesWithEffect(items: seq<Item>, n: nat): seq<string>
    requires n <= |items|
  {
    if n == 0 then []
    else NamesWithEffect(items, n - 1) + if items[n - 1].planned.action == Noop then [] else [items[n - 1].planned.name]
  }

  /** The receipts name the repositories with an effect, in plan order, each once. */
  lemma {:induction false} ReceiptsNameThePlan(plan: Plan, n: nat, committed: map<nat, Revision>, clock: map<nat, int>)
    requires n <= |plan.items|
    ensures var records := Receipts(plan, n, committed, clock);
            && |records| == |NamesWithEffect(plan.items, n)|
            && forall k | 0 <= k < |records| :: records[k].repository == NamesWithEffect(plan.items, n)[k]
  {
    if n > 0 {
      ReceiptsNameThePlan(plan, n - 1, committed, clock);
    }
  }

  /** The place of a repository's receipt among them. */
  lemma {:induction false} ReceiptsHold(plan: Plan, n: nat, committed: map<nat, Revision>, clock: map<nat, int>, i: nat)
    requires i < n <= |plan.items| && plan.items[i].planned.action != Noop
    ensures var records := Receipts(plan, n, committed, clock);
            var k := |NamesWithEffect(plan.items, i)|;
            k < |records| && records[k] == ReceiptAt(plan, i, committed, clock)
  {
    if i < n - 1 {
      ReceiptsHold(plan, n - 1, committed, clock, i);
    } else {
      ReceiptsNameThePlan(plan, i, committed, clock);
    }
  }

  // ----- the events a run may have -----

  /** What was observed is the desired tree under the committed native revision, and on S3 the
      committed revision itself. */
  predicate Matches(plan: Plan, i: nat, seen: Option<Revision>, revision: Revision)
    requires i < |plan.items|
  {
    && seen.Some? && seen.value.tree == plan.items[i].planned.desiredTree && seen.value.native == revision.native
    && (i in plan.strict ==> seen.value == revision)
  }

  /** The host was seen to serve what was committed. */
  predicate SeenServed(plan: Plan, s: Summary, i: nat)
    requires i < |plan.items|
  {
    i in s.committed && i in s.seen && Matches(plan, i, s.seen[i], s.committed[i])
  }

  /** Nothing is left to do for this repository: it is a noop; or it was current and its client
      probe passed; or it was committed, seen to be served, probed by a client, and the
      branch was still in place. Structural runs probe no clients. */
  predicate Settled(plan: Plan, s: Summary, i: nat)
    requires i < |plan.items|
  {
    || plan.items[i].planned.action == Noop
    || (&& (plan.structuralOnly || Client(i) in s.passed)
        && (plan.items[i].current || (SeenServed(plan, s, i) && Head(i) in s.passed)))
  }

  /** An observation or a client probe of this repository failed. */
  predicate ProbeFailed(plan: Plan, s: Summary, i: nat)
    requires i < |plan.items|
  {
    i in s.failed || (i in s.committed && i in s.seen && !SeenServed(plan, s, i))
  }

  /** There is a way back: the host gave one with the commit, or names one for what is current. */
  predicate Restorable(plan: Plan, s: Summary, i: nat)
    requires i < |plan.items|
  {
    if plan.items[i].current then plan.items[i].observed.restoreID != "" else i in s.restorable
  }

  /** The repository is staged, and unless the run is structural a client accepted it. */
  predicate StagedWell(plan: Plan, s: Summary, i: nat) { i in s.staged && (plan.structuralOnly || StageClient(i) in s.passed) }

  predicate StagedTo(plan: Plan, s: Summary, n: nat)
    requires n <= |plan.items|
  {
    forall i: nat | i < n && !plan.items[i].current :: StagedWell(plan, s, i)
  }

  predicate AllStaged(plan: Plan, s: Summary) { StagedTo(plan, s, |plan.items|) }

  predicate NeedsLedgers(plan: Plan) { exists i | 0 <= i < |plan.items| :: plan.items[i].planned.publicationRecords }

  /** The ledgers are recorded and validated. */
  predicate LedgersReady(plan: Plan, s: Summary) {
    s.ledger && RecordsPrepared in s.passed && (plan.ledgerCommitted || NeedsLedgers(plan) ==> LedgersValid in s.passed)
  }

  /** And the revision is locked. */
  predicate LedgersDone(plan: Plan, s: Summary) { LedgersReady(plan, s) && Locked in s.passed }

  ghost predicate AllReceipts(plan: Plan, committed: map<nat, Revision>, records: seq<DeploymentRecord>) {
    exists clock: map<nat, int> :: records == Receipts(plan, |plan.items|, committed, clock)
  }

  predicate HasEffect(plan: Plan, i: nat) { i < |plan.items| && plan.items[i].planned.action != Noop }

  /** Asked about last, and authorized. */
  predicate Touches(plan: Plan, events: seq<Event>, i: nat) { HasEffect(plan, i) && LastIs(events, Authorized(i)) }

  /** A check in its place: a client probes what was just seen to be served, or what a current
      repository just gave access to. */
  predicate CheckInPlace(plan: Plan, events: seq<Event>, check: Check) {
    check.Client? ==>
      && HasEffect(plan, check.index) && !plan.structuralOnly && check.index !in Summarize(events).failed
      && (if plan.items[check.index].current then LastIs(events, Checked(Access(check.index), true))
          else |events| > 0 && events[|events| - 1].Observed? && events[|events| - 1].index == check.index
               && SeenServed(plan, Summarize(events), check.index))
  }

  /** An event a run may have next. A stage, a commit and a restore come right after an
      authorization of their repository and never touch a noop; the ledgers come only when every
      outdated repository is staged and a client accepted it; a commit comes only after the
      ledgers, with the branch in place, only where the host was not current, only past every
      position committed before, when every repository before it is settled, and expects exactly
      the revision the plan observed; a restore comes only after a failed probe, and names what
      was committed last, or what a current repository was observed to serve, if there is a way
      back; the receipts come only when every repository is settled, and are exactly those of the
      plan. Nothing follows a closed gate, a failed check other than a client probe, a stage,
      ledgers or a commit that returned an error, a restore or the receipts. */
  ghost predicate Admissible(plan: Plan, events: seq<Event>, e: Event) {
    var s := Summarize(events);
    && !s.stopped
    && match e
       case Asked(i, _, _) => HasEffect(plan, i)
       case Checked(check, _) => CheckInPlace(plan, events, check)
       case Staged(i, _) => Touches(plan, events, i) && !plan.items[i].current && Files(i) in s.passed
       case LedgersRecorded(answer) =>
         && AllStaged(plan, s) && RecordsPrepared in s.passed && (plan.ledgerCommitted ==> LedgersValid in s.passed)
         && (plan.ledgerCommitted || !NeedsLedgers(plan) ==> answer == Found)
       case Committed(i, expected, _, _, _) =>
         && Touches(plan, events, i) && |events| > 1 && events[|events| - 2] == Checked(Head(i), true)
         && !plan.items[i].current && expected == plan.items[i].planned.observed
         && LedgersDone(plan, s) && s.below <= i && forall j: nat | j < i :: Settled(plan, s, j)
       case Observed(i, _) => i in s.committed && CommitIsLast(events, i, s.committed[i])
       case Restored(i, expected, _, own, _) =>
         && Touches(plan, events, i) && LedgersDone(plan, s) && ProbeFailed(plan, s, i)
         && (if own then s.below == i + 1 && i in s.committed && expected == s.committed[i]
             else plan.items[i].current && expected == plan.items[i].observed)
         && Restorable(plan, s, i)
       case ReceiptsCommitted(records, _) =>
         && LedgersDone(plan, s) && AllReceipts(plan, s.committed, records)
         && forall i: nat | i < |plan.items| :: Settled(plan, s, i)
  }

  ghost predicate TraceOK(plan: Plan, events: seq<Event>) {
    events == [] ||
    (var n := |events| - 1; TraceOK(plan, events[..n]) && Admissible(plan, events[..n], events[n]))
  }

  lemma {:induction false} Append(plan: Plan, events: seq<Event>, e: Event)
    requires TraceOK(plan, events) && Admissible(plan, events, e)
    ensures TraceOK(plan, events + [e])
    ensures Summarize(events + [e]) == Extend(Summarize(events), e)
  {
    assert (events + [e])[..|events|] == events;
  }

  // ----- what that means for a whole run -----

  lemma {:induction false} AdmissibleAt(plan: Plan, events: seq<Event>, k: nat)
    requires TraceOK(plan, events) && k < |events|
    ensures TraceOK(plan, events[..k]) && Admissible(plan, events[..k], events[k])
  {
    var n := |events| - 1;
    if k < n {
      assert events[..n][..k] == events[..k];
      AdmissibleAt(plan, events[..n], k);
    }
  }

  /** The ledgers were recorded, now or by an earlier run, or there were none to record. */
  predicate Recorded(e: Event) { e.LedgersRecorded? && e.answer != Failed }

  lemma {:induction false} SummaryLedger(events: seq<Event>)
    ensures Summarize(events).ledger <==> exists k | 0 <= k < |events| :: Recorded(events[k])
  {
    if events != [] {
      var n := |events| - 1;
      SummaryLedger(events[..n]);
      assert forall k | 0 <= k < n :: events[..n][k] == events[k];
    }
  }

  lemma {:induction false} SummaryStaged(events: seq<Event>)
    ensures forall i: nat :: i in Summarize(events).staged <==> Staged(i, true) in events
  {
    if events != [] {
      var n := |events| - 1;
      SummaryStaged(events[..n]);
      assert events == events[..n] + [events[n]];
    }
  }

  /** A check that counts was passed. */
  lemma {:induction false} SummaryPassed(events: seq<Event>, check: Check)
    requires check in Summarize(events).passed
    ensures Checked(check, true) in events
  {
    var n := |events| - 1;
    if events[n] != Checked(check, true) {
      SummaryPassed(events[..n], check);
      assert events == events[..n] + [events[n]];
    }
  }

  /** Once the ledgers are recorded, every outdated repository was staged. */
  lemma {:induction false} StagedBeforeLedgers(plan: Plan, events: seq<Event>)
    requires TraceOK(plan, events) && Summarize(events).ledger
    ensures forall i: nat | i < |plan.items| && !plan.items[i].current ::
              Staged(i, true) in events && (plan.structuralOnly || Checked(StageClient(i), true) in events)
  {
    var n := |events| - 1;
    if Summarize(events[..n]).ledger {
      StagedBeforeLedgers(plan, events[..n]);
      assert events == events[..n] + [events[n]];
    } else {
      SummaryStaged(events[..n]);
      assert events == events[..n] + [events[n]];
      forall i: nat | i < |plan.items| && !plan.items[i].current && !plan.structuralOnly ensures Checked(StageClient(i), true) in events {
        SummaryPassed(events[..n], StageClient(i));
      }
    }
  }

  lemma {:induction false} CommitsAscend(plan: Plan, events: seq<Event>, e: Event)
    requires Admissible(plan, events, e)
    ensures e.Committed? ==> Summarize(events).below <= e.index
  {
  }

  /** Each commit's position is bounded, and its revision is remembered. */
  lemma {:induction false} SummaryCommit(plan: Plan, events: seq<Event>, k: nat)
    requires TraceOK(plan, events) && k < |events| && events[k].Committed? && events[k].answer != Failed
    ensures var s := Summarize(events);
            && events[k].index < s.below && events[k].index in s.committed
            && s.committed[events[k].index] == events[k].revision
  {
    var n := |events| - 1;
    assert Summarize(events) == Extend(Summarize(events[..n]), events[n]);
    if k < n {
      SummaryCommit(plan, events[..n], k);
      CommitsAscend(plan, events[..n], events[n]);
    }
  }

  /** Positions in the table lie below the bound. */
  lemma {:induction false} SummaryBelow(plan: Plan, events: seq<Event>)
    requires TraceOK(plan, events)
    ensures forall i | i in Summarize(events).committed :: i < Summarize(events).below
  {
    if events != [] {
      SummaryBelow(plan, events[..|events| - 1]);
    }
  }

  lemma {:induction false} SummaryAt(events: seq<Event>, k: nat)
    requires k < |events|
    ensures Summarize(events[..k + 1]) == Extend(Summarize(events[..k]), events[k])
  {
    assert events[..k + 1][..k] == events[..k];
  }

  predicate Ends(e: Event) {
    || (e.Asked? && (e.expired || !e.open))
    || (e.Checked? && !e.ok && !e.check.Client?)
    || (e.Staged? && !e.ok)
    || ((e.LedgersRecorded? || e.Committed?) && !e.answer.Acknowledged())
    || e.Restored? || e.ReceiptsCommitted?
  }

  /** Nothing follows a closed gate, a failed check, an error of a host or of the ledgers, a restore
      or the receipts. */
  lemma {:induction false} EndsLast(plan: Plan, events: seq<Event>, k: nat)
    requires TraceOK(plan, events) && k < |events| && Ends(events[k])
    ensures k == |events| - 1
  {
    SummaryAt(events, k);
    if k < |events| - 1 {
      AdmissibleAt(plan, events, k + 1);
    }
  }

  predicate Touching(e: Event) { e.Staged? || e.Committed? || e.Restored? }

  /** One event in its place: a stage, a commit and a restore directly follow an authorization
      of their own repository, which is no noop; the ledgers, every commit and every restore come
      after the stages of all outdated repositories, and commits and restores after the ledgers; a
      commit expects the revision its plan observed, on a host that was not current; a restore of
      a current repository names what it was observed to serve; what ends a run comes last. */
  predicate InPlace(plan: Plan, events: seq<Event>, k: nat)
    requires k < |events|
  {
    var e := events[k];
    && (Touching(e) ==>
          && k > 0 && events[k - 1] == Authorized(e.index)
          && e.index < |plan.items| && plan.items[e.index].planned.action != Noop
          && (e.Committed? ==> !plan.items[e.index].current && e.expected == plan.items[e.index].planned.observed)
          && (e.Committed? ==> k > 1 && events[k - 2] == Checked(Head(e.index), true))
          && (e.Restored? && !e.own ==> plan.items[e.index].current && e.expected == plan.items[e.index].observed))
    && (e.Committed? || e.Restored? ==> exists l | 0 <= l < k :: Recorded(events[l]))
    && (e.LedgersRecorded? || e.Committed? || e.Restored? ==>
          forall i: nat | i < |plan.items| && !plan.items[i].current :: Staged(i, true) in events[..k])
    && (Ends(e) ==> k == |events| - 1)
  }

  lemma {:induction false} EventInPlace(plan: Plan, events: seq<Event>, k: nat)
    requires TraceOK(plan, events) && k < |events|
    ensures InPlace(plan, events, k)
  {
    AdmissibleAt(plan, events, k);
    SummaryLedger(events[..k]);
    SummaryStaged(events[..k]);
    if events[k].Committed? || events[k].Restored? {
      StagedBeforeLedgers(plan, events[..k]);
    }
    if Ends(events[k]) {
      EndsLast(plan, events, k);
    }
  }

  // ----- what was made sure of -----

  /** No commit of repository i at or after position p. */
  predicate NoCommitSince(events: seq<Event>, p: nat, i: nat) {
    forall c | p <= c < |events| && events[c].Committed? && events[c].answer != Failed :: events[c].index != i
  }

  /** A client probe or a look at the branch that counts came after the repository's commit. */
  lemma {:induction false} PassedSince(events: seq<Event>, check: Check) returns (p: nat)
    requires check in Summarize(events).passed && (check.Client? || check.Head?)
    ensures p < |events| && events[p] == Checked(check, true) && NoCommitSince(events, p, check.index)
  {
    var n := |events| - 1;
    if events[n] == Checked(check, true) {
      p := n;
    } else {
      p := PassedSince(events[..n], check);
      assert events[..n][p] == events[p];
      forall c | p <= c < |events| && events[c].Committed? && events[c].answer != Failed ensures events[c].index != check.index {
        assert c < n ==> events[..n][c] == events[c];
      }
    }
  }

  /** What counts as observed was observed after the repository's commit. */
  lemma {:induction false} SeenSince(events: seq<Event>, i: nat) returns (o: nat)
    requires i in Summarize(events).seen
    ensures o < |events| && events[o] == Observed(i, Summarize(events).seen[i]) && NoCommitSince(events, o, i)
  {
    var n := |events| - 1;
    if events[n].Observed? && events[n].index == i {
      o := n;
    } else {
      o := SeenSince(events[..n], i);
      assert events[..n][o] == events[o];
      forall c | o <= c < |events| && events[c].Committed? && events[c].answer != Failed ensures events[c].index != i {
        assert c < n ==> events[..n][c] == events[c];
      }
    }
  }

  lemma {:induction false} CommittedAt(events: seq<Event>, i: nat) returns (c: nat)
    requires i in Summarize(events).committed
    ensures c < |events| && events[c].Committed? && events[c].answer != Failed
    ensures events[c].index == i && events[c].revision == Summarize(events).committed[i]
  {
    var n := |events| - 1;
    if events[n].Committed? && events[n].index == i && events[n].answer != Failed {
      c := n;
    } else {
      c := CommittedAt(events[..n], i);
    }
  }

  /** Repository i was committed; after that the host was seen to serve the desired tree under the
      committed native revision, unless the run is structural a client accepted it, and the
      branch was in place. */
  predicate ProbedAfterCommit(plan: Plan, events: seq<Event>, i: nat)
    requires i < |plan.items|
  {
    exists c: nat, o: nat, h: nat | c < |events| && o < |events| && h < |events| ::
      && events[c].Committed? && events[c].index == i && events[c].answer != Failed
      && c < o && events[o].Observed? && events[o].index == i && Matches(plan, i, events[o].seen, events[c].revision)
      && c < h && events[h] == Checked(Head(i), true)
      && (plan.structuralOnly || exists p: nat | p < |events| :: c < p && events[p] == Checked(Client(i), true))
  }

  /** Unless the run is structural, what was current and has an effect passed a client probe; what
      was outdated was committed and probed after that. */
  predicate Probed(plan: Plan, events: seq<Event>, i: nat)
    requires i < |plan.items|
  {
    if plan.items[i].current then plan.structuralOnly || Checked(Client(i), true) in events
    else ProbedAfterCommit(plan, events, i)
  }

  lemma {:induction false} SettledMeansProbed(plan: Plan, events: seq<Event>, i: nat)
    requires HasEffect(plan, i) && Settled(plan, Summarize(events), i)
    ensures Probed(plan, events, i)
  {
    if !plan.structuralOnly {
      SummaryPassed(events, Client(i));
    }
    if !plan.items[i].current {
      var c := CommittedAt(events, i);
      var o := SeenSince(events, i);
      var h := PassedSince(events, Head(i));
      assert c < o && c < h;
      if !plan.structuralOnly {
        var p := PassedSince(events, Client(i));
        assert c < p;
      }
    }
  }

  /** In every run, before a commit every repository before it, and before the receipts every
      repository, was probed. */
  lemma {:induction false} ProbedBefore(plan: Plan, events: seq<Event>, k: nat, i: nat)
    requires TraceOK(plan, events) && k < |events| && HasEffect(plan, i)
    requires events[k].ReceiptsCommitted? || (events[k].Committed? && i < events[k].index)
    ensures Probed(plan, events[..k], i)
  {
    AdmissibleAt(plan, events, k);
    SettledMeansProbed(plan, events[..k], i);
  }

  /** A client refused repository i, or after its commit the host was not seen to serve what was
      committed. */
  predicate FoundWanting(plan: Plan, events: seq<Event>, i: nat)
    requires i < |plan.items|
  {
    || Checked(Client(i), false) in events
    || exists c: nat, o: nat | c < o < |events| ::
         && events[c].Committed? && events[c].index == i && events[c].answer != Failed
         && events[o].Observed? && events[o].index == i && !Matches(plan, i, events[o].seen, events[c].revision)
  }

  lemma {:induction false} RestoredAfterFailure(plan: Plan, events: seq<Event>, k: nat)
    requires TraceOK(plan, events) && k < |events| && events[k].Restored?
    ensures events[k].index < |plan.items| && FoundWanting(plan, events[..k], events[k].index)
  {
    AdmissibleAt(plan, events, k);
    var i, before := events[k].index, events[..k];
    if i in Summarize(before).failed {
      SummaryFailed(before, i);
    } else {
      var c := CommittedAt(before, i);
      var o := SeenSince(before, i);
      assert c < o;
    }
  }

  /** The run ends with an answer that is no success: a closed gate, a failed check, a failed stage,
      an error of the ledgers, of a commit or of the receipts, any restore, or a failed probe of
      what the host gives no way back from. */
  predicate EndsInFailure(plan: Plan, events: seq<Event>) {
    |events| > 0 &&
    var s := Summarize(events);
    match events[|events| - 1]
    case Asked(_, expired, open) => expired || !open
    case Checked(check, ok) => !ok && (check.Client? ==> check.index < |plan.items| && !Restorable(plan, s, check.index))
    case Staged(_, ok) => !ok
    case LedgersRecorded(answer) => !answer.Acknowledged()
    case Committed(_, _, _, _, answer) => !answer.Acknowledged()
    case Observed(i, _) => i < |plan.items| && !SeenServed(plan, s, i) && !Restorable(plan, s, i)
    case Restored(_, _, _, _, _) => true
    case ReceiptsCommitted(_, answer) => !answer.Acknowledged()
  }

  /** What is known of the other repositories, and of the run, is kept. */
  predicate KeepsOthers(s: Summary, t: Summary, i: nat) {
    && (forall check | check in s.passed && check != Client(i) && check != Head(i) :: check in t.passed)
    && s.ledger == t.ledger && s.failed == t.failed
    && (forall j | j != i && j in s.committed :: j in t.committed && t.committed[j] == s.committed[j])
    && (forall j | j != i && j in s.seen :: j in t.seen && t.seen[j] == s.seen[j])
  }

  lemma {:induction false} SettledIsKept(plan: Plan, s: Summary, t: Summary, i: nat, j: nat)
    requires KeepsOthers(s, t, i) && j != i && j < |plan.items| && Settled(plan, s, j)
    ensures Settled(plan, t, j)
  {
  }

  lemma {:induction false} OthersSettled(plan: Plan, s: Summary, t: Summary, i: nat)
    requires i < |plan.items| && KeepsOthers(s, t, i) && forall j: nat | j < i :: Settled(plan, s, j)
    ensures forall j: nat | j < i :: Settled(plan, t, j)
  {
    forall j: nat | j < i ensures Settled(plan, t, j) {
      SettledIsKept(plan, s, t, i, j);
    }
  }

  /** Seen, accepted and with the branch in place, a committed repository is settled. */
  lemma {:induction false} ProbedIsSettled(plan: Plan, s: Summary, t: Summary, i: nat)
    requires HasEffect(plan, i) && !plan.items[i].current && i in t.seen && SeenServed(plan, t, i)
    requires t == s.(seen := s.seen[i := t.seen[i]],
                     passed := s.passed + (if plan.structuralOnly then {} else {Client(i)}) + {Head(i)})
    ensures Settled(plan, t, i) && KeepsOthers(s, t, i) && (LedgersDone(plan, s) ==> LedgersDone(plan, t))
  {
  }

  /** What is settled stays so while a further repository is published. */
  lemma {:induction false} StillSettled(plan: Plan, s: Summary, between: Summary, t: Summary, i: nat)
    requires i < |plan.items| && forall j: nat | j < i :: Settled(plan, s, j)
    requires KeepsOthers(s, between, i) && KeepsOthers(between, t, i) && Settled(plan, t, i)
    ensures forall j: nat | j <= i :: Settled(plan, t, j)
  {
    OthersSettled(plan, s, between, i);
    OthersSettled(plan, between, t, i);
  }

  lemma {:induction false} SummaryFailed(events: seq<Event>, i: nat)
    requires i in Summarize(events).failed
    ensures Checked(Client(i), false) in events
  {
    var n := |events| - 1;
    if events[n] != Checked(Client(i), false) {
      SummaryFailed(events[..n], i);
      assert events == events[..n] + [events[n]];
    }
  }

  /** In every run each event is in its place, and commits follow plan order, at most one a
      repository. Before a commit every repository before it was probed, and before the receipts
      every repository; nothing is restored that was not found wanting. */
  lemma {:induction false} RunOrder(plan: Plan, events: seq<Event>)
    requires TraceOK(plan, events)
    ensures forall k | 0 <= k < |events| :: InPlace(plan, events, k)
    ensures forall j, k | 0 <= j < k < |events| && events[j].Committed? && events[k].Committed? ::
              events[j].index < events[k].index
    ensures forall k, i: nat | 0 <= k < |events| && HasEffect(plan, i)
                               && (events[k].ReceiptsCommitted? || (events[k].Committed? && i < events[k].index)) ::
              Probed(plan, events[..k], i)
    ensures forall k | 0 <= k < |events| && events[k].Restored? ::
              events[k].index < |plan.items| && FoundWanting(plan, events[..k], events[k].index)
  {
    forall k: nat, i: nat | k < |events| && HasEffect(plan, i)
                            && (events[k].ReceiptsCommitted? || (events[k].Committed? && i < events[k].index))
      ensures Probed(plan, events[..k], i)
    {
      ProbedBefore(plan, events, k, i);
    }
    forall k: nat | k < |events| && events[k].Restored?
      ensures events[k].index < |plan.items| && FoundWanting(plan, events[..k], events[k].index)
    {
      RestoredAfterFailure(plan, events, k);
    }
    forall k: nat | k < |events| ensures InPlace(plan, events, k) {
      EventInPlace(plan, events, k);
    }
    forall j: nat, k: nat | j < k < |events| && events[j].Committed? && events[k].Committed?
      ensures events[j].index < events[k].index
    {
      AdmissibleAt(plan, events, k);
      assert events[..k][j] == events[j];
      if events[j].answer == Failed {
        EndsLast(plan, events, j);
      }
      SummaryCommit(plan, events[..k], j);
    }
  }

  // ----- what a run reports -----

  /** How many events meet p. */
  function Count(events: seq<Event>, p: Event -> bool): nat {
    if events == [] then 0
    else Count(events[..|events| - 1], p) + if p(events[|events| - 1]) then 1 else 0
  }

  /** What the host did. */
  predicate CommitEffect(e: Event) { e.Committed? && e.answer.Effective() }

  predicate RestoreEffect(e: Event) { e.Restored? && e.answer.Effective() }

  /** What the run counts. */
  predicate CommitCounted(e: Event) { e.Committed? && e.answer.Acknowledged() }

  predicate RestoreCounted(e: Event) { e.Restored? && e.own && e.answer.Acknowledged() }

  /** Applied: acknowledged commits minus acknowledged restores of them. */
  function Reported(events: seq<Event>): int { Count(events, CommitCounted) - Count(events, RestoreCounted) }

  /** All commits minus all restores that took effect. */
  function Balance(events: seq<Event>): int { Count(events, CommitEffect) - Count(events, RestoreEffect) }

  predicate FoundCommit(e: Event) { e.Committed? && e.answer == Found }

  /** By how much the last effect of a run makes it report too much: a lost commit and a
      restore that was not needed make it one too little; a lost restore and a restore of
      a repository that was found current make it one too much. */
  function Slip(e: Event): int {
    if e.Committed? && e.answer == Lost then -1
    else if e.Restored? && e.own then (match e.answer case Lost => 1 case Found => -1 case _ => 0)
    else if e.Restored? && e.answer.Effective() then 1
    else 0
  }

  function LastSlip(events: seq<Event>): int { if events == [] then 0 else Slip(events[|events| - 1]) }

  lemma {:induction false} NoSlipBefore(plan: Plan, events: seq<Event>)
    requires TraceOK(plan, events) && !Summarize(events).stopped
    ensures LastSlip(events) == 0
  {
  }

  /** The reported number is off by exactly the commits found already there, plus the slip
      of the last effect. */
  lemma {:induction false} ReportedIsOffBy(plan: Plan, events: seq<Event>)
    requires TraceOK(plan, events)
    ensures Reported(events) - Balance(events) == Count(events, FoundCommit) + LastSlip(events)
  {
    if events != [] {
      var before := events[..|events| - 1];
      ReportedIsOffBy(plan, before);
      NoSlipBefore(plan, before);
    }
  }

  /** Effects and acknowledgements agree, and none was a restore of a repository found current. */
  predicate Clean(e: Event) {
    && (e.Committed? ==> e.answer != Lost)
    && (e.Restored? ==> if e.own then e.answer != Lost && e.answer != Found else !e.answer.Effective())
  }

  lemma {:induction false} NoneCounted(events: seq<Event>, p: Event -> bool)
    ensures Count(events, p) == 0 <==> forall k | 0 <= k < |events| :: !p(events[k])
  {
    if events != [] {
      NoneCounted(events[..|events| - 1], p);
    }
  }

  lemma {:induction false} CleanButLast(plan: Plan, events: seq<Event>)
    requires TraceOK(plan, events)
    ensures LastSlip(events) == 0 <==> forall k | 0 <= k < |events| :: Clean(events[k])
  {
    forall k: nat | k < |events| && !Clean(events[k]) ensures k == |events| - 1 {
      EndsLast(plan, events, k);
    }
  }

  /** The reported number is the host's commits minus its restores exactly if every effect
      was acknowledged and no repository found current was restored; provided nobody else
      published the plan meanwhile, so that no commit was found already there. */
  lemma {:induction false} ReportedIsExact(plan: Plan, events: seq<Event>)
    requires TraceOK(plan, events) && forall k | 0 <= k < |events| :: !FoundCommit(events[k])
    ensures Reported(events) == Balance(events) <==> forall k | 0 <= k < |events| :: Clean(events[k])
    ensures -1 <= Reported(events) - Balance(events) <= 1
  {
    ReportedIsOffBy(plan, events);
    NoneCounted(events, FoundCommit);
    CleanButLast(plan, events);
  }

  /** Wherever a commit may come next, losing its answer publishes without being reported. */
  lemma {:induction false} LostCommitIsNotReported(plan: Plan, events: seq<Event>, i: nat, revision: Revision)
    requires i < |plan.items| && TraceOK(plan, events)
    requires Admissible(plan, events, Committed(i, plan.items[i].planned.observed, revision, false, Lost))
    ensures var after := events + [Committed(i, plan.items[i].planned.observed, revision, false, Lost)];
            TraceOK(plan, after) && Reported(after) == Reported(events) && Balance(after) == Balance(events) + 1
  {
    var commit := Committed(i, plan.items[i].planned.observed, revision, false, Lost);
    Append(plan, events, commit);
    CountAppend(events, commit);
  }

  lemma {:induction false} CountAppend(events: seq<Event>, e: Event)
    ensures forall p: Event -> bool :: Count(events + [e], p) == Count(events, p) + if p(e) then 1 else 0
  {
    assert (events + [e])[..|events|] == events;
  }
}
