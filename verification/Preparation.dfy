/** Planning and revalidating one repository (planRepository and prepareRepository in
    engine/workspace.go), and what re-running a plan after a crash does. */
module Preparation {
  import opened Wrappers
  import opened HexDigest
  import opened Records
  import opened SigningTransition

  datatype Stale =
    | ConfigurationChanged
    | LedgerInconsistent
    | SigningRefused(refusal: Refusal)
    | ReceiptChanged
    | NativeChanged
    | PublishedByAnotherChange
    | TargetChanged
    | ActionInconsistent

  /** What apply reads besides plan, receipt and host. `matchesPlan` stands for the
      comparisons of manifest, lock, host identity, endpoint, install document,
      capabilities and bindings with the plan; `missingBindings` for a visible
      version the ledger does not bind yet. */
  datatype Facts = Facts(matchesPlan: bool, ledgerCommitted: bool, missingBindings: bool,
                         repository: Repository, keys: Keys, trust: Option<int>, now: int)
  {
    predicate WellFormed() { repository.rotation.Some? ==> repository.signingKeys != [] }
  }

  /** One repository as apply carries it on to staging and publication. */
  datatype Item = Item(planned: PlanRepository, observed: Revision, current: bool,
                       deployment: DeploymentRecord, signing: SigningState)

  function ChangeIDFor(name: string, tree: string): string {
    name + ":" + (if |tree| < 12 then tree else tree[..12])
  }

  /** deploymentMatchesDesired */
  predicate DeploymentMatchesDesired(
    deployment: DeploymentRecord, observed: Revision, tree: string, manifest: string, signing: SigningState)
  {
    && ValidDigest(tree) && deployment.tree == tree && deployment.manifest == manifest
    && deployment.native != "" && deployment.native == observed.native
    && deployment.changeID == ChangeIDFor(deployment.repository, tree)
    && DeploymentSigningMatches(deployment, signing)
  }

  /** A reason to publish other than a ledger that lacks bindings. */
  predicate OutOfDate(
    observed: Revision, deployment: DeploymentRecord, tree: string, manifest: string, managedRemote: bool,
    signing: SigningState)
  {
    || observed.tree != tree
    || (managedRemote && observed.manifest != manifest)
    || !DeploymentMatchesDesired(deployment, observed, tree, manifest, signing)
  }

  function ActionFor(outOfDate: bool, observed: Revision): Action {
    if !outOfDate then Noop else if observed.native == "" then Create else Update
  }

  /** planRepository, once the desired tree and signing state are known. */
  function PlanRepositoryFor(
    name: string, tree: string, manifest: string, managedRemote: bool, observed: Revision,
    deployment: DeploymentRecord, missingBindings: bool, signing: SigningState): (p: PlanRepository)
  {
    PlanRepository(name, ChangeIDFor(name, tree), tree, manifest, observed, deployment, missingBindings, managedRemote,
                   ActionFor(OutOfDate(observed, deployment, tree, manifest, managedRemote, signing) || missingBindings,
                             observed))
  }

  predicate MatchesApplied(planned: PlanRepository, planID: string, observed: Revision) {
    && planned.action != Noop && observed.tree == planned.desiredTree
    && (planned.managedRemote ==>
          observed.planID == planID && observed.changeID == planned.changeID
          && observed.manifest == planned.desiredManifest)
  }

  predicate DeploymentApplied(
    planned: PlanRepository, planID: string, deployment: DeploymentRecord, observed: Revision, signing: SigningState)
  {
    && deployment.planID == planID && deployment.changeID == planned.changeID
    && deployment.tree == planned.desiredTree && deployment.manifest == planned.desiredManifest
    && deployment.native == observed.native && DeploymentSigningMatches(deployment, signing)
  }

  predicate LedgerConsistent(planned: PlanRepository, facts: Facts) {
    && (!facts.ledgerCommitted ==> planned.publicationRecords == facts.missingBindings)
    && (facts.ledgerCommitted && !planned.publicationRecords ==> !facts.missingBindings)
  }

  /** prepareRepository: refuse a stale plan, and decide whether the host is already current. */
  function PrepareRepository(
    planned: PlanRepository, planID: string, deployment: DeploymentRecord, observed: Revision, facts: Facts)
    : (r: Result<Item, Stale>)
    requires facts.WellFormed()
    ensures r.Ok? ==> r.value.planned == planned && r.value.observed == observed && r.value.deployment == deployment
  {
    if !facts.matchesPlan then Err(ConfigurationChanged)
    else if !LedgerConsistent(planned, facts) then Err(LedgerInconsistent)
    else
      match ValidateTransition(facts.repository, facts.keys, deployment, planned.observed, facts.now, facts.trust)
      case Err(refusal) => Err(SigningRefused(refusal))
      case Ok(signing) =>
        var matchesApplied := MatchesApplied(planned, planID, observed);
        var applied := DeploymentApplied(planned, planID, deployment, observed, signing);
        if deployment != planned.deployment && !applied then Err(ReceiptChanged)
        else if observed != planned.observed && !matchesApplied then
          Err(if observed.tree == planned.observed.tree then NativeChanged
              else if observed.tree == planned.desiredTree then PublishedByAnotherChange
              else TargetChanged)
        else
          var expected := ActionFor(
            OutOfDate(planned.observed, planned.deployment, planned.desiredTree, planned.desiredManifest,
                      planned.managedRemote, signing) || facts.missingBindings,
            planned.observed);
          if planned.action != expected || planned.changeID != ChangeIDFor(planned.name, planned.desiredTree) then
            Err(ActionInconsistent)
          else
            var receiptRecovery := matchesApplied && deployment == planned.deployment;
            var deploymentCurrent :=
              DeploymentMatchesDesired(deployment, observed, planned.desiredTree, planned.desiredManifest, signing);
            var current :=
              && observed.tree == planned.desiredTree
              && (planned.managedRemote ==> observed.manifest == planned.desiredManifest)
              && (applied || (planned.action == Noop && deploymentCurrent) || receiptRecovery);
            Ok(Item(planned, observed, current, deployment, signing))
  }

  /** A prepared repository carries the state the guard accepted for it. If it is current the
      host serves the desired tree, and its manifest where the host reports one; if not, the
      host serves exactly what the plan observed, and there is something to publish. */
  lemma PreparedMeans(planned: PlanRepository, planID: string, deployment: DeploymentRecord, observed: Revision, facts: Facts)
    requires facts.WellFormed() && PrepareRepository(planned, planID, deployment, observed, facts).Ok?
    ensures var item := PrepareRepository(planned, planID, deployment, observed, facts).value;
            && ValidateTransition(facts.repository, facts.keys, deployment, planned.observed, facts.now, facts.trust) == Ok(item.signing)
            && (if item.current then
                  && observed.tree == planned.desiredTree
                  && (planned.managedRemote ==> observed.manifest == planned.desiredManifest)
                  && (observed == planned.observed || MatchesApplied(planned, planID, observed))
                else observed == planned.observed && planned.action != Noop)
  {
  }

  /** The host serves this plan: its tree, and on a managed remote its identity and manifest. */
  predicate PlanIsLive(planned: PlanRepository, planID: string, observed: Revision) {
    && planned.action != Noop && observed.tree == planned.desiredTree
    && (!planned.managedRemote ||
        (observed.planID == planID && observed.changeID == planned.changeID && observed.manifest == planned.desiredManifest))
  }

  /** The receipt is the one this plan writes for what is live. */
  predicate ReceiptIsWritten(
    planned: PlanRepository, planID: string, deployment: DeploymentRecord, observed: Revision, signing: SigningState)
  {
    && deployment.planID == planID && deployment.changeID == planned.changeID && deployment.native == observed.native
    && deployment.tree == planned.desiredTree && deployment.manifest == planned.desiredManifest
    && deployment.signing == signing && (signing.active != "" ==> deployment.trustSince.Some?)
  }

  /** Preparing accepts a plan if and only if nothing it was made from has changed, the ledger
      agrees with it, the guard accepts, and planning again from what the plan observed would
      make the same plan; where receipt and host may be the plan's own results instead. It
      is current if it is a noop, or the plan is live with the plan's or the old receipt. */
  lemma PrepareIsExact(planned: PlanRepository, planID: string, deployment: DeploymentRecord, observed: Revision, facts: Facts)
    requires facts.WellFormed()
    ensures var guard := ValidateTransition(facts.repository, facts.keys, deployment, planned.observed, facts.now, facts.trust);
            var r := PrepareRepository(planned, planID, deployment, observed, facts);
            && (r.Ok? <==>
                  && facts.matchesPlan && guard.Ok?
                  && (if !facts.ledgerCommitted then planned.publicationRecords == facts.missingBindings
                      else facts.missingBindings ==> planned.publicationRecords)
                  && (deployment == planned.deployment || ReceiptIsWritten(planned, planID, deployment, observed, guard.value))
                  && (observed == planned.observed || PlanIsLive(planned, planID, observed))
                  && var again := PlanRepositoryFor(planned.name, planned.desiredTree, planned.desiredManifest, planned.managedRemote,
                                                    planned.observed, planned.deployment, facts.missingBindings, guard.value);
                     planned.action == again.action && planned.changeID == again.changeID)
            && (r.Ok? ==>
                  && r.value.signing == guard.value
                  && (r.value.current <==>
                        || planned.action == Noop
                        || (&& observed.tree == planned.desiredTree
                            && (planned.managedRemote ==> observed.manifest == planned.desiredManifest)
                            && (|| ReceiptIsWritten(planned, planID, deployment, observed, guard.value)
                                || (deployment == planned.deployment && PlanIsLive(planned, planID, observed))))))
  {
  }

  // ----- planning -----

  /** A repository plans as a noop if and only if the ledger lacks no binding, the host serves the
      desired tree, and its manifest where it reports one, and the receipt is of that tree and
      manifest, of what is live, of the usual change, and of the signing state. */
  lemma NoopIsExact(
    name: string, tree: string, manifest: string, managedRemote: bool, observed: Revision, deployment: DeploymentRecord,
    missingBindings: bool, signing: SigningState)
    ensures PlanRepositoryFor(name, tree, manifest, managedRemote, observed, deployment, missingBindings, signing).action == Noop <==>
              && !missingBindings && observed.tree == tree && (managedRemote ==> observed.manifest == manifest)
              && ValidDigest(tree) && deployment.tree == tree && deployment.manifest == manifest
              && deployment.native == observed.native && observed.native != ""
              && deployment.changeID == deployment.repository + ":" + tree[..12]
              && deployment.signing == signing && (signing.active != "" ==> deployment.trustSince.Some?)
  {
  }

  /** Otherwise it is created where nothing is live, and updated elsewhere. */
  lemma ActionIsExact(
    name: string, tree: string, manifest: string, managedRemote: bool, observed: Revision, deployment: DeploymentRecord,
    missingBindings: bool, signing: SigningState)
    ensures var p := PlanRepositoryFor(name, tree, manifest, managedRemote, observed, deployment, missingBindings, signing);
            && (p.action == Create <==> p.action != Noop && observed.native == "")
            && (p.action == Update <==> p.action != Noop && observed.native != "")
            && p.name == name && p.desiredTree == tree && p.desiredManifest == manifest && p.managedRemote == managedRemote
            && p.observed == observed && p.deployment == deployment && (p.publicationRecords <==> missingBindings)
            && (|tree| >= 12 ==> p.changeID == name + ":" + tree[..12])
  {
  }

  /** Plan and apply converge: where the host serves a plan and the receipt is the one that was
      written for it, planning the same again is a noop. */
  lemma AppliedPlansAsNoop(
    planned: PlanRepository, planID: string, previous: DeploymentRecord, before: Revision, observed: Revision,
    signing: SigningState, createdAt: int, now: int)
    requires Serves(planned, planID, observed) && ValidDigest(planned.desiredTree)
    requires planned.changeID == ChangeIDFor(planned.name, planned.desiredTree)
    ensures var receipt := DeploymentRecordFor(planned, previous, before, signing, observed.native, planID, createdAt, now);
            PlanRepositoryFor(planned.name, planned.desiredTree, planned.desiredManifest, planned.managedRemote, observed, receipt,
                              false, signing).action == Noop
  {
  }

  // ----- plan and apply agree -----

  /** A plan applied at once, against what it was made from, is never refused for its
      own metadata, and a repository it leaves alone is current. */
  lemma FreshPlanIsAccepted(
    name: string, tree: string, manifest: string, managedRemote: bool, observed: Revision, deployment: DeploymentRecord,
    planID: string, facts: Facts)
    requires facts.WellFormed() && facts.matchesPlan && !facts.ledgerCommitted
    requires ValidateTransition(facts.repository, facts.keys, deployment, observed, facts.now, facts.trust).Ok?
    ensures var signing := SigningStateOf(facts.repository, facts.keys).value;
            var planned := PlanRepositoryFor(name, tree, manifest, managedRemote, observed, deployment,
                                             facts.missingBindings, signing);
            var r := PrepareRepository(planned, planID, deployment, observed, facts);
            r.Ok? && (planned.action == Noop ==> r.value.current)
  {
  }

  /** A repository whose authorization is skipped as a noop always prepares as current. */
  lemma NoopIsCurrent(
    planned: PlanRepository, planID: string, deployment: DeploymentRecord, observed: Revision, facts: Facts)
    requires facts.WellFormed() && planned.action == Noop
    ensures var r := PrepareRepository(planned, planID, deployment, observed, facts);
            r.Ok? ==> r.value.current && observed == planned.observed
  {
  }

  // ----- re-running after a crash -----

  /** What the host reports once it committed this plan's tree. A managed remote
      carries the plan's identity; a local directory reports the tree only. */
  predicate Serves(planned: PlanRepository, planID: string, observed: Revision) {
    && observed.native != "" && observed.tree == planned.desiredTree
    && (if planned.managedRemote then
          && observed.planID == planID && observed.changeID == planned.changeID
          && observed.manifest == planned.desiredManifest
        else observed.manifest == "")
  }

  /** The receipt on disk is the one the plan saw, or the one this plan wrote. */
  predicate ReceiptOf(
    planned: PlanRepository, planID: string, deployment: DeploymentRecord, observed: Revision, signing: SigningState)
  {
    deployment == planned.deployment || DeploymentApplied(planned, planID, deployment, observed, signing)
  }

  /** Whatever a run left behind, preparing again after the commit gives a current
      repository or a refusal; it never asks for a second commit. */
  lemma CommittedIsNeverRecommitted(
    planned: PlanRepository, planID: string, deployment: DeploymentRecord, observed: Revision, facts: Facts)
    requires facts.WellFormed() && planned.action != Noop && Serves(planned, planID, observed)
    ensures var r := PrepareRepository(planned, planID, deployment, observed, facts);
            r.Ok? ==> r.value.current
  {
  }

  /** On a host that reports trees only, a plan for the tree already served writes its
      receipt and commits nothing. */
  lemma SameTreeIsCurrent(
    planned: PlanRepository, planID: string, deployment: DeploymentRecord, observed: Revision, facts: Facts)
    requires facts.WellFormed() && !planned.managedRemote && planned.observed.tree == planned.desiredTree
    ensures var r := PrepareRepository(planned, planID, deployment, observed, facts);
            r.Ok? ==> r.value.current
  {
  }

  /** A retry, while the host serves what the plan observed or already the plan, is accepted
      exactly when the signing guard still accepts, the receipt is the plan's, and the plan
      had a reason to publish other than bindings the ledger now holds. */
  lemma RetryIsAccepted(
    planned: PlanRepository, planID: string, deployment: DeploymentRecord, observed: Revision, facts: Facts)
    requires facts.WellFormed() && facts.matchesPlan && LedgerConsistent(planned, facts)
    requires planned.action == ActionFor(true, planned.observed)
    requires planned.changeID == ChangeIDFor(planned.name, planned.desiredTree)
    requires observed == planned.observed || MatchesApplied(planned, planID, observed)
    ensures var guard := ValidateTransition(facts.repository, facts.keys, deployment, planned.observed, facts.now, facts.trust);
            PrepareRepository(planned, planID, deployment, observed, facts).Ok? <==>
              && guard.Ok?
              && ReceiptOf(planned, planID, deployment, observed, guard.value)
              && (facts.missingBindings
                  || OutOfDate(planned.observed, planned.deployment, planned.desiredTree, planned.desiredManifest,
                               planned.managedRemote, guard.value))
  {
  }

  /** Writing the receipt again changes nothing, so a completed plan can be re-run. */
  lemma ReceiptIsStable(
    planned: PlanRepository, planID: string, previous: DeploymentRecord, before: Revision, observed: Revision,
    signing: SigningState, createdAt: int, now: int, later: int)
    requires Serves(planned, planID, observed)
    ensures var record := DeploymentRecordFor(planned, previous, before, signing, observed.native, planID, createdAt, now);
            && DeploymentApplied(planned, planID, record, observed, signing)
            && DeploymentRecordFor(planned, record, observed, signing, observed.native, planID, createdAt, later) == record
  {
  }

  /** The family the retry refuses: the plan only had bindings to record, and the ledger now
      holds them. Whatever the host serves and whatever the receipt says, before the first
      commit or after it, the plan cannot be applied again. */
  lemma LedgerOnlyPlanCannotBeRetried(
    planned: PlanRepository, planID: string, deployment: DeploymentRecord, observed: Revision, facts: Facts, signing: SigningState)
    requires facts.WellFormed() && SigningStateOf(facts.repository, facts.keys) == Ok(signing)
    requires planned == PlanRepositoryFor(planned.name, planned.desiredTree, planned.desiredManifest, planned.managedRemote,
                                          planned.observed, planned.deployment, true, signing)
    requires !OutOfDate(planned.observed, planned.deployment, planned.desiredTree, planned.desiredManifest,
                        planned.managedRemote, signing)
    requires facts.ledgerCommitted && !facts.missingBindings
    ensures planned.action != Noop && planned.publicationRecords
    ensures PrepareRepository(planned, planID, deployment, observed, facts).Err?
  {
  }

  // ----- any number of interrupted runs of one plan -----

  /** One repository while only this plan acts on it. `commits` and `restores` count
      the host's successful operations. */
  datatype Site = Site(live: Revision, receipt: DeploymentRecord, ledger: bool, commits: nat, restores: nat)

  /** How far a run gets. A run that passes preparation either stops before any host
      effect, or commits (or verifies what is already committed) and then is cut off,
      fails its probe and restores, or writes the receipt. */
  datatype Outcome =
    | StopsBeforePublication(recordsLedger: bool)
    | CutOffAfterCommit(committed: Revision)
    | ProbeFails(committed: Revision, restored: Revision)
    | Completes(committed: Revision, now: int)

  /** A restore puts back what the commit displaced, under its own or a new revision. */
  predicate Restores(planned: PlanRepository, committed: Revision, restored: Revision) {
    && restored.native != committed.native
    && restored.tree == planned.observed.tree && restored.planID == planned.observed.planID
  }

  /** The plan changes something a host can tell, and its identity is new. */
  predicate NewPlan(planned: PlanRepository, planID: string) {
    && planned.action != Noop
    && (planned.observed.tree != planned.desiredTree || planned.managedRemote)
    && planned.observed.planID != planID && planned.deployment.planID != planID
  }

  ghost predicate Possible(planned: PlanRepository, planID: string, site: Site, facts: Facts, outcome: Outcome) {
    && facts.WellFormed()
    && facts.matchesPlan && facts.ledgerCommitted == site.ledger
    && match PrepareRepository(planned, planID, site.receipt, site.live, facts)
       case Err(_) => outcome.StopsBeforePublication? && !outcome.recordsLedger
       case Ok(item) =>
         match outcome
         case StopsBeforePublication(_) => true
         case CutOffAfterCommit(committed) => !item.current && Serves(planned, planID, committed)
         case ProbeFails(committed, restored) =>
           && (if item.current then committed == site.live && site.live.restoreID != ""
               else Serves(planned, planID, committed))
           && Restores(planned, committed, restored)
         case Completes(committed, _) =>
           if item.current then committed == site.live else Serves(planned, planID, committed)
  }

  /** The effect of a run: a commit replaces the revision the plan observed, a restore
      the revision just probed, and a completed run writes the receipt. */
  function After(planned: PlanRepository, planID: string, site: Site, facts: Facts, createdAt: int, outcome: Outcome): Site
    requires facts.WellFormed()
  {
    match PrepareRepository(planned, planID, site.receipt, site.live, facts)
    case Err(_) => site
    case Ok(item) =>
      var own := if item.current then 0 else 1;
      match outcome
      case StopsBeforePublication(recordsLedger) => site.(ledger := site.ledger || recordsLedger)
      case CutOffAfterCommit(committed) => site.(live := committed, ledger := true, commits := site.commits + own)
      case ProbeFails(_, restored) =>
        site.(live := restored, ledger := true, commits := site.commits + own, restores := site.restores + 1)
      case Completes(committed, now) =>
        site.(live := committed, ledger := true, commits := site.commits + own,
              receipt := DeploymentRecordFor(planned, site.receipt, site.live, item.signing, committed.native, planID,
                                             createdAt, now))
  }

  datatype Run = Run(facts: Facts, outcome: Outcome)

  ghost predicate PossibleAll(planned: PlanRepository, planID: string, site: Site, createdAt: int, runs: seq<Run>)
    decreases |runs|
  {
    runs == [] ||
    (&& Possible(planned, planID, site, runs[0].facts, runs[0].outcome)
     && PossibleAll(planned, planID, After(planned, planID, site, runs[0].facts, createdAt, runs[0].outcome), createdAt, runs[1..]))
  }

  ghost function AfterAll(planned: PlanRepository, planID: string, site: Site, createdAt: int, runs: seq<Run>): Site
    requires PossibleAll(planned, planID, site, createdAt, runs)
    decreases |runs|
  {
    if runs == [] then site
    else AfterAll(planned, planID, After(planned, planID, site, runs[0].facts, createdAt, runs[0].outcome), createdAt, runs[1..])
  }

  /** Either nothing of this plan is on the host, or exactly one unrestored commit is;
      and the receipt names a revision of this plan only while that revision is live. */
  ghost predicate OneCommit(planned: PlanRepository, planID: string, site: Site) {
    && site.restores <= site.commits <= site.restores + 1
    && (if site.commits == site.restores then
          && site.live.tree == planned.observed.tree && site.live.planID == planned.observed.planID
          && (site.receipt == planned.deployment || site.receipt.native != site.live.native)
        else Serves(planned, planID, site.live))
  }

  /** A run commits only if every earlier commit of the plan was restored. */
  lemma RunCommitsOnce(planned: PlanRepository, planID: string, site: Site, createdAt: int, run: Run)
    requires NewPlan(planned, planID) && OneCommit(planned, planID, site)
    requires Possible(planned, planID, site, run.facts, run.outcome)
    ensures var after := After(planned, planID, site, run.facts, createdAt, run.outcome);
            && OneCommit(planned, planID, after)
            && (after.commits > site.commits ==> site.commits == site.restores && site.live == planned.observed)
            && (run.outcome.Completes? ==> after.receipt.native == after.live.native && after.receipt.planID == planID
                                           && after.commits == after.restores + 1)
  {
  }

  /** However often the plan is run and wherever each run is cut off, no repository
      holds two commits of it, and none is committed again while one stands. */
  lemma {:induction false} RetriesCommitOnce(planned: PlanRepository, planID: string, site: Site, createdAt: int, runs: seq<Run>)
    requires NewPlan(planned, planID) && OneCommit(planned, planID, site)
    requires PossibleAll(planned, planID, site, createdAt, runs)
    ensures OneCommit(planned, planID, AfterAll(planned, planID, site, createdAt, runs))
    decreases |runs|
  {
    if runs != [] {
      RunCommitsOnce(planned, planID, site, createdAt, runs[0]);
      RetriesCommitOnce(planned, planID, After(planned, planID, site, runs[0].facts, createdAt, runs[0].outcome), createdAt, runs[1..]);
    }
  }
}
