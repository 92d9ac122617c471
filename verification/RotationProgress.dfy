/** What keeps a repository going: a lost receipt does not block it, and publishing without a
    change of keys keeps the recorded trust clock. The clock the guard goes by is another
    one: it is never before the last receipt's commit, so a repository that publishes more
    often than its refresh does not get past it. */
module RotationProgress {
  import opened Wrappers
  import opened Records
  import opened SigningTransition
  import opened GuardExactness
  import opened RotationSafety

  // ----- the recorded clock -----

  /** The receipt's revision is the one that was served when the publication was prepared. */
  predicate ServedBefore(previous: DeploymentRecord, observed: Revision) {
    && observed.native == previous.native && observed.tree == previous.tree
    && (observed.manifest == "" || observed.manifest == previous.manifest)
  }

  /** For every plan, receipt and publication: the clock of a signed state is kept if and only if
      the receipt has one, records the same signing state, and its revision was still served;
      in every other case it starts anew. Which plan published plays no part. */
  lemma {:induction false} ClockIsExact(
    planned: PlanRepository, previous: DeploymentRecord, observed: Revision, signing: SigningState,
    native: string, planID: string, deployedAt: int, now: int)
    ensures var kept := previous.trustSince.Some? && previous.signing == signing && ServedBefore(previous, observed);
            DeploymentRecordFor(planned, previous, observed, signing, native, planID, deployedAt, now).trustSince ==
              if signing.active == "" then None else if kept then previous.trustSince else Some(now)
  {
  }

  /** The rest of a receipt: what was planned, what was published, and by which plan. */
  lemma {:induction false} ReceiptIsExact(
    planned: PlanRepository, previous: DeploymentRecord, observed: Revision, signing: SigningState,
    native: string, planID: string, deployedAt: int, now: int)
    ensures var record := DeploymentRecordFor(planned, previous, observed, signing, native, planID, deployedAt, now);
            && record.repository == planned.name && record.changeID == planned.changeID
            && record.tree == planned.desiredTree && record.manifest == planned.desiredManifest
            && record.native == native && record.planID == planID && record.deployedAt == deployedAt && record.signing == signing
  {
  }

  // ----- after a lost receipt -----

  /** Whatever is live and whether or not a receipt is pending, a repository whose signing
      state is the recorded one may publish again, with any new native revision, exactly while the
      keys of its rotation are valid. */
  lemma {:induction false} LostReceiptDoesNotBlock(w: World, repository: Repository, keys: Keys, planned: PlanRepository, planID: string, native: string)
    requires ValidManifest(repository, keys)
    requires if w.receipt.native == "" then repository.rotation.None? else Unchanged(repository, keys, w.receipt)
    requires native != "" && native !in w.named && (w.byTree ==> native == planned.desiredTree && native != Observe(w).native)
    ensures Enabled(w, Publish(repository, keys, w.now, planned, planID, w.now, native)) <==>
              ValidateRotationKeyValidity(repository, keys, w.now).Ok?
  {
    GuardIsExact(repository, keys, w.receipt, Observe(w), w.now, TrustNotBefore(w, repository));
  }

  // ----- upkeep -----

  /** Time passes, something is published without a change of keys, and its receipt is written. */
  datatype Round = Round(wait: nat, repository: Repository, keys: Keys, planned: PlanRepository, planID: string, native: string, gitTime: int)

  /** The recorded state is live. */
  predicate Settled(w: World, signing: SigningState) {
    && w.live.Some? && w.live.value.signing == signing && w.pending.None?
    && signing.Signed() && w.receipt.signing == signing && w.receipt.trustSince.Some? && w.receipt.native != ""
    && Serving(w.receipt, w.live.value.revision)
    && (w.live.value.revision.manifest == "" || w.live.value.revision.manifest == w.receipt.manifest)
  }

  function PublicationOf(w: World, r: Round): Step {
    Publish(r.repository, r.keys, w.now, r.planned, r.planID, w.now, r.native)
  }

  ghost predicate Upkeeps(w: World, signing: SigningState, r: Round) {
    var later := Next(w, Tick(r.wait));
    && Enabled(later, PublicationOf(later, r))
    && Guard(later, r.repository, r.keys, later.now) == Ok(signing)
  }

  ghost function AfterRound(w: World, signing: SigningState, r: Round): World
    requires Upkeeps(w, signing, r)
  {
    var later := Next(w, Tick(r.wait));
    Next(Next(later, PublicationOf(later, r)), WriteReceipt(r.gitTime))
  }

  /** One round keeps the recorded clock. */
  lemma {:induction false} RoundKeepsClock(w: World, signing: SigningState, r: Round)
    requires Settled(w, signing) && Upkeeps(w, signing, r)
    ensures var after := AfterRound(w, signing, r);
            && Settled(after, signing) && after.receipt.trustSince == w.receipt.trustSince
            && after.committedAt == r.gitTime && after.now == w.now + r.wait
  {
    var later := Next(w, Tick(r.wait));
    ClockIsExact(r.planned, w.receipt, Observe(later), signing, r.native, r.planID, later.now, later.now);
  }

  /** Nothing stands in the way of a round: the manifest unchanged, its keys valid and a new
      native revision are enough. */
  lemma {:induction false} RoundIsPossible(w: World, signing: SigningState, r: Round)
    requires Settled(w, signing) && ValidManifest(r.repository, r.keys) && Unchanged(r.repository, r.keys, w.receipt)
    requires ValidateRotationKeyValidity(r.repository, r.keys, w.now + r.wait).Ok?
    requires r.native != "" && r.native !in w.named && (w.byTree ==> r.native == r.planned.desiredTree && r.native != Observe(w).native)
    ensures Upkeeps(w, signing, r)
  {
    var later := Next(w, Tick(r.wait));
    GuardIsExact(r.repository, r.keys, later.receipt, Observe(later), later.now, TrustNotBefore(later, r.repository));
    UnchangedMeans(r.repository, r.keys, w.receipt);
  }

  ghost predicate UpkeepsAll(w: World, signing: SigningState, rounds: seq<Round>)
    decreases |rounds|
  {
    rounds == [] || (Upkeeps(w, signing, rounds[0]) && UpkeepsAll(AfterRound(w, signing, rounds[0]), signing, rounds[1..]))
  }

  ghost function AfterAll(w: World, signing: SigningState, rounds: seq<Round>): World
    requires UpkeepsAll(w, signing, rounds)
    decreases |rounds|
  {
    if rounds == [] then w else AfterAll(AfterRound(w, signing, rounds[0]), signing, rounds[1..])
  }

  /** However many publications lie between, the recorded clock is that of the first receipt; the
      git time is that of the last. */
  lemma {:induction false} UpkeepKeepsClock(w: World, signing: SigningState, rounds: seq<Round>)
    requires Settled(w, signing) && UpkeepsAll(w, signing, rounds)
    ensures var after := AfterAll(w, signing, rounds);
            && Settled(after, signing) && after.receipt.trustSince == w.receipt.trustSince && w.now <= after.now
            && after.committedAt == if rounds == [] then w.committedAt else rounds[|rounds| - 1].gitTime
    decreases |rounds|
  {
    if rounds != [] {
      RoundKeepsClock(w, signing, rounds[0]);
      var next := AfterRound(w, signing, rounds[0]);
      UpkeepKeepsClock(next, signing, rounds[1..]);
      assert |rounds| > 1 ==> rounds[1..][|rounds| - 2] == rounds[|rounds| - 1];
    }
  }

  /** The manifest asks for the phase after the recorded one. */
  predicate AsksForNext(repository: Repository, keys: Keys, signing: SigningState)
    requires ValidManifest(repository, keys)
  {
    && repository.signingKeys != [] && repository.keyring == signing.keyring
    && match repository.rotation
       case None => signing.phase == Activated && |signing.trusted| == 2
                    && signing.trusted[1] == signing.active == Print(keys, repository.signingKeys[0])
       case Some(Rotation(name, phase, refresh)) =>
         && phase == Activated && signing.phase == Introducing && signing.minimumRefresh == refresh
         && signing.active == Print(keys, repository.signingKeys[0]) && signing.trusted == [signing.active, Print(keys, name)]
  }

  /** After any number of rounds the next phase is accepted if and only if the refresh was waited
      for both since the first receipt's clock and since the last receipt's commit. */
  lemma {:induction false} NextPhaseAfterUpkeep(w: World, signing: SigningState, rounds: seq<Round>, repository: Repository, keys: Keys)
    requires Settled(w, signing) && UpkeepsAll(w, signing, rounds) && signing.minimumRefresh >= MINIMUM_SIGNING_REFRESH
    requires ValidManifest(repository, keys) && AsksForNext(repository, keys, signing)
    ensures var after := AfterAll(w, signing, rounds);
            var wait := WaitSeconds(signing.minimumRefresh);
            Guard(after, repository, keys, after.now).Ok? <==>
              && ValidateRotationKeyValidity(repository, keys, after.now).Ok?
              && w.receipt.trustSince.value + wait <= after.now && after.committedAt + wait <= after.now
  {
    UpkeepKeepsClock(w, signing, rounds);
    var after := AfterAll(w, signing, rounds);
    GuardIsExact(repository, keys, after.receipt, Observe(after), after.now, TrustNotBefore(after, repository));
  }

  /** So a repository that publishes again within every refresh, with truthful git times, is
      refused its next phase at every such moment, however long it has been introducing. */
  lemma {:induction false} FrequentPublishingStarves(
    w: World, signing: SigningState, rounds: seq<Round>, wait: nat, repository: Repository, keys: Keys)
    requires Settled(w, signing) && UpkeepsAll(w, signing, rounds) && signing.minimumRefresh >= MINIMUM_SIGNING_REFRESH
    requires rounds != [] && wait < WaitSeconds(signing.minimumRefresh)
    requires AfterAll(w, signing, rounds).committedAt == AfterAll(w, signing, rounds).now
    requires ValidManifest(repository, keys) && AsksForNext(repository, keys, signing)
    ensures var later := Next(AfterAll(w, signing, rounds), Tick(wait)); Guard(later, repository, keys, later.now).Err?
  {
    UpkeepKeepsClock(w, signing, rounds);
    var after := AfterAll(w, signing, rounds);
    var later := Next(after, Tick(wait));
    GuardIsExact(repository, keys, later.receipt, Observe(later), later.now, TrustNotBefore(later, repository));
  }
}
