/** What the deployment guard accepts, said of the manifest's keys and the receipt's fields
    (validateRepositorySigningTransition in engine/signing.go). */
module GuardExactness {
  import opened Wrappers
  import opened Records
  import opened SigningTransition

  /** The fingerprint under a key's name. */
  function Print(keys: Keys, name: string): string
    requires name in keys
  {
    keys[name].fingerprint
  }

  /** The receipt records exactly the signing state the manifest describes. */
  predicate Unchanged(repository: Repository, keys: Keys, deployment: DeploymentRecord)
    requires forall name | name in repository.signingKeys :: name in keys
    requires repository.rotation.Some? ==> repository.rotation.value.successor in keys
  {
    var s := deployment.signing;
    if repository.signingKeys == [] then s.active == "" && s.trusted == [] && s.keyring == "" && s.phase == Stable && s.minimumRefresh == 0
    else
      var base := Print(keys, repository.signingKeys[0]);
      && s.keyring == repository.keyring && deployment.trustSince.Some?
      && match repository.rotation
         case None => s.active == base && s.trusted == [base] && s.phase == Stable && s.minimumRefresh == 0
         case Some(Rotation(name, phase, refresh)) =>
           var successor := Print(keys, name);
           && s.trusted == [base, successor] && s.phase == phase && s.minimumRefresh == refresh
           && s.active == (if phase == Activated then successor else base)
  }

  /** The host serves what the receipt records; manifests count where both are known. */
  predicate Serving(deployment: DeploymentRecord, observed: Revision) {
    && observed.native == deployment.native && observed.tree == deployment.tree
    && (observed.manifest == "" || deployment.manifest == "" || observed.manifest == deployment.manifest)
  }

  /** The deployed refresh is no shorter than seven days and was waited for. */
  predicate Waited(deployment: DeploymentRecord, at: int, trustNotBefore: Option<int>) {
    && trustNotBefore.Some? && deployment.signing.minimumRefresh >= 604800
    && trustNotBefore.value + WaitSeconds(deployment.signing.minimumRefresh) <= at
  }

  /** The changes of a signed repository: a first signing, or one phase of a rotation under the
      same keyring path. */
  predicate Moves(repository: Repository, keys: Keys, deployment: DeploymentRecord, at: int, trustNotBefore: Option<int>)
    requires repository.signingKeys != [] && forall name | name in repository.signingKeys :: name in keys
    requires repository.rotation.Some? ==> repository.rotation.value.successor in keys
  {
    var s := deployment.signing;
    var base := Print(keys, repository.signingKeys[0]);
    if s.active == "" then repository.rotation.None?
    else
      && s.keyring == repository.keyring
      && match repository.rotation
         case None =>
           s.phase == Activated && |s.trusted| == 2 && s.trusted[1] == base && s.active == base && Waited(deployment, at, trustNotBefore)
         case Some(Rotation(name, phase, refresh)) =>
           && s.active == base
           && (if phase == Introducing then s.phase == Stable && s.minimumRefresh == 0 && s.trusted == [base]
               else && s.phase == Introducing && s.minimumRefresh == refresh && s.trusted == [base, Print(keys, name)]
                    && Waited(deployment, at, trustNotBefore))
  }

  lemma {:induction false} UnchangedMeans(repository: Repository, keys: Keys, deployment: DeploymentRecord)
    requires ValidManifest(repository, keys)
    ensures SigningStateOf(repository, keys).Ok?
    ensures DeploymentSigningMatches(deployment, SigningStateOf(repository, keys).value) <==> Unchanged(repository, keys, deployment)
  {
  }

  /** For every manifest that loads, every receipt, observation and instant: the guard accepts
      if and only if the keys of a rotation stay valid and the repository is deployed for
      the first time without a rotation, or is unchanged, whatever the host serves, or makes
      one of the moves from a host that serves the receipt. */
  lemma {:induction false} GuardIsExact(
    repository: Repository, keys: Keys, deployment: DeploymentRecord, observed: Revision, at: int, trustNotBefore: Option<int>)
    requires ValidManifest(repository, keys)
    ensures ValidateTransition(repository, keys, deployment, observed, at, trustNotBefore).Ok? <==>
              && ValidateRotationKeyValidity(repository, keys, at).Ok?
              && (if deployment.native == "" then repository.rotation.None?
                  else
                    || Unchanged(repository, keys, deployment)
                    || (&& Serving(deployment, observed) && repository.signingKeys != []
                        && Moves(repository, keys, deployment, at, trustNotBefore)))
  {
    UnchangedMeans(repository, keys, deployment);
    var deployed := deployment.signing;
    if trustNotBefore.Some? {
      WaitMeaning(at, trustNotBefore.value, deployed.minimumRefresh);
    }
  }

  /** So an unchanged repository is accepted for as long as the keys of its rotation are valid,
      even if the host serves something else than the receipt says. */
  lemma {:induction false} UnchangedIsAccepted(
    repository: Repository, keys: Keys, deployment: DeploymentRecord, observed: Revision, at: int, trustNotBefore: Option<int>)
    requires ValidManifest(repository, keys) && deployment.native != "" && Unchanged(repository, keys, deployment)
    ensures ValidateTransition(repository, keys, deployment, observed, at, trustNotBefore).Ok? <==>
              ValidateRotationKeyValidity(repository, keys, at).Ok?
    ensures repository.rotation.None? ==> ValidateTransition(repository, keys, deployment, observed, at, trustNotBefore).Ok?
  {
    GuardIsExact(repository, keys, deployment, observed, at, trustNotBefore);
  }

  /** Refreshes whose doubled nanoseconds, with two hours added, do not wrap around. */
  const SAFE_REFRESH := 4_611_682_417

  /** The keys of a rotation are valid if the key that signs outlives its phase by two hours, the
      successor is usable when the introduction ends, and outlives the overlap that follows. */
  lemma {:induction false} KeyValidityMeans(repository: Repository, keys: Keys, at: int)
    requires ValidManifest(repository, keys) && repository.rotation.Some?
    requires repository.rotation.value.minimumRefresh <= SAFE_REFRESH
    ensures var Rotation(name, phase, refresh) := repository.rotation.value;
            var base, successor := keys[repository.signingKeys[0]], keys[name];
            ValidateRotationKeyValidity(repository, keys, at).Ok? <==>
              if phase == Introducing then
                && at + refresh + 7200 <= base.expiresAt.value
                && successor.createdAt.value <= at + refresh
                && at + 2 * refresh + 7200 <= successor.expiresAt.value
              else at + refresh + 7200 <= successor.expiresAt.value
  {
    var refresh := repository.rotation.value.minimumRefresh;
    assert Duration(refresh) == refresh * NANOS_PER_SECOND;
    assert Wrap64(2 * Duration(refresh)) == 2 * refresh * NANOS_PER_SECOND;
  }
}
