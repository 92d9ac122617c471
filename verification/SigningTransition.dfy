/** Signing state of a repository and the guard every deployment passes
    (engine/signing.go, internal/state/store.go). */
module SigningTransition {
  import opened Wrappers
  import opened Records

  const HOUR := 3600
  const MINIMUM_SIGNING_REFRESH := 7 * 24 * HOUR
  const NANOS_PER_SECOND := 1_000_000_000
  const TWO_TO_63 := 0x8000_0000_0000_0000
  const TWO_TO_64 := 0x1_0000_0000_0000_0000

  /** Timestamps are `None` where the manifest holds text that does not parse. */
  datatype SigningKey = SigningKey(fingerprint: string, createdAt: Option<int>, expiresAt: Option<int>)
  datatype Rotation = Rotation(successor: string, phase: Phase, minimumRefresh: int)
  datatype Repository = Repository(signingKeys: seq<string>, keyring: string, rotation: Option<Rotation>)

  type Keys = map<string, SigningKey>

  datatype Refusal =
    | InvalidSigningState
    | UnknownKey
    | InvalidKeyValidity
    | KeysExpireDuringRotation
    | RotationBeforeDeployment
    | HostDiffersFromReceipt
    | RemovesSigning
    | KeyringMoved
    | SkipsPhaseOrWindow

  predicate ValidKey(key: SigningKey) {
    && key.fingerprint != ""
    && key.createdAt.Some? && key.expiresAt.Some? && key.createdAt.value < key.expiresAt.value
  }

  /** What LoadManifest accepts of a signed repository: keys with a validity and
      distinct fingerprints, one active key, a keyring path, and a rotation to
      another key that names a phase and waits at least seven days. */
  ghost predicate ValidManifest(repository: Repository, keys: Keys) {
    && (forall name | name in keys :: ValidKey(keys[name]))
    && (forall n1, n2 | n1 in keys && n2 in keys && n1 != n2 :: keys[n1].fingerprint != keys[n2].fingerprint)
    && if repository.signingKeys == [] then
         repository.keyring == "" && repository.rotation.None?
       else
         && |repository.signingKeys| == 1
         && repository.signingKeys[0] in keys
         && repository.keyring != ""
         && (repository.rotation.Some? ==>
               var rotation := repository.rotation.value;
               && rotation.successor != repository.signingKeys[0]
               && rotation.successor in keys
               && rotation.phase != Stable
               && MINIMUM_SIGNING_REFRESH <= rotation.minimumRefresh < TWO_TO_63)
  }

  /** repositorySigningState followed by repositoryDeploymentSigningState */
  function SigningStateOf(repository: Repository, keys: Keys): (r: Result<SigningState, Refusal>)
  {
    if repository.signingKeys == [] then
      Ok(UNSIGNED)
    else if |repository.signingKeys| != 1 || repository.keyring == "" then
      Err(InvalidSigningState)
    else
      var base := repository.signingKeys[0];
      match repository.rotation
      case None =>
        if base !in keys then Err(UnknownKey)
        else Ok(SigningState(keys[base].fingerprint, [keys[base].fingerprint], repository.keyring, Stable, 0))
      case Some(Rotation(successor, phase, minimumRefresh)) =>
        if base !in keys || successor !in keys then Err(UnknownKey)
        else
          var trusted := [keys[base].fingerprint, keys[successor].fingerprint];
          Ok(SigningState(if phase == Activated then trusted[1] else trusted[0],
                          trusted, repository.keyring, phase, minimumRefresh))
  }

  // ----- durations -----

  /** The value a 64-bit signed integer keeps of x. */
  function Wrap64(x: int): (r: int)
    ensures -TWO_TO_63 <= r < TWO_TO_63
    ensures -TWO_TO_63 <= x < TWO_TO_63 ==> r == x
  {
    (x + TWO_TO_63) % TWO_TO_64 - TWO_TO_63
  }

  /** time.Duration(seconds) * time.Second, in nanoseconds. */
  function Duration(seconds: int): int {
    Wrap64(seconds * NANOS_PER_SECOND)
  }

  /** Instant `at` is before instant `base` plus a duration in nanoseconds. */
  predicate BeforeSum(at: int, base: int, nanos: int) {
    at * NANOS_PER_SECOND < base * NANOS_PER_SECOND + nanos
  }

  /** The whole seconds a deployed minimum refresh really holds a transition back. */
  function WaitSeconds(minimumRefresh: int): int {
    (Duration(minimumRefresh) + NANOS_PER_SECOND - 1) / NANOS_PER_SECOND
  }

  /** The longest refresh whose duration is representable. */
  const MAX_REFRESH := 9_223_372_036

  /** A refresh is waited out to the second if and only if it is at most 292 years. */
  lemma WaitIsRefresh(minimumRefresh: int)
    requires 0 <= minimumRefresh
    ensures WaitSeconds(minimumRefresh) == minimumRefresh <==> minimumRefresh <= MAX_REFRESH
  {
    assert Duration(MAX_REFRESH + 1) == -9_223_372_036_709_551_616;
  }

  /** The first refresh beyond that wraps to a negative duration; later ones wrap to any. */
  lemma OverflowingRefreshIsNotWaited()
    ensures WaitSeconds(MAX_REFRESH + 1) < 0
  {
  }

  lemma WaitMeaning(at: int, base: int, minimumRefresh: int)
    ensures !BeforeSum(at, base, Duration(minimumRefresh)) <==> base + WaitSeconds(minimumRefresh) <= at
  {
    var nanos := Duration(minimumRefresh);
    var wait := WaitSeconds(minimumRefresh);
    assert (wait - 1) * NANOS_PER_SECOND < nanos <= wait * NANOS_PER_SECOND;
  }

  // ----- the guard -----

  /** validateRotationKeyValidity */
  function ValidateRotationKeyValidity(repository: Repository, keys: Keys, at: int): (r: Result<(), Refusal>)
    requires repository.rotation.Some? ==> repository.signingKeys != []
  {
    match repository.rotation
    case None => Ok(())
    case Some(Rotation(successor, phase, minimumRefresh)) =>
      var base := repository.signingKeys[0];
      if base !in keys || successor !in keys || keys[base].expiresAt.None? ||
         keys[successor].createdAt.None? || keys[successor].expiresAt.None? then
        Err(InvalidKeyValidity)
      else
        var minimum := Duration(minimumRefresh);
        var twoHours := 2 * HOUR * NANOS_PER_SECOND;
        var baseExpires := keys[base].expiresAt.value;
        var successorCreated := keys[successor].createdAt.value;
        var successorExpires := keys[successor].expiresAt.value;
        match phase
        case Introducing =>
          if BeforeSum(baseExpires, at, Wrap64(minimum + twoHours))
             || at * NANOS_PER_SECOND + minimum < successorCreated * NANOS_PER_SECOND
             || BeforeSum(successorExpires, at, Wrap64(Wrap64(2 * minimum) + twoHours))
          then Err(KeysExpireDuringRotation)
          else Ok(())
        case Activated =>
          if BeforeSum(successorExpires, at, Wrap64(minimum + twoHours)) then Err(KeysExpireDuringRotation)
          else Ok(())
        case Stable => Ok(())
  }

  predicate HostServesReceipt(deployment: DeploymentRecord, observed: Revision) {
    && deployment.native == observed.native
    && deployment.tree == observed.tree
    && (deployment.manifest == "" || observed.manifest == "" || deployment.manifest == observed.manifest)
  }

  /** The deployed state has been trusted for its own minimum refresh. */
  predicate TransitionReady(deployment: DeploymentRecord, at: int, trustNotBefore: Option<int>) {
    && trustNotBefore.Some?
    && MINIMUM_SIGNING_REFRESH <= deployment.signing.minimumRefresh
    && !BeforeSum(at, trustNotBefore.value, Duration(deployment.signing.minimumRefresh))
  }

  /** The three moves of a rotation. */
  predicate AuthorizedMove(deployed: SigningState, desired: SigningState, ready: bool) {
    match desired.phase
    case Introducing =>
      && deployed.phase == Stable && deployed.minimumRefresh == 0 && deployed.active == desired.active
      && deployed.trusted == (if desired.trusted == [] then [] else desired.trusted[..1])
    case Activated =>
      && deployed.phase == Introducing && deployed.minimumRefresh == desired.minimumRefresh
      && |desired.trusted| == 2 && deployed.active == desired.trusted[0] && desired.active == desired.trusted[1]
      && deployed.trusted == desired.trusted && ready
    case Stable =>
      && deployed.phase == Activated && |deployed.trusted| == 2 && |desired.trusted| == 1
      && deployed.active == desired.active && desired.trusted[0] == desired.active
      && deployed.trusted[1] == desired.active && ready
  }

  /** validateRepositorySigningTransition: the signing state the deployment may take live. */
  function ValidateTransition(
    repository: Repository, keys: Keys, deployment: DeploymentRecord, observed: Revision,
    at: int, trustNotBefore: Option<int>): (r: Result<SigningState, Refusal>)
    requires repository.rotation.Some? ==> repository.signingKeys != []
    ensures r.Ok? ==> SigningStateOf(repository, keys) == r
  {
    var desired :- SigningStateOf(repository, keys);
    var _ :- ValidateRotationKeyValidity(repository, keys, at);
    if deployment.native == "" then
      if desired.phase != Stable then Err(RotationBeforeDeployment) else Ok(desired)
    else if DeploymentSigningMatches(deployment, desired) then Ok(desired)
    else if !HostServesReceipt(deployment, observed) then Err(HostDiffersFromReceipt)
    else if !desired.Signed() then Err(RemovesSigning)
    else if deployment.signing.Signed() && deployment.signing.keyring != desired.keyring then Err(KeyringMoved)
    else if !deployment.signing.Signed() && desired.phase == Stable then Ok(desired)
    else if AuthorizedMove(deployment.signing, desired, TransitionReady(deployment, at, trustNotBefore)) then Ok(desired)
    else Err(SkipsPhaseOrWindow)
  }

  function PhaseAfter(phase: Phase): Phase {
    match phase case Stable => Introducing case Introducing => Activated case Activated => Stable
  }

  /** What the guard lets a signed deployment change to: one phase further under the same
      keyring path, signed by a key its clients already trust and trusting the key that
      signed before, from a host that still serves the receipt; and, except to introduce a
      key, only after the deployed refresh was waited for. */
  lemma AcceptedMove(
    repository: Repository, keys: Keys, deployment: DeploymentRecord, observed: Revision, at: int, trustNotBefore: Option<int>)
    requires ValidManifest(repository, keys)
    requires deployment.native != "" && deployment.signing.Signed()
    requires var r := ValidateTransition(repository, keys, deployment, observed, at, trustNotBefore);
             r.Ok? && deployment.signing != r.value
    ensures var next := ValidateTransition(repository, keys, deployment, observed, at, trustNotBefore).value;
            var deployed := deployment.signing;
            && HostServesReceipt(deployment, observed)
            && next.Signed() && next.keyring == deployed.keyring && next.phase == PhaseAfter(deployed.phase)
            && next.active in deployed.trusted && deployed.active in next.trusted
            && (next.phase != Introducing ==>
                  && trustNotBefore.Some? && MINIMUM_SIGNING_REFRESH <= deployed.minimumRefresh
                  && trustNotBefore.value + WaitSeconds(deployed.minimumRefresh) <= at)
  {
    if trustNotBefore.Some? {
      WaitMeaning(at, trustNotBefore.value, deployment.signing.minimumRefresh);
    }
  }
}
