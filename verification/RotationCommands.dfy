/** The commands that move the manifest through a rotation (engine/rotation.go),
    and that each of them leads to a state the deployment guard accepts. */
module RotationCommands {
  import opened Wrappers
  import opened Records
  import opened SigningTransition

  const DAY := 24 * HOUR
  const DEFAULT_REFRESH := 30 * DAY
  const LONGEST_REFRESH := 365 * DAY
  const DEFAULT_EXPIRY := 2 * 365 * DAY

  datatype CommandError =
    | RefreshOutOfRange
    | NotSigned
    | DifferentRotation
    | SameKey
    | KeyExpires
    | NotDeployed
    | ReceiptNotCommitted
    | NoGenerator
    | NotYetValid
    | TooEarly
    | WriteFailed

  datatype CommandResult = CommandResult(active: string, trusted: seq<string>, phase: Phase,
                                         earliestAdvance: Option<int>, requiresDeploy: bool)

  /** The trust instant as the commands read it; `committedAt` is `None` when the receipt is
      not found in a commit that apply made. */
  function Authoritative(deployment: DeploymentRecord, committedAt: Option<int>): (r: Result<Option<int>, CommandError>)
    ensures r.Ok? && r.value.Some? ==> deployment.trustSince.Some? && deployment.trustSince.value <= r.value.value
  {
    match AuthoritativeTrustSince(deployment, committedAt)
    case Err(_) => Err(ReceiptNotCommitted)
    case Ok(t) => Ok(t)
  }

  /** What the guard is handed at plan time: the authority is consulted only when a
      rotation is configured or deployed. */
  predicate GuardAccepts(
    repository: Repository, keys: Keys, deployment: DeploymentRecord, committedAt: Option<int>, observed: Revision, at: int)
    requires repository.rotation.Some? ==> repository.signingKeys != []
  {
    var trust :=
      if repository.rotation.Some? || deployment.signing.phase != Stable then Authoritative(deployment, committedAt)
      else Ok(None);
    trust.Ok? && ValidateTransition(repository, keys, deployment, observed, at, trust.value).Ok?
  }

  /** rotationResult */
  function ResultFor(repository: Repository, keys: Keys, earliest: Option<int>, requiresDeploy: bool): CommandResult
    requires repository.signingKeys != []
  {
    var base := repository.signingKeys[0];
    match repository.rotation
    case None => CommandResult(base, [base], Stable, earliest, requiresDeploy)
    case Some(rotation) =>
      CommandResult(if rotation.phase == Activated then rotation.successor else base,
                    [base, rotation.successor], rotation.phase, earliest, requiresDeploy)
  }

  /** validateRotationAdvanceValidity */
  predicate AdvanceValid(repository: Repository, keys: Keys, now: int)
    requires repository.signingKeys != [] && repository.rotation.Some?
  {
    var rotation := repository.rotation.value;
    var twoHours := 2 * HOUR * NANOS_PER_SECOND;
    && repository.signingKeys[0] in keys && keys[repository.signingKeys[0]].expiresAt.Some?
    && rotation.successor in keys && keys[rotation.successor].expiresAt.Some?
    && var baseExpires := keys[repository.signingKeys[0]].expiresAt.value;
       var successorExpires := keys[rotation.successor].expiresAt.value;
       match rotation.phase
       case Introducing =>
         && !BeforeSum(baseExpires, now, twoHours)
         && !BeforeSum(successorExpires, now, Wrap64(Duration(rotation.minimumRefresh) + twoHours))
       case Activated => !BeforeSum(successorExpires, now, twoHours)
       case Stable => true
  }

  /** The state an advance moves to. */
  function Advanced(repository: Repository): Repository
    requires repository.rotation.Some?
  {
    var rotation := repository.rotation.value;
    match rotation.phase
    case Introducing => repository.(rotation := Some(rotation.(phase := Activated)))
    case Activated => repository.(signingKeys := [rotation.successor], rotation := None)
    case Stable => repository
  }

  /** The refresh asked for in nanoseconds, as whole seconds within bounds. */
  function RefreshSeconds(refresh: int): (seconds: Option<int>)
    ensures seconds.Some? ==> MINIMUM_SIGNING_REFRESH <= seconds.value <= LONGEST_REFRESH
    ensures seconds.Some? ==> seconds.value == if refresh == 0 then DEFAULT_REFRESH else refresh / NANOS_PER_SECOND
  {
    var nanos := if refresh == 0 then DEFAULT_REFRESH * NANOS_PER_SECOND else refresh;
    if nanos < MINIMUM_SIGNING_REFRESH * NANOS_PER_SECOND || nanos > LONGEST_REFRESH * NANOS_PER_SECOND
       || nanos % NANOS_PER_SECOND != 0 then None
    else Some(nanos / NANOS_PER_SECOND)
  }

  /** How writing the manifest went: it did not reach the disk, it did although an error was
      returned, or it did. */
  datatype WriteAnswer = NotWritten | Unreported | Written

  /** Every key stays, and at most the successor is new. */
  predicate KeepsKeys(before: Keys, after: Keys, successor: string) {
    after.Keys == before.Keys + {successor} && forall name | name in before :: name in after && after[name] == before[name]
  }

  /** The manifest gained a rotation to the successor, with the refresh asked for. */
  predicate Introduces(before: Repository, keysBefore: Keys, after: Repository, keysAfter: Keys, successor: string, refresh: int) {
    var minimum := if refresh == 0 then DEFAULT_REFRESH else refresh / NANOS_PER_SECOND;
    && before.rotation.None? && after == before.(rotation := Some(Rotation(successor, Introducing, minimum)))
    && MINIMUM_SIGNING_REFRESH <= minimum <= LONGEST_REFRESH && KeepsKeys(keysBefore, keysAfter, successor)
  }

  // ----- when the commands do something -----

  /** What is deployed has the signing state of the manifest. */
  ghost predicate Deployed(repository: Repository, keys: Keys, deployment: DeploymentRecord)
    requires ValidManifest(repository, keys) && repository.signingKeys != []
  {
    DeploymentSigningMatches(deployment, SigningStateOf(repository, keys).value)
  }

  /** A refresh of whole seconds between a week and a year; zero asks for thirty days. */
  predicate RefreshAllowed(refresh: int) {
    refresh == 0 || (7 * DAY * NANOS_PER_SECOND <= refresh <= 365 * DAY * NANOS_PER_SECOND && refresh % NANOS_PER_SECOND == 0)
  }

  function RefreshAsked(refresh: int): int { if refresh == 0 then 30 * DAY else refresh / NANOS_PER_SECOND }

  /** The manifest takes the key: it has a validity and a fingerprint of its own. */
  predicate Registrable(keys: Keys, key: SigningKey) {
    ValidKey(key) && forall name | name in keys :: keys[name].fingerprint != key.fingerprint
  }

  /** A signed Debian repository without a rotation, whose signing state is deployed by a receipt in
      Git; a different key, known or generated with a long enough life and a fingerprint of its
      own; and validities that cover the introduction and, for the successor, the whole rotation. */
  ghost predicate MayIntroduce(
    format: string, repository: Repository, keys: Keys, deployment: DeploymentRecord, committedAt: Option<int>,
    successor: string, refresh: int, expiresIn: int, generated: Option<SigningKey>, now: int)
    requires ValidManifest(repository, keys)
  {
    var minimum := RefreshAsked(refresh);
    && format == "deb" && repository.signingKeys != [] && RefreshAllowed(refresh)
    && successor != repository.signingKeys[0]
    && now + minimum + 2 * HOUR <= keys[repository.signingKeys[0]].expiresAt.value
    && deployment.native != "" && Deployed(repository, keys, deployment) && committedAt.Some?
    && (successor in keys ||
        (&& generated.Some? && Registrable(keys, generated.value)
         && 2 * minimum + 2 * HOUR <= (if expiresIn == 0 then 2 * 365 * DAY else expiresIn)))
    && var key := if successor in keys then keys[successor] else generated.value;
       key.createdAt.value <= now + minimum && now + 2 * minimum + 2 * HOUR <= key.expiresAt.value
  }

  /** The same request again, and a receipt in Git if what it asked for is deployed. */
  ghost predicate MayResume(
    format: string, repository: Repository, keys: Keys, deployment: DeploymentRecord, committedAt: Option<int>,
    successor: string, refresh: int)
    requires ValidManifest(repository, keys) && repository.rotation.Some?
  {
    && format == "deb" && RefreshAllowed(refresh)
    && repository.rotation.value.successor == successor && repository.rotation.value.minimumRefresh == RefreshAsked(refresh)
    && (Deployed(repository, keys, deployment) ==> committedAt.Some?)
  }

  /** The phase is deployed, by a receipt in Git, for as long as the refresh; an introduced key has
      two hours and a whole overlap left and the old one two hours, an activated one two hours. */
  ghost predicate MayAdvance(repository: Repository, keys: Keys, deployment: DeploymentRecord, committedAt: Option<int>, now: int)
    requires ValidManifest(repository, keys) && repository.rotation.Some?
  {
    var rotation := repository.rotation.value;
    var wait := Wrap64(rotation.minimumRefresh * NANOS_PER_SECOND);
    var base, successor := keys[repository.signingKeys[0]].expiresAt.value, keys[rotation.successor].expiresAt.value;
    && Deployed(repository, keys, deployment) && committedAt.Some? && deployment.trustSince.Some?
    && deployment.trustSince.value * NANOS_PER_SECOND + wait <= now * NANOS_PER_SECOND
    && committedAt.value * NANOS_PER_SECOND + wait <= now * NANOS_PER_SECOND
    && if rotation.phase == Activated then now + 2 * HOUR <= successor
       else && now + 2 * HOUR <= base
            && now * NANOS_PER_SECOND + Wrap64(wait + 2 * HOUR * NANOS_PER_SECOND) <= successor * NANOS_PER_SECOND
  }

  lemma {:induction false} MayAdvanceMeans(
    repository: Repository, keys: Keys, deployment: DeploymentRecord, committedAt: Option<int>, now: int)
    requires ValidManifest(repository, keys) && repository.rotation.Some?
    ensures MayAdvance(repository, keys, deployment, committedAt, now) <==>
              && Deployed(repository, keys, deployment) && Authoritative(deployment, committedAt).Ok?
              && (Authoritative(deployment, committedAt).value.Some? ==>
                    !BeforeSum(now, Authoritative(deployment, committedAt).value.value, Duration(repository.rotation.value.minimumRefresh)))
              && AdvanceValid(repository, keys, now)
  {
  }

  /** The workspace a command loads, changes and writes back. */
  class Workspace {
    var format: string
    var repository: Repository
    var keys: Keys
    const deployment: DeploymentRecord
    const committedAt: Option<int>

    ghost predicate Valid()
      reads this
    {
      && ValidManifest(repository, keys)
      && (deployment.native == "" ==> !deployment.signing.Signed())
    }

    /** The key a rotation introduces: a known one, or a generated one. */
    function Successor(name: string, generated: Option<SigningKey>, expiresIn: int, minimum: int, now: int): Result<SigningKey, CommandError>
      reads this
    {
      if name in keys then Ok(keys[name])
      else if generated.None? then Err(NoGenerator)
      else
        var lifetime := if expiresIn == 0 then DEFAULT_EXPIRY else expiresIn;
        if lifetime < 2 * minimum + 2 * HOUR then Err(KeyExpires)
        else Ok(generated.value)
    }

    /** A repeated request reports the rotation under way, and refuses another one. */
    function Resume(successor: string, minimum: int): Result<CommandResult, CommandError>
      reads this
      requires Valid() && repository.rotation.Some? && |repository.signingKeys| == 1
    {
      var rotation := repository.rotation.value;
      if rotation.successor != successor || rotation.minimumRefresh != minimum then Err(DifferentRotation)
      else if !DeploymentSigningMatches(deployment, SigningStateOf(repository, keys).value) then
        Ok(ResultFor(repository, keys, None, true))
      else
        var trust := Authoritative(deployment, committedAt);
        if trust.Err? then Err(trust.error)
        else
          Ok(ResultFor(repository, keys,
                       if trust.value.None? then None else Some(trust.value.value + WaitSeconds(minimum)), false))
    }

    /** The successor, if the current key outlives the introduction, what is deployed is
        what the manifest says, and the successor outlives the whole rotation. */
    function Introducible(successor: string, generated: Option<SigningKey>, expiresIn: int, minimum: int, now: int)
      : Result<SigningKey, CommandError>
      reads this
      requires Valid() && repository.rotation.None? && |repository.signingKeys| == 1
    {
      var base := repository.signingKeys[0];
      if successor == base then Err(SameKey)
      else if keys[base].expiresAt.None? || keys[base].expiresAt.value < now + minimum + 2 * HOUR then Err(KeyExpires)
      else if deployment.native == "" || !DeploymentSigningMatches(deployment, SigningStateOf(repository, keys).value) then
        Err(NotDeployed)
      else if Authoritative(deployment, committedAt).Err? then Err(ReceiptNotCommitted)
      else
        var key := Successor(successor, generated, expiresIn, minimum, now);
        if key.Err? then Err(key.error)
        else if key.value.expiresAt.None? || key.value.expiresAt.value < now + 2 * minimum + 2 * HOUR then Err(KeyExpires)
        else if key.value.createdAt.None? || now + minimum < key.value.createdAt.value then Err(NotYetValid)
        else Ok(key.value)
    }

    lemma {:induction false} MayIntroduceMeans(
      successor: string, refresh: int, expiresIn: int, generated: Option<SigningKey>, now: int)
      requires Valid() && repository.rotation.None? && |repository.signingKeys| == 1
      requires format == "deb" && RefreshSeconds(refresh).Some?
      ensures var key := Introducible(successor, generated, expiresIn, RefreshSeconds(refresh).value, now);
              MayIntroduce(format, repository, keys, deployment, committedAt, successor, refresh, expiresIn, generated, now) <==>
                key.Ok? && (successor in keys || Registrable(keys, key.value))
    {
    }

    /** RotateKey without --advance. `refresh` is in nanoseconds; `generated` is the key
        the generator finds or makes under the successor's name. Where the manifest changed
        it is the started rotation and nothing else, reported or not, and the guard accepts
        it at once. */
    method RotateKey(
      successor: string, refresh: int, expiresIn: int, generated: Option<SigningKey>, now: int, write: WriteAnswer)
      returns (r: Result<CommandResult, CommandError>)
      requires Valid()
      modifies this
      ensures Valid() && format == old(format)
      ensures r.Err? && r.error != WriteFailed ==> repository == old(repository) && keys == old(keys)
      ensures old(repository).rotation.Some? ==> repository == old(repository) && keys == old(keys)
      ensures (repository == old(repository) && keys == old(keys))
              || Introduces(old(repository), old(keys), repository, keys, successor, refresh)
      ensures r.Ok? && old(repository).rotation.None? ==>
                && Introduces(old(repository), old(keys), repository, keys, successor, refresh)
                && r.value.requiresDeploy && r.value.phase == Introducing
      ensures repository != old(repository) ==>
                forall observed | HostServesReceipt(deployment, observed) ::
                  GuardAccepts(repository, keys, deployment, committedAt, observed, now)
      ensures old(repository).rotation.None? ==>
                var may := old(MayIntroduce(format, repository, keys, deployment, committedAt, successor, refresh, expiresIn, generated, now));
                (repository != old(repository) <==> may && !write.NotWritten?) && (r.Ok? <==> may && write.Written?)
      ensures old(repository).rotation.Some? ==>
                && (r.Ok? <==> MayResume(format, repository, keys, deployment, committedAt, successor, refresh))
                && (r.Ok? ==> r.value.phase == repository.rotation.value.phase && (r.value.requiresDeploy <==> !Deployed(repository, keys, deployment)))
                && (r.Ok? && !r.value.requiresDeploy ==>
                      && r.value.earliestAdvance.Some?
                      && r.value.earliestAdvance.value - RefreshAsked(refresh) >= deployment.trustSince.value
                      && r.value.earliestAdvance.value - RefreshAsked(refresh) >= committedAt.value
                      && r.value.earliestAdvance.value - RefreshAsked(refresh) in {deployment.trustSince.value, committedAt.value})
    {
      var seconds := RefreshSeconds(refresh);
      if seconds.None? {
        return Err(RefreshOutOfRange);
      }
      if format != "deb" || |repository.signingKeys| != 1 {
        return Err(NotSigned);
      }
      if repository.rotation.Some? {
        return Resume(successor, seconds.value);
      }
      MayIntroduceMeans(successor, refresh, expiresIn, generated, now);
      var key := Introducible(successor, generated, expiresIn, seconds.value, now);
      if key.Err? {
        return Err(key.error);
      }
      r := Introduce(successor, seconds.value, generated, expiresIn, key.value, now, write);
    }

    /** The end of RotateKey: change the loaded manifest and write it. WriteManifest refuses a
        key without a validity or with a shared fingerprint. */
    method Introduce(
      successor: string, minimum: int, ghost generated: Option<SigningKey>, ghost expiresIn: int, key: SigningKey, now: int,
      write: WriteAnswer)
      returns (r: Result<CommandResult, CommandError>)
      requires Valid() && repository.rotation.None? && |repository.signingKeys| == 1
      requires MINIMUM_SIGNING_REFRESH <= minimum <= LONGEST_REFRESH
      requires Introducible(successor, generated, expiresIn, minimum, now) == Ok(key)
      modifies this
      ensures Valid() && format == old(format)
      ensures r.Err? ==> r.error == WriteFailed
      ensures r.Ok? ==> r.value.requiresDeploy && r.value.phase == Introducing
      ensures var writable := old(successor in keys || Registrable(keys, key));
              (repository != old(repository) <==> writable && !write.NotWritten?) && (r.Ok? <==> writable && write.Written?)
      ensures if repository == old(repository) then keys == old(keys)
              else && repository == old(repository).(rotation := Some(Rotation(successor, Introducing, minimum)))
                   && KeepsKeys(old(keys), keys, successor)
      ensures repository != old(repository) ==>
                forall observed | HostServesReceipt(deployment, observed) ::
                  GuardAccepts(repository, keys, deployment, committedAt, observed, now)
    {
      if write.NotWritten? || (successor !in keys && !Registrable(keys, key)) {
        return Err(WriteFailed);
      }
      keys := keys[successor := key];
      repository := repository.(rotation := Some(Rotation(successor, Introducing, minimum)));
      IntroductionAccepted(repository, keys, deployment, committedAt, now);
      if write.Unreported? {
        return Err(WriteFailed);
      }
      return Ok(ResultFor(repository, keys, None, true));
    }

    /** advanceKeyRotation. Where the manifest changed it is one phase further, reported or
        not; the guard accepts it now, and later exactly while the successor stays valid
        through the overlap. */
    method Advance(now: int, write: WriteAnswer) returns (r: Result<CommandResult, CommandError>)
      requires Valid()
      modifies this
      ensures Valid()
      ensures keys == old(keys) && format == old(format)
      ensures r.Err? && r.error != WriteFailed ==> repository == old(repository)
      ensures old(repository).rotation.None? ==>
                && repository == old(repository) && (r.Ok? <==> repository.signingKeys != [])
                && (r.Ok? ==> r.value.phase == Stable && (r.value.requiresDeploy <==> !Deployed(repository, keys, deployment)))
      ensures old(repository).rotation.Some? ==> repository == old(repository) || repository == Advanced(old(repository))
      ensures r.Ok? && old(repository).rotation.Some? ==> repository == Advanced(old(repository))
      ensures old(repository).rotation.Some? ==>
                var may := old(MayAdvance(repository, keys, deployment, committedAt, now));
                (repository != old(repository) <==> may && !write.NotWritten?) && (r.Ok? <==> may && write.Written?)
      ensures repository != old(repository) ==>
                forall observed, at | HostServesReceipt(deployment, observed) && now <= at ::
                  GuardAccepts(repository, keys, deployment, committedAt, observed, at)
                  <==> (repository.rotation.Some? ==>
                          !BeforeSum(keys[repository.rotation.value.successor].expiresAt.value, at,
                                     Wrap64(Duration(repository.rotation.value.minimumRefresh) + 2 * HOUR * NANOS_PER_SECOND)))
      ensures repository != old(repository) ==>
                forall observed | HostServesReceipt(deployment, observed) ::
                  GuardAccepts(repository, keys, deployment, committedAt, observed, now)
    {
      if repository.rotation.Some? {
        MayAdvanceMeans(repository, keys, deployment, committedAt, now);
      }
      if |repository.signingKeys| != 1 {
        return Err(NotSigned);
      }
      var desired := SigningStateOf(repository, keys);
      if repository.rotation.None? {
        return Ok(ResultFor(repository, keys, None, !DeploymentSigningMatches(deployment, desired.value)));
      }
      if !DeploymentSigningMatches(deployment, desired.value) {
        return Err(NotDeployed);
      }
      var trust := Authoritative(deployment, committedAt);
      if trust.Err? {
        return Err(trust.error);
      }
      if trust.value.Some? && BeforeSum(now, trust.value.value, Duration(repository.rotation.value.minimumRefresh)) {
        return Err(TooEarly);
      }
      if !AdvanceValid(repository, keys, now) {
        return Err(KeyExpires);
      }
      if write.NotWritten? {
        return Err(WriteFailed);
      }
      forall observed, at | HostServesReceipt(deployment, observed) && now <= at
        ensures AdvanceAccepted(repository, keys, deployment, committedAt, observed, at)
      {
        AdvanceWindow(repository, keys, deployment, committedAt, observed, now, at);
      }
      repository := Advanced(repository);
      if write.Unreported? {
        return Err(WriteFailed);
      }
      return Ok(ResultFor(repository, keys, None, true));
    }
  }

  ghost predicate AdvanceAccepted(
    repository: Repository, keys: Keys, deployment: DeploymentRecord, committedAt: Option<int>, observed: Revision, at: int)
    requires ValidManifest(repository, keys) && repository.rotation.Some?
  {
    var next := Advanced(repository);
    GuardAccepts(next, keys, deployment, committedAt, observed, at)
    <==> (next.rotation.Some? ==>
            !BeforeSum(keys[next.rotation.value.successor].expiresAt.value, at,
                       Wrap64(Duration(next.rotation.value.minimumRefresh) + 2 * HOUR * NANOS_PER_SECOND)))
  }

  lemma IntroductionAccepted(
    repository: Repository, keys: Keys, deployment: DeploymentRecord, committedAt: Option<int>, at: int)
    requires ValidManifest(repository, keys) && repository.rotation.Some? && repository.rotation.value.phase == Introducing
    requires repository.rotation.value.minimumRefresh <= LONGEST_REFRESH
    requires deployment.native != "" && Authoritative(deployment, committedAt).Ok?
    requires SigningStateOf(repository.(rotation := None), keys).Ok?
    requires DeploymentSigningMatches(deployment, SigningStateOf(repository.(rotation := None), keys).value)
    requires var minimum := repository.rotation.value.minimumRefresh;
             var successor := keys[repository.rotation.value.successor];
             && at + minimum + 2 * HOUR <= keys[repository.signingKeys[0]].expiresAt.value
             && successor.createdAt.value <= at + minimum
             && at + 2 * minimum + 2 * HOUR <= successor.expiresAt.value
    ensures forall observed | HostServesReceipt(deployment, observed) ::
              GuardAccepts(repository, keys, deployment, committedAt, observed, at)
  {
    forall observed | HostServesReceipt(deployment, observed)
      ensures GuardAccepts(repository, keys, deployment, committedAt, observed, at)
    {
      IntroductionWindow(repository, keys, deployment, committedAt, observed, at);
    }
  }

  /** A started rotation is accepted exactly while both keys stay valid through it. */
  lemma IntroductionWindow(
    repository: Repository, keys: Keys, deployment: DeploymentRecord, committedAt: Option<int>, observed: Revision, at: int)
    requires ValidManifest(repository, keys) && repository.rotation.Some? && repository.rotation.value.phase == Introducing
    requires repository.rotation.value.minimumRefresh <= LONGEST_REFRESH
    requires deployment.native != "" && Authoritative(deployment, committedAt).Ok?
    requires SigningStateOf(repository.(rotation := None), keys).Ok?
    requires DeploymentSigningMatches(deployment, SigningStateOf(repository.(rotation := None), keys).value)
    requires HostServesReceipt(deployment, observed)
    ensures var minimum := repository.rotation.value.minimumRefresh;
            var successor := keys[repository.rotation.value.successor];
            GuardAccepts(repository, keys, deployment, committedAt, observed, at) <==>
              && at + minimum + 2 * HOUR <= keys[repository.signingKeys[0]].expiresAt.value
              && successor.createdAt.value <= at + minimum
              && at + 2 * minimum + 2 * HOUR <= successor.expiresAt.value
  {
  }

  /** An advance is accepted from the moment it is made for as long as the activated
      overlap fits in the successor's validity; a retirement is accepted for good. */
  lemma AdvanceWindow(
    repository: Repository, keys: Keys, deployment: DeploymentRecord, committedAt: Option<int>, observed: Revision,
    now: int, at: int)
    requires ValidManifest(repository, keys) && repository.rotation.Some?
    requires (deployment.native == "" ==> !deployment.signing.Signed())
    requires SigningStateOf(repository, keys).Ok?
    requires DeploymentSigningMatches(deployment, SigningStateOf(repository, keys).value)
    requires Authoritative(deployment, committedAt).Ok?
    requires !BeforeSum(now, Authoritative(deployment, committedAt).value.value, Duration(repository.rotation.value.minimumRefresh))
    requires AdvanceValid(repository, keys, now)
    requires HostServesReceipt(deployment, observed) && now <= at
    ensures AdvanceAccepted(repository, keys, deployment, committedAt, observed, at)
  {
    var next := Advanced(repository);
    assert ValidManifest(next, keys);
    assert TransitionReady(deployment, at, Authoritative(deployment, committedAt).value);
  }
}
