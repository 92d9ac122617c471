/** The records a publication carries between plan, host and receipt
    (internal/state/model.go and host/host.go). Digests, identifiers and native
    revisions are strings compared for equality; the empty string means "none".
    Times are whole seconds. */
module Records {
  import opened Wrappers

  /** Signing rotation phase. The receipt spells `Stable` as the empty string. */
  datatype Phase = Stable | Introducing | Activated

  /** What a deployment signs with and asks clients to trust. */
  datatype SigningState = SigningState(
    active: string, trusted: seq<string>, keyring: string, phase: Phase, minimumRefresh: int)
  {
    predicate Signed() { active != "" }
  }

  const UNSIGNED := SigningState("", [], "", Stable, 0)

  /** A published revision, as a host reports it and as a commit expects it. */
  datatype Revision = Revision(
    native: string, tree: string, planID: string, changeID: string, release: string,
    manifest: string, restoreID: string, restore: string, restoreRoot: string)

  const NO_REVISION := Revision("", "", "", "", "", "", "", "", "")

  datatype DeploymentRecord = DeploymentRecord(
    repository: string, planID: string, changeID: string, tree: string, manifest: string,
    native: string, deployedAt: int, signing: SigningState, trustSince: Option<int>)

  const NO_DEPLOYMENT := DeploymentRecord("", "", "", "", "", "", 0, UNSIGNED, None)

  datatype Action = Noop | Create | Update

  /** One repository of a reviewed plan. `observed` gathers the nine Observed*
      fields, `deployment` is the receipt the plan was made against. */
  datatype PlanRepository = PlanRepository(
    name: string, changeID: string, desiredTree: string, desiredManifest: string,
    observed: Revision, deployment: DeploymentRecord, publicationRecords: bool,
    managedRemote: bool, action: Action)

  /** deploymentSigningMatches */
  predicate DeploymentSigningMatches(deployment: DeploymentRecord, signing: SigningState) {
    && deployment.signing == signing
    && (!signing.Signed() || deployment.trustSince.Some?)
  }

  /** The receipt's revision is the one the host served when this apply prepared. */
  predicate ContinuousPublication(previous: DeploymentRecord, observed: Revision) {
    && previous.native == observed.native
    && previous.tree == observed.tree
    && (observed.manifest == "" || previous.manifest == observed.manifest)
  }

  /** deploymentRecordFor: the receipt of a publication. The trust clock carries on
      only if nothing but the tree changed since the previous receipt. */
  function DeploymentRecordFor(
    planned: PlanRepository, previous: DeploymentRecord, observed: Revision, signing: SigningState,
    native: string, planID: string, deployedAt: int, now: int): (record: DeploymentRecord)
    ensures DeploymentSigningMatches(record, signing)
    ensures record.trustSince.Some? ==> record.trustSince.value == now || record.trustSince == previous.trustSince
  {
    var trustSince :=
      if !signing.Signed() then None
      else if ContinuousPublication(previous, observed) && previous.signing == signing && previous.trustSince.Some?
      then previous.trustSince
      else Some(now);
    DeploymentRecord(planned.name, planID, planned.changeID, planned.desiredTree, planned.desiredManifest,
                     native, deployedAt, signing, trustSince)
  }

  /** AuthoritativeDeploymentTrustSince: the receipt's clock, or its git commit if later;
      refused when the receipt is not found in a commit that apply made. */
  function AuthoritativeTrustSince(record: DeploymentRecord, committedAt: Option<int>): (r: Result<Option<int>, ()>)
    ensures r.Err? <==> record.trustSince.Some? && committedAt.None?
    ensures r.Ok? ==> (r.value.Some? <==> record.trustSince.Some?)
    ensures r.Ok? && r.value.Some? ==> record.trustSince.value <= r.value.value && committedAt.value <= r.value.value
  {
    match record.trustSince
    case None => Ok(None)
    case Some(t) =>
      if committedAt.None? then Err(())
      else Ok(Some(if committedAt.value > t then committedAt.value else t))
  }
}
