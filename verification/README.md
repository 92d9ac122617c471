# snailmail, modelled in Dafny

snailmail publishes package repositories (Debian, PyPI, Alpine, RPM, Helm, raw files) from a Git
workspace: a plan is made against what a host serves, applied under a lock, and recorded in receipts.
This project models the parts of it where a mistake is hard to see, and proves what they promise.

* **Key rotation** (`Records`, `SigningTransition`, `GuardExactness`, `RotationSafety`, `RotationExactness`,
  `RotationProgress`, `RotationHazards`, `RotationCommands`). The manifest moves stable, introducing, activated, stable. A world holds what is
  live, what was live and when, the receipt, the pending publication and the clock; its steps are the
  passing of time, a publication the deployment guard accepts, the writing of a receipt, and a rollback to
  what was displaced or to an empty host. Hosts name revisions anew, or by their tree.
  Two kinds of client are protected: one that refreshed its keyring recently and reads what is live now,
  and one that reads now what was signed recently.
* **Plan and apply** (`Preparation`, `ApplyTrace`, `ApplyPrelude`, `ApplyRun`, `ApplyOutcomes`, `HostRaces`).
  Preparation decides whether a repository is current; an apply run is a class whose every host, gate, probe and
  Git answer is left open, effects that come back as errors included, and leaves a trace of all those answers;
  races between runs and rollbacks are sequences of compare-and-swap attempts on one host.
* **Version orders** (`Orders`, `Decimal`, `DebVersion`, `DebVersionMeaning`, `PypiVersion`, `ApkVersion`,
  `ApkParse`, `ApkVersionMeaning`, `RawVersion`, `SiteIndex`). Each comparator is a method with the source's
  loops, proved against an order that is defined on its own; that order is proved total and transitive, and what
  decides between two versions as they are written is stated without it.
* **Printers and parsers** (`Lines`, `Splitting`, `Integers`, `ControlText`, `ControlRoundTrip`, `DebPackages`,
  `DebPackagesRoundTrip`, `DebIndexRoundTrip`, `DebIndexFields`, `DebDigestFields`, `CrlfIndex`, `ApkIndex`,
  `ApkIndexRoundTrip`, `ApkIndexFields`, `ApkIndexMerge`, `IndexSoundness`, `RpmDependencies`, `RpmHeader`,
  `RpmRoundTrip`, `ArArchive`, `ArRoundTrip`, `FlagHoisting`, `BoundedWorkers`, `HelmSigning`). What is written is
  read back, and where it is not, the exact condition is stated; and whatever text the readers are given, what
  they let through is sound.

Check everything with `dafny verify dfyconfig.toml`.

## What the proofs found

Each of these is a lemma about the code as it is, with the exact condition under which the promise holds.

* The rotation guard multiplies the minimum refresh by 10^9 in 64 bits. A refresh is waited for as configured
  if and only if it is at most 9,223,372,036 seconds (`SigningTransition.WaitIsRefresh`); beyond that the
  product wraps, and the wait can be anything. At 18,446,744,074 seconds it is one second, and with ordinary
  keys the guard accepts the introduction and, a second later, the activation, so that a client which had
  just refreshed is left behind (`RotationHazards.WrappedRefresh`). At the first refresh that wraps the guard
  refuses the introduction instead (`RotationHazards.FirstWrapIsRefused`). The commands limit the refresh to a
  year; the manifest reader does not.
* A first signing that was published but whose receipt was not yet written can be replaced by another key,
  and a client that fetched the first one is left behind (`RotationHazards.ReplacedFirstSigning`,
  `RotationExactness.AbandoningEndangers`). These are the only two hazards
  (`RotationExactness.CarefulIsExact`).
* The guard takes the last commit of a receipt for the start of its trust, if that is later than the time the
  receipt states. A repository that is published more often than its refresh, with nothing changed about its keys,
  is therefore never accepted into its next phase (`RotationProgress.FrequentPublishingStarves`), although every
  receipt keeps the first one's time (`RotationProgress.UpkeepKeepsClock`). It is accepted, after any number of such
  publications, exactly when the refresh has passed since both times (`RotationProgress.NextPhaseAfterUpkeep`).
* A plan whose only reason to publish was a missing ledger binding cannot be applied again once its ledgers are
  committed, whatever the host serves, because the ledger then holds the binding
  (`Preparation.LedgerOnlyPlanCannotBeRetried`, `Preparation.RetryIsAccepted`).
* The number of applied repositories that apply reports is not always what the host did. A commit that took
  effect and came back as an error is not counted; neither is a lost restore, nor a restore of a repository
  that was found current; a commit that found the plan already served is. The exact difference is
  `ApplyTrace.ReportedIsOffBy`; the number is right, if nobody else publishes the plan, exactly when no effect
  was lost and no current repository was restored (`ApplyTrace.ReportedIsExact`). Through all the phases of
  apply a plan with something to publish comes to a commit (`ApplyPrelude.CommitCanComeNext`) whose answer may
  be lost (`ApplyTrace.LostCommitIsNotReported`).
* Two runs that observed the same revision both commit only if in between a commit or a restore made that very
  revision live again (`HostRaces.SameObservationCommitsOnce`). On a host that names revisions by their tree
  publishing the old tree again is enough (`HostRaces.StaleRunCommitsByTree`); where every commit gets a new
  name it takes a restore (`HostRaces.RestoreBetweenCommits`), and where restores do too it cannot happen
  (`HostRaces.NeverBothCommit`).
* A Debian control file with an MD5, SHA-1 or SHA-256 field of its own keeps it in canonical case beside the
  renderer's, and the parser refuses the whole index. It also refuses one with a field name of more than 64
  characters or a package with more than 256 fields, which the control parser and the renderer accept. Apart
  from limits on bytes these are the only ones (`DebDigestFields.ControlFilesRoundTrip`).
* A tilde and more after a Debian version makes it lower, except where what follows has a dash and the version has
  a revision: that revision then becomes part of the upstream version, which makes it higher
  (`DebVersionMeaning.TildeVersionIsBelow`).
* An Alpine index drops one of two packages that share name and version as `noarch` and for the client's
  architecture, although they lie at different locations (`ApkIndexRoundTrip.ServedRoundTrip`).
* An Alpine version component beyond 64 bits orders consistently with the others only if it starts with
  eighteen nines or a zero; any other makes a cycle (`ApkVersion.OrderlyIsExact`).
* A trailing flag without its value swallows the `--` that hoisting inserts
  (`FlagHoisting.HoistingIsFaithful`, `FlagHoisting.HoistingIsIdempotent`).

## Model

| member | source | states |
|---|---|---|
| `Records.DeploymentRecordFor` | engine/signing.go:452-471 | the receipt carries the signing state that was published; the trust clock is kept or restarts now, never set to anything else; which of the two is `RotationProgress.ClockIsExact` |
| `SigningTransition.AcceptedMove` | engine/signing.go:395-450 | a signed deployment changes only from a host that still serves its receipt, one phase further, under the same keyring path, to a state signed by a key its clients trust and trusting the key that signed before, and, except to introduce a key, only after the deployed refresh |
| `GuardExactness.UnchangedMeans` | engine/signing.go:395-411 | a receipt's signing state is the manifest's exactly if key, trusted keys, keyring path, phase and refresh are, and a signed one has a clock |
| `GuardExactness.GuardIsExact` | engine/signing.go:395-450 | for every manifest that loads the guard accepts if and only if the rotation's keys are valid at that instant, and: nothing was published and no rotation is on; or the signing state is unchanged, whatever the host serves; or the host serves the receipt and the change is a first signing or one of the three moves, each spelled out on keys, keyring, refresh and waiting time |
| `GuardExactness.UnchangedIsAccepted` | engine/signing.go:409-411 | with an unchanged signing state it accepts, for every observation, if and only if the rotation's keys are valid |
| `GuardExactness.KeyValidityMeans` | engine/signing.go:368-393 | they are valid if and only if, counting in seconds, both outlast what the phase still needs, for every refresh that does not overflow |
| `SigningTransition.WaitMeaning` | engine/signing.go:426-429 | the 64-bit comparison of instants is a comparison of whole seconds with the wait that was really computed, for every refresh |
| `SigningTransition.WaitIsRefresh` | engine/signing.go:426-429 | the computed wait is the configured refresh if and only if that is at most 9,223,372,036 seconds |
| `SigningTransition.OverflowingRefreshIsNotWaited` | engine/signing.go:426-429 | one second more and the computed wait is negative |
| `Records.AuthoritativeTrustSince` | internal/state/deployment.go:136-152 | refused exactly if the receipt has a clock and no commit of apply; otherwise not before either |
| `RotationSafety.TrustSince` | internal/state/deployment.go:136-152 | the trust time of a world is never before the one in its receipt |
| `RotationSafety.PublishAgrees` | engine/signing.go:395-450 | an accepted publication over a signed receipt shares keys, both ways, with the receipt, with what is live and with everything served recently |
| `RotationSafety.PublishKeeps` | engine/signing.go:395-471 | every accepted careful publication keeps the invariant on what was served, is live, pending and recorded |
| `RotationSafety.ReceiptKeeps` | engine/signing.go:452-471 | so does writing the receipt |
| `RotationSafety.RetryKeeps` | engine/workspace.go:2007-2008 | so does the receipt a retry writes when it finds its plan live, which restarts the trust clock |
| `RotationSafety.RollbackKeeps` | engine/rollback.go:120-135 | so does rolling back one step |
| `RotationSafety.EmptyKeeps` | adapters/host/s3/s3.go:614-627 | so does undoing a publication that displaced nothing, which leaves the host empty |
| `RotationSafety.RunKeeps` | engine/signing.go:395-471 | so does every run |
| `RotationSafety.RotationIsSafe` | engine/signing.go:327-471 | in every run from a host where nothing was signed, with the manifest edited at will, a client that refreshed at any moment in the window trusts the key that signs what is live, and one that refreshes now trusts what was signed in the window; on hosts that name revisions anew and on hosts that name them by tree |
| `RotationProgress.ClockIsExact` | engine/signing.go:452-471 | a receipt keeps its predecessor's time if and only if that has the same signing state and was what the host served, as far as it reports it; otherwise the clock restarts |
| `RotationProgress.ReceiptIsExact` | engine/signing.go:452-471 | every other field of the receipt is the plan's, the publication's or the run's |
| `RotationProgress.LostReceiptDoesNotBlock` | engine/signing.go:409-411 | in every world, after a publication whose receipt was lost, publishing again with an unchanged signing state is possible exactly if the rotation's keys are valid |
| `RotationProgress.RoundKeepsClock` | engine/signing.go:452-471 | a publication with the same signing state and its receipt keep the trust time, and leave a world like it |
| `RotationProgress.RoundIsPossible` | engine/signing.go:395-471 | such a round is possible whenever the keys are valid |
| `RotationProgress.UpkeepKeepsClock` | engine/signing.go:452-471 | so do any number of them, however much time passes between |
| `RotationProgress.NextPhaseAfterUpkeep` | engine/signing.go:412-450 | after any number of them the guard accepts the next phase if and only if the keys are valid and the refresh has passed since the first receipt's time and since the last one's commit |
| `RotationProgress.FrequentPublishingStarves` | internal/state/deployment.go:136-205 | after any number of them, and for as long as the refresh has not passed since the last receipt's commit, the next phase is refused, however long the first receipt has been trusted |
| `RotationExactness.AbandoningEndangers` | engine/signing.go:423-425 | replacing an unrecorded first signing always has a continuation that leaves a client behind |
| `RotationExactness.ShortWaitEndangers` | engine/signing.go:426-450 | so has introducing a key with a computed wait shorter than the window |
| `RotationExactness.CarefulIsExact` | engine/signing.go:395-471 | after any careful run, a step is free of those two hazards if and only if no careful continuation of it is unsafe |
| `RotationHazards.ReplacedFirstSigning` | engine/signing.go:403-408 | from an empty host two accepted publications with ordinary keys leave a client behind that refreshed at that instant |
| `RotationHazards.WrapsToOneSecond` | engine/signing.go:426-429 | a refresh of 18,446,744,074 seconds wraps to a wait of one second |
| `RotationHazards.WrappedRefresh` | engine/signing.go:368-450 | with it and ordinary keys a run of accepted steps from an empty host signs with a key that a client of one second ago does not know |
| `RotationHazards.FirstWrapIsRefused` | engine/signing.go:383-386 | the first refresh that wraps is refused at its introduction for every successor made in the last 292 years |
| `RotationExactness.SevenDaysIsCareful` | engine/signing.go:368-450 | for the seven days the manifest demands, every step outside the first-signing hazard is careful unless its refresh overflows |
| `RotationCommands.Authoritative` | internal/state/deployment.go:136-152 | the trust time the commands use is never before the receipt's |
| `RotationCommands.RefreshSeconds` | engine/rotation.go:59-65 | an accepted refresh is whole seconds between seven days and a year |
| `RotationCommands.Workspace.RotateKey` | engine/rotation.go:37-185 | a new rotation is written if and only if the repository is a signed Debian one, its stable state is deployed by a receipt in Git, the refresh is whole seconds between a week and a year, the successor is another key, known or generated, and the validities cover the rotation; the manifest then gained the introducing phase and at most the successor key, reported or not, and the guard accepts it at the same instant whenever the host serves what the receipt records; a repeated request succeeds exactly if it asks for the rotation under way, and reports the earliest advance; nothing else changes anything |
| `RotationCommands.Workspace.MayIntroduceMeans` | engine/rotation.go:107-172 | what the command checks one after the other is exactly the condition above |
| `RotationCommands.Workspace.Introduce` | engine/rotation.go:173-184 | a write that failed leaves the old manifest or the new one, nothing between |
| `RotationCommands.Workspace.Advance` | engine/rotation.go:187-270 | the manifest moves one phase further if and only if the phase is deployed by a receipt in Git, the refresh has passed since both its times and the keys last long enough; it succeeds if that is also reported; the guard accepts the result now, and later exactly while the successor stays valid through the overlap |
| `RotationCommands.MayAdvanceMeans` | engine/rotation.go:215-270 | likewise for the advance, with the 64-bit durations written out |
| `RotationCommands.IntroductionWindow` | engine/signing.go:368-393 | a started rotation is accepted if and only if both keys outlive it |
| `RotationCommands.AdvanceWindow` | engine/rotation.go:251-270 | what the advance checks is enough for the guard, at every later instant |
| `Preparation.PreparedMeans` | engine/workspace.go:2419-2576 | a prepared repository carries what the guard accepted; it is current only if the host serves the desired tree, and otherwise the host serves exactly what the plan observed |
| `Preparation.PrepareIsExact` | engine/workspace.go:2419-2576 | preparation accepts if and only if nothing the plan was made from has changed, the ledger agrees with it, the guard accepts and planning again would give the same action; receipt and host may be the plan's own results instead; it is current exactly if it is a noop or the plan is live with its own or the old receipt |
| `Preparation.NoopIsExact` | engine/workspace.go:605-667 | a repository plans as a noop if and only if no binding is missing, the host serves the desired tree and manifest, and the receipt is of that tree, manifest and signing state, of what is live and of the usual change |
| `Preparation.ActionIsExact` | engine/workspace.go:636-667 | otherwise it is created where nothing is live and updated elsewhere, and the plan carries what it was made from |
| `Preparation.AppliedPlansAsNoop` | engine/workspace.go:1908-1920 | where the host serves a plan and the receipt is the one written for it, planning the same again is a noop |
| `Preparation.FreshPlanIsAccepted` | engine/workspace.go:605-667 | a plan applied at once against what it was made from is never refused for its own metadata, and what it leaves alone is current |
| `Preparation.NoopIsCurrent` | engine/workspace.go:2543-2579 | a noop, whose authorization is skipped, always prepares as current and as observed |
| `Preparation.CommittedIsNeverRecommitted` | engine/workspace.go:2543-2576 | once the host serves this plan, preparation never asks for another commit |
| `Preparation.SameTreeIsCurrent` | engine/workspace.go:2543-2576 | on a host that reports trees only, a plan for the tree already served commits nothing |
| `Preparation.RetryIsAccepted` | engine/workspace.go:2543-2576 | while the host serves what the plan observed, or the plan, a retry is accepted if and only if the guard accepts, the receipt is the plan's, and a reason to publish other than recorded bindings remains |
| `Preparation.LedgerOnlyPlanCannotBeRetried` | engine/workspace.go:2562-2570 | a plan that only had bindings to record is refused once the ledger holds them, for every observation and every receipt |
| `Preparation.ReceiptIsStable` | engine/signing.go:452-471 | writing the receipt of a served plan again gives the same receipt, trust clock included |
| `Preparation.RunCommitsOnce` | engine/workspace.go:1984-2059 | a run commits only if every earlier commit of the plan was restored, and a completed run records the live revision |
| `Preparation.RetriesCommitOnce` | engine/workspace.go:2543-2576 | over any number of runs of one plan, each cut off anywhere, at most one unrestored commit of it stands |
| `ApplyRun.Execution.Authorize` | engine/workspace.go:2331-2355 | a noop passes without a gate; anything else passes exactly if the plan has not expired and the gate is open, and both answers are in the trace |
| `ApplyRun.Execution.StageOne` | engine/workspace.go:2265-2322 | success means that the files were read, the gate asked, the repository staged and, unless structural, accepted by a client; nothing is committed, and a failure is one of those answers |
| `ApplyRun.Execution.StageOnHosts` | engine/workspace.go:2259-2323 | success means that of every outdated repository; nothing is committed |
| `ApplyRun.Execution.AuthorizeLedgers` | engine/workspace.go:999-1007 | success means that the gates of all repositories to be recorded were open again, unless an earlier run committed the ledgers |
| `ApplyRun.Execution.RecordDeployment` | engine/workspace.go:2074-2079 | the receipts are those of the plan up to and including this repository |
| `ApplyRun.Execution.CommitPublicationLedgers` | engine/workspace.go:2111-2183 | success means the records could be written, the ledgers are recorded, not committed a second time, and validated; they may be recorded although the step failed |
| `ApplyRun.Execution.RestoreFailedPublication` | engine/workspace.go:801-813 | only after a failed probe of what there is a way back from: a gated restore that may work and still return an error, or find its work done; only an acknowledged restore of the run's own commit is counted |
| `ApplyRun.Execution.Restore` | engine/workspace.go:2063-2072 | a failed probe of a commit with a way back is never left without asking for the restore; the count stays what the run was told |
| `ApplyRun.Execution.Commit` | engine/workspace.go:2026-2036 | a commit that may work and still return an error, or find the plan served; only an acknowledged one is counted; it comes when all repositories before it are settled |
| `ApplyRun.Execution.CommitOne` | engine/workspace.go:2015-2036 | the branch is checked, the gate asked and the commit made and counted, in that order |
| `ApplyRun.Execution.Probe` | engine/workspace.go:2037-2057 | success means that after its commit the host was seen to serve the desired tree under the committed native revision, on S3 the whole revision, that a client accepted it unless the run is structural, and that the branch was in place; a failure is one of those answers or ends with the restore |
| `ApplyRun.Execution.Observe` | engine/workspace.go:2037-2044 | the observation part of that |
| `ApplyRun.Execution.ProbeClient` | engine/workspace.go:2045-2053 | the client part of that |
| `ApplyRun.Execution.Switch` | engine/workspace.go:2015-2057 | success means that this repository too is committed, counted and settled, and that those before it still are |
| `ApplyRun.Execution.Publish` | engine/workspace.go:2015-2059 | on every path the trace stays admissible and the count what the run was told; on success the receipts up to here name the committed revisions |
| `ApplyRun.Execution.VerifyCurrent` | engine/workspace.go:1984-2011 | a current repository is never committed; on success its receipt names the observed revision |
| `ApplyRun.Execution.PublishAndRecord` | engine/workspace.go:2194-2249 | success means that every repository with an effect was probed, that the counts are right and that the last effect is the commit of exactly the receipts of the plan |
| `ApplyRun.Execution.PublishAll` | engine/workspace.go:2224-2235 | the loop settles, counts and records repository after repository, in plan order |
| `ApplyRun.Execution.RecordAll` | engine/workspace.go:2235-2248 | the commit of the receipts comes when every repository is settled; success means it was acknowledged |
| `ApplyRun.Execution.Apply` | engine/workspace.go:938-1015 | the run succeeds if and only if its trace does not end in a failure; then the numbers of published and current repositories are those of the plan, and unless it was a dry run every repository with an effect was probed before the receipts, which were committed last; on every other path the reported number is the acknowledged commits minus the acknowledged restores of them; a dry run only asks gates |
| `ApplyTrace.RunOrder` | engine/workspace.go:938-1015 | in every run each stage, commit and restore directly follows an authorization of its repository, every outdated repository is staged before the ledgers, no commit or restore precedes the ledgers, commits follow plan order once each and expect what the plan observed, a noop sees no effect, before a commit every repository before it was probed and before the receipts every repository, a restore follows a failed probe of its repository, and nothing follows a closed gate, a failed check, an error, a restore or the receipts |
| `ApplyTrace.ProbedBefore` | engine/workspace.go:1984-2057 | a receipt implies a passed probe: before the receipts, and before any later commit, a repository found current passed its client probe, and a committed one was afterwards seen to serve what was committed and passed one, unless the run is structural |
| `ApplyTrace.RestoredAfterFailure` | engine/workspace.go:1984-2053 | every restore follows a client probe that failed or an observation after the commit that does not match it |
| `ApplyTrace.StagedBeforeLedgers` | engine/workspace.go:944-950 | once the ledgers are recorded every outdated repository was staged, and accepted by a client unless the run is structural |
| `ApplyTrace.ReportedIsOffBy` | engine/workspace.go:2015-2072 | in every run the reported number exceeds the host's commits minus its restores by exactly the commits found already there plus the slip of the last effect |
| `ApplyTrace.ReportedIsExact` | engine/workspace.go:2224-2235 | with no other publisher of the plan the reported number is the host's commits minus its restores if and only if no effect was lost, no restore was found done and no current repository was restored; it is never off by more than one |
| `ApplyTrace.LostCommitIsNotReported` | engine/workspace.go:2026-2029 | wherever a commit may come next, one that is lost is live and not reported |
| `ApplyPrelude.CommitCanComeNext` | engine/workspace.go:938-1015 | the gates of all repositories, the stages, the gates of those to record, the ledgers, the lock, the probes of what is current and one more gate lead to the commit of the first outdated repository, whatever its answer |
| `ApplyTrace.EndsLast` | engine/workspace.go:2224-2235 | a closed gate, a failed check, an error of a host or of the ledgers, a restore and the receipts are the last event of a run |
| `ApplyTrace.SummaryLedger` | engine/workspace.go:2111-2183 | the ledgers count as recorded if and only if that event is in the trace |
| `ApplyTrace.SummaryCommit` | engine/workspace.go:2015-2059 | every commit in the trace lies below the next free position, and its revision is the one remembered |
| `ApplyTrace.ReceiptsNameThePlan` | engine/workspace.go:2194-2249 | exactly one receipt a repository with an effect, in plan order |
| `ApplyTrace.ReceiptsHold` | engine/workspace.go:2074-2079 | each repository's receipt is at its place among them |
| `ApplyOutcomes.TraceHasOutcome` | engine/workspace.go:2194-2249 | every run, cut off anywhere, leaves each repository stopped before publication, cut off after its commit, restored, or completed, and in exactly the state that outcome describes |
| `ApplyOutcomes.ApplyCommitsOnce` | engine/workspace.go:2543-2576 | a run of apply keeps at most one unrestored commit of its plan on a repository, and commits only where none stands |
| `ApplyOutcomes.AppliesCommitOnce` | engine/workspace.go:2543-2576 | so do any number of runs of apply, each cut off anywhere |
| `ApplyOutcomes.ApplyConverges` | engine/workspace.go:605-667 | where a run of apply wrote its receipts, planning the same again is a noop for every repository that has something live |
| `HostRaces.ComesBack` | engine/workspace.go:801-813 | on every host, a revision that is not live becomes live only by a commit or a restore that takes effect |
| `HostRaces.SameObservationCommitsOnce` | engine/workspace.go:1940-1956 | on every host and in every interleaving, two commits of one observation have between them a commit or a restore that made that very revision live again, unless the first changed nothing |
| `HostRaces.RestoreUndoesItsCommit` | engine/rollback.go:129-155 | on every host, a restore takes effect if and only if the revision it names is live, and puts back exactly what the last commit under that name replaced; otherwise nothing changes |
| `HostRaces.EveryChangeWasNamed` | engine/workspace.go:2026-2030 | on every host, whoever changed the live revision had named it |
| `HostRaces.StaleRunCommitsByTree` | adapters/host/local/local.go:64-74 | on a host that names revisions by tree a stale run commits again once the old tree was republished, without any restore |
| `HostRaces.ComesBackByRestore` | engine/workspace.go:801-813 | where every commit gets a new name, only a restore brings a revision back |
| `HostRaces.RestoreBetweenCommits` | host/host.go:160-168 | there two commits of one observation have such a restore between them |
| `HostRaces.NeverBothCommit` | host/host.go:160-168 | and where restores get new names too, at most one of them commits |
| `Decimal.CompareNumericIsNatural` | formats/deb/version.go:63-79 | comparing digit strings is comparing the natural numbers they denote, for any length |
| `Decimal.ValueFormat` | formats/apk/render.go:218-219 | a printed natural number denotes that number |
| `DebVersion.TakeDigits` | formats/deb/version.go:81-87 | the loop splits off the leading digits |
| `DebVersion.CompareLeadingText` | formats/deb/version.go:38-52 | the text loop gives the order of the leading texts, sign by sign as policy orders them, and stops after equal texts |
| `DebVersion.CompareLeadingDigits` | formats/deb/version.go:53-58 | the number step gives the order of the numbers |
| `DebVersion.CompareTurn` | formats/deb/version.go:37-59 | one turn of the outer loop decides, or leaves shorter parts that compare alike |
| `DebVersion.CompareVersionPart` | formats/deb/version.go:36-61 | the nested loops terminate and compute the order of section 5.6.12 of the Debian Policy Manual, defined on signs and numbers without the numbers the code gives to signs |
| `DebVersion.OrderIsPolicy` | formats/deb/version.go:96-107 | those numbers order any two signs, and the end of a part, as policy does: the tilde, the end, letters, the rest, each by code |
| `DebVersion.PolicyPreorder` | formats/deb/version.go:36-111 | that order is antisymmetric in sign and transitive, on every text |
| `DebVersion.CompareVersions` | formats/deb/version.go:8-21 | accepts exactly two valid versions and returns the order by epoch, upstream version and revision |
| `DebVersion.VersionPreorder` | formats/deb/version.go:8-34 | whole versions are totally preordered |
| `DebVersionMeaning.SignsDecide` | formats/deb/version.go:36-107 | after any common start the first two signs that differ decide, the end being a sign |
| `DebVersionMeaning.NumbersDecide` | formats/deb/version.go:53-58 | after a common start that does not end in a digit two different numbers decide, whatever follows |
| `DebVersionMeaning.ZeroIsNothing` | formats/deb/version.go:63-87 | a zero at the end reads like no number |
| `DebVersionMeaning.TildeIsBelow` | formats/deb/version.go:96-99 | a part followed by a tilde and anything is below the part |
| `DebVersionMeaning.LongerIsAbove` | formats/deb/version.go:96-107 | followed by any other sign that is no digit it is above |
| `DebVersionMeaning.LettersFirst` | formats/deb/version.go:102-106 | where two parts differ letters are below other signs, and otherwise the codes decide |
| `DebVersionMeaning.SplitJoined` | formats/deb/version.go:23-34 | an epoch ends at the first colon and a revision starts after the last dash; without them they are zero |
| `DebVersionMeaning.EveryVersionJoins` | formats/deb/version.go:23-34 | and every text is made of such parts |
| `DebVersionMeaning.PlusIsDropped` | formats/deb/version.go:26-27 | one plus before the epoch is dropped, and nothing else |
| `DebVersionMeaning.ValidJoined` | formats/deb/inspect.go:257-291 | a version is valid if and only if its epoch is a 64-bit number, the upstream version starts with a digit, both are made of the signs of a version, and the revision is not empty and has no colon |
| `DebVersionMeaning.TildeVersionIsBelow` | formats/deb/version.go:8-34 | a valid version followed by a tilde and anything is below it, unless it has a revision and a dash follows; then it is above |
| `PypiVersion.CompareRelease` | formats/pypi/version.go:83-101 | release segments compare as numbers, the shorter padded with zeros |
| `PypiVersion.CompareSegments` | formats/pypi/version.go:167-186 | one segment: numbers by value above text |
| `PypiVersion.CompareLocal` | formats/pypi/version.go:153-194 | local segments compare lexicographically, numbers above text |
| `PypiVersion.SuffixesInOrder` | formats/pypi/version.go:103-151 | the branches on pre, post and development suffixes are one lexicographic key, as the summary of permitted suffixes in PEP 440 orders them |
| `PypiVersion.CompareVersions` | formats/pypi/version.go:19-44 | on parsed versions the comparator is the order of epoch, padded release, suffix key and local segments |
| `PypiVersion.VersionPreorder` | formats/pypi/version.go:19-44 | that order is total and transitive |
| `ApkVersion.CompareNumberMeaning` | formats/apk/version.go:117-136 | on orderly components the comparison is fractions as text, then numbers, then long runs of nines |
| `ApkVersion.NumberPreorder` | formats/apk/version.go:117-136 | on orderly components it is a total preorder |
| `ApkVersion.DisorderlyMakesACycle` | formats/apk/version.go:122-134 | every other component makes a cycle with two that fit in 64 bits |
| `ApkVersion.OrderlyIsExact` | formats/apk/version.go:117-136 | a component orders consistently with everything that fits if and only if it is orderly |
| `ApkVersion.CompareNumbers` | formats/apk/version.go:58-69 | the loop compares position by position, a missing one as zero |
| `ApkVersion.CompareSuffixes` | formats/apk/version.go:73-95 | the same for suffixes, a missing one as a release |
| `ApkVersion.Compare` | formats/apk/version.go:55-112 | numbers, letter, suffixes, revision, in that order |
| `ApkVersion.VersionPreorder` | formats/apk/version.go:55-112 | versions with orderly components are totally preordered |
| `ApkParse.Read` | formats/apk/version.go:139-198 | the parser with its loops over suffixes and numbers |
| `ApkParse.CompareVersions` | formats/apk/version.go:43-53 | accepts exactly two texts that parse and gives the order of what they mean |
| `ApkParse.WrittenReads` | formats/apk/version.go:139-198 | every version as it is written, with dotted numbers, a letter, suffixes with or without digits and a revision, is read as what it means |
| `ApkParse.ReadIsWritten` | formats/apk/version.go:139-198 | and every text that is accepted is such a version |
| `ApkVersionMeaning.LeadingZeroIsFraction` | formats/apk/version.go:117-122 | where one of two components starts with a zero they compare as decimal fractions, for any length |
| `ApkVersionMeaning.NamesInOrder` | formats/apk/version.go:12-23 | the suffix names in their order, four before the release and five after it |
| `ApkVersionMeaning.SuffixDecides` | formats/apk/version.go:73-95 | a further suffix puts any version below itself for those four, and above itself for the others |
| `ApkVersionMeaning.RevisionDecides` | formats/apk/version.go:96-112 | a version with a revision, even zero, is above the same version without one, and two revisions compare as numbers |
| `RawVersion.CompareNatural` | formats/raw/version.go:38-81 | the loop is the lexicographic order of the fields, numbers as numbers |
| `RawVersion.NaturalPreorder` | formats/raw/version.go:38-81 | that order is total and transitive on all text |
| `RawVersion.VersionPreorder` | formats/raw/version.go:20-33 | so is the mixed order with semantic versions in front |
| `RawVersion.CompareVersions` | formats/raw/version.go:20-33 | the branches on which side parses give that order |
| `RawVersion.SemverComesFirst` | formats/raw/version.go:10-19 | in every list in ascending order all semantic versions come before all others |
| `RawVersion.FieldsAtSeparators` | formats/raw/version.go:83-87 | a version falls apart at its separators and nowhere else |
| `RawVersion.RestDecides` | formats/raw/version.go:38-54 | after a common start the rest decides, whatever the separators, and a version that goes on is above |
| `RawVersion.FieldsDecide` | formats/raw/version.go:55-78 | the first fields that differ decide: numbers by value, a number above a text, texts by code |
| `SiteIndex.FoldRepository` | engine/site.go:87-99 | under an order, every package seen gets a greatest visible version, no other package gets one and no other repository changes; without one, every entry is still a version of its package, a success means that no version of a package with several was refused, and a failure that some comparison was |
| `SiteIndex.NewestStep` | engine/site.go:126-135 | one turn of the fold keeps the newest |
| `SiteIndex.NewestIsOrderFree` | engine/site.go:87-99 | whatever order the lock lists versions in, the entries compare as equal |
| `SiteIndex.DebIsOrdered` | engine/site.go:87-99 | Debian repositories are ordered |
| `SiteIndex.PypiIsOrdered` | engine/site.go:87-99 | Python repositories are, for versions that parse |
| `SiteIndex.RawIsOrdered` | engine/site.go:87-99 | raw repositories are, whatever their versions look like |
| `SiteIndex.ApkIsOrdered` | engine/site.go:87-99 | Alpine repositories are, if every component is orderly |
| `FlagHoisting.HoistFlags` | cmd/snailmail/flags.go:163-205 | the loop gives the flags with their values, then the positionals behind a `--` |
| `FlagHoisting.ReadAgrees` | cmd/snailmail/flags.go:177-196 | the hoister takes a value exactly where the flag package would |
| `FlagHoisting.HoistingIsFaithful` | cmd/snailmail/flags.go:163-205 | parsing the hoisted arguments up to the first positional equals parsing flags anywhere in the original, flags and positionals in order or the same error, unless a trailing flag lacks its value beside a positional while every flag is well-formed and declared; then it never does |
| `FlagHoisting.HoistingIsIdempotent` | cmd/snailmail/flags.go:163-205 | hoisting twice is hoisting once if and only if no such flag is there |
| `BoundedWorkers.Collect` | engine/locked_blobs.go:98-106 | the final loop returns all results in lock order or the first failure in lock order |
| `BoundedWorkers.ScheduleDoesNotMatter` | engine/locked_blobs.go:64-106 | in every schedule at most as many workers are inside as there are slots, and every complete one without a cancellation gives the sequential result |
| `BoundedWorkers.SuccessIsSequential` | engine/workspace.go:2370-2414 | even after a cancellation a success is the full sequential result |
| `BoundedWorkers.NeverStuck` | engine/locked_blobs.go:64-92 | with a slot, some worker can move until all are done |
| `BoundedWorkers.EveryMoveCounts` | engine/locked_blobs.go:64-92 | every move brings the end one step closer |
| `ControlText.WriteField` | formats/deb/render.go:256-271 | one line for the name and the first line of the value, one indented line for each other, a dot for a blank one |
| `ControlText.Parse` | formats/deb/inspect.go:359-406 | the line loop, in both dialects, is a fold of the line steps |
| `ControlText.CanonicalAt` | formats/deb/inspect.go:390-391 | a control field name is upper case at its start and after a dash, and lower case elsewhere |
| `ControlText.FieldSteps` | formats/deb/repository.go:176-224 | the lines of a written field, read in any state that can take the name, add that field and nothing else |
| `ControlText.GoodValueReadsBack` | formats/deb/render.go:256-271 | a value the parser can have made is read back character by character |
| `ControlRoundTrip.WriteFields` | formats/deb/render.go:256-271 | the fields one after the other |
| `ControlRoundTrip.WrittenReadsBack` | formats/deb/render.go:256-271 | readable fields are read back whatever the order they are written in |
| `ControlRoundTrip.ControlRoundTrip` | formats/deb/inspect.go:359-406 | for every control file without carriage returns that is accepted, writing its fields in any order and parsing again gives the same map, blank continuation lines included |
| `DebPackages.WritePackage` | formats/deb/render.go:216-244 | appends the package's stanza |
| `DebPackages.ReadEntries` | formats/deb/repository.go:91-118 | the scanner loop: entries in order, refused at the first bad one or repeated identity |
| `DebPackages.ParseRepositoryPackages` | formats/deb/repository.go:82-126 | the whole parser, an empty result refused |
| `DebPackagesRoundTrip.ParagraphStep` | formats/deb/repository.go:128-141 | a stanza is cut off at its blank line, never inside |
| `DebIndexRoundTrip.StanzaReads` | formats/deb/repository.go:176-224 | a written stanza with distinct names within the reader's bounds, trimmed at the end by the reader, is accepted and every plain value comes back |
| `DebIndexRoundTrip.StanzaRefused` | formats/deb/repository.go:201-216 | one that names a field twice in whatever case, has a name of more than 64 characters or more than 256 fields is refused |
| `DebIndexRoundTrip.StanzaRoundTrip` | formats/deb/render.go:216-244 | a package's stanza is read as its entry if and only if its field names differ ignoring case and are within the reader's bounds |
| `DebIndexRoundTrip.IndexParagraphs` | formats/deb/repository.go:128-141 | the paragraphs of an index are its stanzas |
| `DebIndexRoundTrip.WriteIndex` | formats/deb/render.go:124-131 | the index is its stanzas in order |
| `DebIndexRoundTrip.IndexRoundTrip` | formats/deb/repository.go:82-126 | parsing a rendered index gives in order one entry a package with its name, version, architecture, pool path, size and digest, if and only if in every package the names differ ignoring case and are within the reader's bounds; otherwise it is refused |
| `DebDigestFields.OwnDigestFieldCollides` | formats/deb/render.go:216-244 | for every control file the parser accepts, the published names differ ignoring case if and only if it has none of the fields Md5sum, Sha1 and Sha256 |
| `DebDigestFields.ControlFilesRoundTrip` | formats/deb/render.go:124-131 | an index of packages with accepted control files is read back in full if and only if none has a digest field of its own, a name of more than 64 characters or more than 256 fields, and refused otherwise |
| `DebIndexFields.StanzaTells` | formats/deb/render.go:216-244 | a stanza tells, under their names, where the package lies, its size and its MD5, SHA-1 and SHA-256 digests, and every plain field of the control file but those; it has no other field, and no status of an installed package |
| `CrlfIndex.ReturnsAreDropped` | formats/deb/inspect.go:359-406 | up to two carriage returns at the end of a line do not matter |
| `CrlfIndex.CrlfFields` | formats/deb/repository.go:176-224 | a paragraph reads the same with either line ending, in both readers |
| `CrlfIndex.SameParagraphs` | formats/deb/repository.go:128-141 | an index falls into the same paragraphs |
| `CrlfIndex.LineEndingsDoNotMatter` | formats/deb/repository.go:82-141 | every index text is read, or refused, the same with either line ending |
| `IndexSoundness.PackagesAreSound` | formats/deb/repository.go:82-126 | whatever a Packages index contains, what is read from it is at least one entry, each with names of at most 255 characters, a safe path, a size of 63 bits and a SHA-256 digest, no two with the same name, version and architecture |
| `IndexSoundness.FieldsAreSound` | formats/deb/repository.go:176-224 | whatever a paragraph contains, what is read from it are at most 256 fields with names of at most 64 lower-case letters, digits and dashes |
| `IndexSoundness.IndexIsSound` | formats/apk/repository.go:93-147 | whatever an APKINDEX contains, what is read from it has names and versions that are safe in paths, a digest of twenty bytes or none, and no name and version twice |
| `IndexSoundness.HeaderIsSound` | formats/deb/inspect.go:145-159 | whatever sixty bytes are taken for a member's header have its trailer, a usable name in the first sixteen and its size in the ten before the trailer |
| `Integers.ParseFormatInt` | formats/rpm/render.go:251-270 | a printed integer of any width is read back with its sign |
| `ApkIndex.WriteField` | formats/apk/render.go:240-249 | an empty value writes nothing, any other one line without breaks |
| `ApkIndex.RenderIndex` | formats/apk/render.go:207-236 | one block a package with an empty line between two |
| `ApkIndex.ParseIndexEntries` | formats/apk/repository.go:93-147 | the block loop with its skipped, refused, repeated and ambiguous entries |
| `ApkIndex.Note` | formats/apk/repository.go:134-145 | positions in the table stay right, known keys keep theirs, and only a new key adds an entry |
| `ApkIndex.DecodeQ1` | formats/apk/repository.go:151-160 | a control digest has twenty bytes or none |
| `ApkIndexRoundTrip.ComponentIsSafe` | formats/apk/repository.go:250-253 | every name and version the renderer accepts is one the parser accepts and writes unchanged |
| `ApkIndexRoundTrip.BlockReads` | formats/apk/repository.go:99-133 | whatever the free-text fields contain, a block is read as its package |
| `ApkIndexRoundTrip.IndexBlocks` | formats/apk/repository.go:96-97 | the blocks of an index are those of its packages |
| `ApkIndexRoundTrip.IndexRoundTrip` | formats/apk/repository.go:93-147 | a rendered index is never refused, and gives back every package in order if and only if no two share name, dash and version |
| `ApkIndexRoundTrip.PublishedAt` | formats/apk/render.go:207-249 | an entry has its package's name, version and size, and its architecture and control digest unless those contain line breaks |
| `ApkIndexRoundTrip.ServedRoundTrip` | formats/apk/render.go:70-82 | for packages at distinct locations, an architecture's index gives all of them back if and only if none shares name and version with a `noarch` one |
| `ApkIndexFields.EntryTells` | formats/apk/render.go:207-236 | an entry tells each of the fourteen values of its package under its own key, whatever the others contain, and leaves out the empty ones |
| `ApkIndexFields.WordsReadBack` | formats/apk/render.go:228-233 | the words under D and p are the package's own |
| `ApkIndexFields.ChecksumReads` | formats/apk/repository.go:151-160 | a checksum is read as the twenty bytes that follow its prefix, and as no digest if there are not twenty or there is another prefix |
| `ApkIndexMerge.RepeatedAreMerged` | formats/apk/repository.go:134-145 | however often an index repeats a name and version, it is listed once, where and as it comes first, and is ambiguous exactly if a later one has another control digest |
| `ArArchive.Walk` | formats/deb/inspect.go:138-172 | the loop terminates, and succeeds exactly if some list of at most 64 members tiles the archive; it returns that list, the only one |
| `ArArchive.ReadArMembers` | formats/deb/inspect.go:129-174 | the same for an archive and its magic |
| `ArArchive.LayoutGeometry` | formats/deb/inspect.go:129-174 | members are in order, disjoint, in bounds and even-aligned, and 8 plus the sum of 60, size and padding is the archive's size |
| `ArRoundTrip.HeaderReadsBack` | formats/deb/inspect.go:145-159 | a header gives back the name and size in its columns, with or without a slash, whatever the stamps between |
| `ArRoundTrip.ArchiveReadsBack` | formats/deb/inspect.go:129-174 | an archive of any files is read as those files, in order, with names, sizes and offsets, if and only if there are at most 64 |
| `ArRoundTrip.ContentsReadBack` | formats/deb/inspect.go:160-171 | and each offset and size is where that file's content lies |
| `RpmDependencies.EncodeDependencies` | formats/rpm/render.go:236-257 | the kept entries, one a line |
| `RpmDependencies.DecodeDependencies` | formats/rpm/render.go:259-277 | the readable lines, in order |
| `RpmDependencies.DependenciesRoundTrip` | formats/rpm/render.go:236-277 | decoding what was encoded gives the entries in order minus exactly those without a name or with a separator, for every 32-bit flag |
| `RpmDependencies.NothingLost` | formats/rpm/render.go:236-277 | nothing is lost if and only if every entry has a name and no separators |
| `RpmHeader.ReadIndex` | formats/rpm/inspect.go:325-341 | accepted if and only if every entry is well-formed; the first entry of a tag wins |
| `RpmHeader.ReadHeader` | formats/rpm/inspect.go:291-343 | accepted if and only if magic, counts, index and store fit; every entry then points into the store |
| `RpmHeader.Past` | formats/rpm/inspect.go:377-377 | the 32-bit offset arithmetic never wraps inside a store |
| `RpmHeader.Strings` | formats/rpm/inspect.go:367-380 | the strings of an array, every access inside the store |
| `RpmHeader.Int32s` | formats/rpm/inspect.go:383-397 | as many signed numbers as are counted and fit |
| `RpmHeader.Dependencies` | formats/rpm/inspect.go:400-419 | the zipped arrays, a missing flag zero and a missing version empty |
| `RpmHeader.StringsReadBack` | formats/rpm/inspect.go:367-432 | an array of NUL-ended strings is read back from wherever it lies |
| `RpmHeader.HeaderSurvivesLock` | formats/rpm/inspect.go:400-419 | what any header says of dependencies survives the lock minus exactly what the encoder drops |
| `RpmHeader.DescribedSurvive` | formats/rpm/inspect.go:367-432 | from the bytes of the three arrays to the lock and back |
| `RpmRoundTrip.NumberReadsBack` | formats/rpm/inspect.go:302-303 | a number is read from its four bytes, the last one the least significant |
| `RpmRoundTrip.SignedReadsBack` | formats/rpm/inspect.go:383-397 | a signed one from its two's complement |
| `RpmRoundTrip.HeaderReadsBack` | formats/rpm/inspect.go:291-343 | a header laid out as the format says, anywhere in a file, is accepted if and only if it has some entries, not too many, of known types and inside a store that is not too long; its index and store are those written |
| `RpmRoundTrip.TableReadsBack` | formats/rpm/inspect.go:325-341 | the first entry of each tag is found as it was written |
| `RpmRoundTrip.PackageReadsBack` | formats/rpm/inspect.go:291-419 | dependencies written into the arrays of a header, anywhere in a file, are read back in order and survive the lock minus exactly what the encoder drops |
| `HelmSigning.LockedPaths` | formats/signing.go:370-382 | each chart path of the lock once, and no other |
| `HelmSigning.ChartFiles` | formats/helm/render.go:38-56 | succeeds if and only if every chart is valid and no identity is bound to different bytes; one file for each chart path |
| `HelmSigning.Build` | formats/helm/render.go:29-67 | the files that carry a blob lie at exactly the chart paths, each once |
| `HelmSigning.PublishedPaths` | engine/signing_recipe.go:109-118 | the paths of the files that carry a blob |
| `HelmSigning.ShapesAgree` | formats/signing.go:303-316 | the two path lists sort to the same signing shape, whatever order they were found in |
| `HelmSigning.CheckShape` | engine/signing_recipe.go:54-105 | the shape worked out from the lock is the shape of the built tree, whenever it can be built, and has exactly one provenance file for each chart, beside the path made of its digest, name and version |

## Left out

- Time is in whole seconds, and a client is recent if it refreshed less than the window ago.
- RotationSafety.RotationIsSafe: covers one rollback between publications, the only one the command offers, not chains of them; only runs free of the two hazards, which RotationExactness shows to be exact; and takes a native revision that comes back, on a host that names by tree, to have the signing state it had.
- RotationExactness.CarefulIsExact: calls a step safe by all its careful continuations, because a hazard shows only later.
- Preparation.PrepareRepository: folds the comparisons of configuration, lock, tooling and signing recipe into one condition, and takes the ledger's state as given.
- ApplyOutcomes.AppliesCommitOnce: takes the host at its word that a commit serves what was staged and a restore puts back what was displaced, and has no other actor on the repository.
- ApplyRun.Execution.Apply: leaves every answer of a gate, a host, a probe, the file system and Git open, and does not model what the staged trees contain.
- HostRaces.RestoreUndoesItsCommit: remembers what a commit replaced by the native name it got, where hosts keep a descriptor for each stage.
- SiteIndex.FoldRepository: takes a repository's visible versions as given, and where versions are not ordered does not say which one is kept.
- PypiVersion.CompareVersions: works on parsed versions; the regular expression of PEP 440 is not modelled.
- RawVersion.VersionPreorder: takes semantic-version comparison, a library, as any total preorder.
- DebIndexRoundTrip.IndexRoundTrip: takes any order of the fields, where the source ranks them; the check of pool paths is a parameter.
- ApkIndexRoundTrip.IndexRoundTrip: takes the base64 decoder as a parameter, and holds for at most a million packages, the parser's own limit.
- ArArchive.ReadArMembers: reads from a byte string instead of a reader that can fail.
- ArRoundTrip.ArchiveReadsBack: takes files whose size fits in ten columns and whose name fits in sixteen, which is what the format can hold.
- CrlfIndex.LineEndingsDoNotMatter: is about texts without other carriage returns.
- RpmHeader.ReadHeader: reads from a byte string likewise; the lead, the signature header and the payload are not modelled.
- HelmSigning.ChartFiles: identities are pairs instead of text joined with a NUL, and the checks of chart names, semantic versions and digests are one parameter.
- Text is a sequence of characters; white space is what Go's unicode package calls space, and invalid UTF-8 is not modelled.
- Byte limits of the text parsers and the count limit of the Packages parser.
- Git, the file system, the network, host adapters, credentials and approvals beyond their yes or no.
- OpenPGP, RSA, digests, compression, tar, YAML, XML and URL handling.
- The rsync host, import and adoption sessions, the doctor, listing pages and CI templates.
- The RPM version comparison, the Release file, PyPI pages, the YAML of Helm indexes and repomd.xml.
