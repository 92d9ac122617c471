/** Key rotation as a timed state machine: any sequence of publications that pass
    the guard, receipts written (or lost, or written by a retry) after them, one-step rollbacks, one of which
    may leave the host empty, passing time, and a manifest edited at will before each publication.

    Two clients are protected. One refreshed its keyring up to `window` seconds ago
    and reads what is live now; the other holds today's keyring and reads, from a
    mirror or a cache, something that was live up to `window` seconds ago. */
module RotationSafety {
  import opened Wrappers
  import opened Records
  import opened SigningTransition

  datatype Publication = Publication(revision: Revision, signing: SigningState)

  /** A publication that is no longer live, with the instants it was served between. */
  datatype Exposure = Exposure(signing: SigningState, since: int, until: int)

  /** A publication whose receipt is not written yet, and what it replaced. */
  datatype Pending = Pending(publication: Publication, observed: Revision, planned: PlanRepository, deployedAt: int)

  /** `displaced` is what a rollback would put back; `named` holds the signing state under
      every native revision the host gave out. A host names revisions `byTree`, and then
      gives a tree published again its old name and cannot restore (a local directory); or
      it names every commit anew, and can. */
  datatype World = World(
    now: int,
    live: Option<Publication>, liveSince: int,
    displaced: Option<Publication>,
    past: seq<Exposure>,
    receipt: DeploymentRecord, committedAt: int,
    pending: Option<Pending>,
    named: map<string, SigningState>,
    byTree: bool)

  datatype Step =
    | Tick(seconds: nat)
    | Publish(repository: Repository, keys: Keys, at: int, planned: PlanRepository, planID: string,
              deployedAt: int, native: string)
    | WriteReceipt(gitTime: int)
    | RetryReceipt(gitTime: int)
    | Rollback(native: string)
    | Empty

  function Observe(w: World): Revision {
    if w.live.Some? then w.live.value.revision else NO_REVISION
  }

  /** The receipt's trust instant, as its git commit attests it. */
  function TrustSince(w: World): (r: Option<int>)
    ensures r.Some? <==> w.receipt.trustSince.Some?
    ensures r.Some? ==> w.receipt.trustSince.value <= r.value
  {
    AuthoritativeTrustSince(w.receipt, Some(w.committedAt)).value
  }

  /** The trust instant apply hands to the guard: read only when a rotation is involved. */
  function TrustNotBefore(w: World, repository: Repository): Option<int> {
    if repository.rotation.Some? || w.receipt.signing.phase != Stable then TrustSince(w) else None
  }

  function Guard(w: World, repository: Repository, keys: Keys, at: int): Result<SigningState, Refusal>
    requires repository.rotation.Some? ==> repository.signingKeys != []
  {
    ValidateTransition(repository, keys, w.receipt, Observe(w), at, TrustNotBefore(w, repository))
  }

  /** A commit produces a revision never seen before, or, by tree, one that was live with the
      same content and is not live now; a restore produces a new one, or brings back the
      displaced revision itself. Where nothing was displaced a restore deletes what is live.
      A run that finds its plan already live writes the receipt against what is live. */
  ghost predicate Enabled(w: World, step: Step) {
    match step
    case Tick(_) => true
    case Publish(repository, keys, at, planned, _, _, native) =>
      && ValidManifest(repository, keys)
      && at <= w.now
      && Guard(w, repository, keys, at).Ok?
      && native != ""
      && (if w.byTree then
            && native == planned.desiredTree && native != Observe(w).native
            && (native in w.named ==> w.named[native] == Guard(w, repository, keys, at).value)
          else native !in w.named)
    case WriteReceipt(_) => w.pending.Some?
    case RetryReceipt(_) => w.pending.Some? && w.live == Some(w.pending.value.publication)
    case Rollback(native) =>
      && !w.byTree && w.live.Some? && w.displaced.Some?
      && (native == w.displaced.value.revision.native || (native != "" && native !in w.named))
    case Empty => !w.byTree && w.live.Some? && w.displaced.None?
  }

  /** What the clients that refreshed until now have seen. */
  function Retire(w: World): seq<Exposure> {
    if w.live.Some? then w.past + [Exposure(w.live.value.signing, w.liveSince, w.now)] else w.past
  }

  ghost function Next(w: World, step: Step): World
    requires Enabled(w, step)
  {
    match step
    case Tick(seconds) => w.(now := w.now + seconds)
    case Publish(repository, keys, at, planned, planID, deployedAt, native) =>
      var signing := Guard(w, repository, keys, at).value;
      var revision := if w.byTree then NO_REVISION.(native := native, tree := planned.desiredTree)
                      else NO_REVISION.(native := native, tree := planned.desiredTree, planID := planID,
                                        changeID := planned.changeID, manifest := planned.desiredManifest);
      var publication := Publication(revision, signing);
      w.(live := Some(publication), liveSince := w.now, displaced := w.live, past := Retire(w),
         pending := Some(Pending(publication, Observe(w), planned, deployedAt)), named := w.named[native := signing])
    case WriteReceipt(gitTime) =>
      var Pending(publication, observed, planned, deployedAt) := w.pending.value;
      w.(receipt := DeploymentRecordFor(planned, w.receipt, observed, publication.signing, publication.revision.native,
                                        publication.revision.planID, deployedAt, w.now),
         committedAt := gitTime, pending := None)
    case RetryReceipt(gitTime) =>
      var Pending(publication, _, planned, deployedAt) := w.pending.value;
      w.(receipt := DeploymentRecordFor(planned, w.receipt, Observe(w), publication.signing, publication.revision.native,
                                        publication.revision.planID, deployedAt, w.now),
         committedAt := gitTime, pending := None)
    case Rollback(native) =>
      var back := w.displaced.value;
      w.(live := Some(back.(revision := back.revision.(native := native))), liveSince := w.now,
         displaced := None, past := Retire(w), named := w.named[native := back.signing])
    case Empty => w.(live := None, past := Retire(w))
  }

  ghost predicate EnabledAll(w: World, steps: seq<Step>)
    decreases |steps|
  {
    steps == [] || (Enabled(w, steps[0]) && EnabledAll(Next(w, steps[0]), steps[1..]))
  }

  ghost function Execute(w: World, steps: seq<Step>): World
    requires EnabledAll(w, steps)
    decreases |steps|
  {
    if steps == [] then w else Execute(Next(w, steps[0]), steps[1..])
  }

  /** Nothing was ever signed, and no receipt was ever written. */
  predicate Initial(w: World) {
    && (w.live.Some? ==> w.live.value.signing == UNSIGNED && IsNamed(w, w.live.value))
    && w.liveSince <= w.now
    && w.displaced.None? && w.past == [] && w.pending.None?
    && w.receipt == NO_DEPLOYMENT
    && "" !in w.named
  }

  /** The host gave this publication its native revision. */
  predicate IsNamed(w: World, p: Publication) {
    p.revision.native in w.named && w.named[p.revision.native] == p.signing
  }

  // ----- the property -----

  /** A client refreshing at instant t was handed this signing state. */
  predicate ServedAt(w: World, signing: SigningState, t: int) {
    || (w.live.Some? && signing == w.live.value.signing && w.liveSince <= t <= w.now)
    || exists i | 0 <= i < |w.past| :: w.past[i].signing == signing && w.past[i].since <= t <= w.past[i].until
  }

  predicate Mutual(a: SigningState, b: SigningState) {
    a.Signed() && b.Signed() ==> a.active in b.trusted && b.active in a.trusted
  }

  /** Whatever was served less than `window` seconds ago, its keyring verifies what
      is live, and its signature verifies under the live keyring. */
  ghost predicate ClientsSafe(w: World, window: int) {
    forall signing, t ::
      ServedAt(w, signing, t) && w.now - t < window && w.live.Some? ==> Mutual(signing, w.live.value.signing)
  }

  // ----- the two hazards -----

  /** A signed state is live or was live, but no receipt says the repository is signed. */
  predicate FirstSigningPending(w: World) {
    w.pending.Some? && w.pending.value.publication.signing.Signed() && !w.receipt.signing.Signed()
  }

  /** ... and clients saw that key within the window. */
  ghost predicate FirstSigningAtRisk(w: World, window: int) {
    && FirstSigningPending(w)
    && exists signing, t ::
         && ServedAt(w, signing, t) && w.now - t < window
         && signing.active == w.pending.value.publication.signing.active
  }

  /** A publication is careful when it does not abandon an unrecorded first signing
      that clients saw, and when a rotation it starts really waits as long as the window. */
  ghost predicate Careful(w: World, step: Step, window: int)
    requires Enabled(w, step)
  {
    step.Publish? ==>
      var signing := Guard(w, step.repository, step.keys, step.at).value;
      && (FirstSigningAtRisk(w, window) ==> signing.active == w.pending.value.publication.signing.active)
      && (signing.phase == Introducing ==> window <= WaitSeconds(signing.minimumRefresh))
  }

  ghost predicate CarefulAll(w: World, steps: seq<Step>, window: int)
    requires EnabledAll(w, steps)
    decreases |steps|
  {
    steps == [] || (Careful(w, steps[0], window) && CarefulAll(Next(w, steps[0]), steps[1..], window))
  }

  // ----- the invariant -----

  predicate Shape(s: SigningState) {
    || s == UNSIGNED
    || (s.Signed() && s.phase == Stable && s.trusted == [s.active] && s.minimumRefresh == 0)
    || (s.Signed() && s.phase != Stable && |s.trusted| == 2 && s.trusted[0] != s.trusted[1]
        && s.active == s.trusted[if s.phase == Activated then 1 else 0])
  }

  /** Every signed state that is, or may without a wait become, live. */
  predicate InPlay(w: World, s: SigningState) {
    || s == w.receipt.signing
    || (w.live.Some? && s == w.live.value.signing)
    || (w.displaced.Some? && s == w.displaced.value.signing)
    || (w.pending.Some? && s == w.pending.value.publication.signing)
  }

  predicate Recent(e: Exposure, now: int, window: int) { now - e.until < window }

  ghost predicate Clocks(w: World) {
    && w.liveSince <= w.now
    && (forall e | e in w.past :: e.since <= e.until <= w.now)
    && (w.receipt.trustSince.Some? ==> w.receipt.trustSince.value <= w.now)
  }

  /** A native revision names one signing state. */
  predicate Natives(w: World) {
    && "" !in w.named
    && (w.receipt.native == "" ==> w.receipt == NO_DEPLOYMENT)
    && (w.receipt.native != "" ==> w.receipt.native in w.named && w.named[w.receipt.native] == w.receipt.signing)
    && (w.live.Some? ==> IsNamed(w, w.live.value))
    && (w.displaced.Some? ==> w.live.Some? && IsNamed(w, w.displaced.value)
                              && w.displaced.value.revision.native != w.live.value.revision.native)
  }

  /** What is known of the publication that waits for its receipt. */
  predicate Awaits(w: World) {
    w.pending.Some? ==>
      var p := w.pending.value.publication;
      && IsNamed(w, p)
      && (w.live.Some? && w.live.value.revision.native == p.revision.native ==>
            w.pending.value.observed == (if w.displaced.Some? then w.displaced.value.revision else NO_REVISION))
      && (w.displaced.Some? ==> w.displaced.value.revision.native != p.revision.native)
      && (if w.byTree then w.live == Some(p) else p.revision.native != w.receipt.native)
  }

  /** Compatible with the phase the receipt leads to next. */
  predicate Clean(receipt: SigningState, s: SigningState) {
    s.Signed() ==>
      && (receipt.phase == Introducing && |receipt.trusted| == 2 ==> receipt.trusted[1] in s.trusted)
      && (receipt.phase == Activated ==> s.active == receipt.active)
  }

  /** While the receipt's revision is live, or is what the live revision replaced, and by
      tree always, everything served since the receipt's trust instant is clean. */
  ghost predicate CleanSince(w: World) {
    w.receipt.trustSince.Some? &&
    (|| w.byTree
     || (w.live.Some? && w.live.value.revision.native == w.receipt.native)
     || (w.live.Some? && w.displaced.Some? && w.displaced.value.revision.native == w.receipt.native)) ==>
      && (w.live.Some? ==> Clean(w.receipt.signing, w.live.value.signing))
      && (forall e | e in w.past && e.until > w.receipt.trustSince.value :: Clean(w.receipt.signing, e.signing))
  }

  /** Until a receipt says the repository is signed, only the key waiting for its
      receipt has signed anything served within the window. */
  predicate OnlyPendingKey(w: World, s: SigningState) {
    s.Signed() ==> FirstSigningPending(w) && s.phase == Stable
                   && s.active == w.pending.value.publication.signing.active
  }

  ghost predicate FirstSigning(w: World, window: int) {
    !w.receipt.signing.Signed() ==>
      && (forall e | e in w.past && Recent(e, w.now, window) :: OnlyPendingKey(w, e.signing))
      && (forall s | InPlay(w, s) :: OnlyPendingKey(w, s))
  }

  ghost predicate Inv(w: World, window: int) {
    && Clocks(w) && Natives(w) && Awaits(w)
    && (forall s | InPlay(w, s) :: Shape(s) && (s.phase != Stable ==> window <= WaitSeconds(s.minimumRefresh)))
    && (forall e | e in w.past :: Shape(e.signing))
    && (w.receipt.signing.Signed() <==> w.receipt.trustSince.Some?)
    && (w.receipt.signing.Signed() && w.pending.Some? ==> w.pending.value.publication.signing.Signed())
    && (forall s, r | InPlay(w, s) && InPlay(w, r) :: Mutual(s, r))
    && (forall e, s | e in w.past && Recent(e, w.now, window) && InPlay(w, s) :: Mutual(e.signing, s))
    && CleanSince(w)
    && FirstSigning(w, window)
  }

  // ----- every step keeps it -----

  lemma DesiredShape(repository: Repository, keys: Keys)
    requires ValidManifest(repository, keys)
    ensures SigningStateOf(repository, keys).Ok? && Shape(SigningStateOf(repository, keys).value)
  {
  }

  lemma TickKeeps(w: World, seconds: nat, window: int)
    requires Inv(w, window)
    ensures Inv(Next(w, Tick(seconds)), window)
  {
    var w' := Next(w, Tick(seconds));
    assert forall s :: InPlay(w', s) ==> InPlay(w, s);
    assert forall e :: Recent(e, w'.now, window) ==> Recent(e, w.now, window);
  }

  /** Without a signed receipt the guard lets through only an unsigned or a stable state. */
  lemma FirstSigningShape(w: World, step: Step, window: int)
    requires Inv(w, window) && Enabled(w, step) && step.Publish? && !w.receipt.signing.Signed()
    ensures var signing := Guard(w, step.repository, step.keys, step.at).value;
            signing == UNSIGNED || (Shape(signing) && signing.Signed() && signing.phase == Stable)
  {
    DesiredShape(step.repository, step.keys);
  }

  lemma AtRiskWhenServed(w: World, e: Exposure, window: int)
    requires Inv(w, window) && !w.receipt.signing.Signed() && 0 < window
    requires e in Retire(w) && Recent(e, w.now, window) && e.signing.Signed()
    ensures FirstSigningAtRisk(w, window) && OnlyPendingKey(w, e.signing)
  {
    if e in w.past {
      assert ServedAt(w, e.signing, e.until);
    } else {
      assert InPlay(w, e.signing);
      assert ServedAt(w, e.signing, w.now);
    }
  }

  lemma FirstSigningKeeps(w: World, step: Step, window: int)
    requires Inv(w, window) && Enabled(w, step) && step.Publish? && Careful(w, step, window)
    requires !w.receipt.signing.Signed() && 0 < window
    ensures FirstSigning(Next(w, step), window)
  {
    FirstSigningShape(w, step, window);
    var w' := Next(w, step);
    forall e | e in w'.past && Recent(e, w'.now, window) ensures OnlyPendingKey(w', e.signing) {
      if e.signing.Signed() { AtRiskWhenServed(w, e, window); }
    }
    forall s | InPlay(w', s) ensures OnlyPendingKey(w', s) {
      PublishInPlay(w, step, s);
      if w.live.Some? && s == w.live.value.signing && s.Signed() {
        AtRiskWhenServed(w, Exposure(s, w.liveSince, w.now), window);
      }
    }
  }

  /** What the guard lets through under a signed receipt agrees with everything in play
      after the publication, and with everything served within the window. */
  lemma PublishAgrees(w: World, step: Step, window: int)
    requires Inv(w, window) && Enabled(w, step) && step.Publish? && Careful(w, step, window)
    requires w.receipt.signing.Signed()
    ensures var signing := Guard(w, step.repository, step.keys, step.at).value;
            && signing.Signed()
            && Mutual(signing, w.receipt.signing)
            && (w.live.Some? ==> Mutual(signing, w.live.value.signing))
            && (forall e | e in w.past && Recent(e, w.now, window) :: Mutual(e.signing, signing))
            && (w.byTree || (w.live.Some? && w.live.value.revision.native == w.receipt.native) ==> Clean(w.receipt.signing, signing))
  {
    DesiredShape(step.repository, step.keys);
    var signing := Guard(w, step.repository, step.keys, step.at).value;
    var deployed := w.receipt.signing;
    assert InPlay(w, deployed);
    if !DeploymentSigningMatches(w.receipt, signing) {
      assert w.live.Some? && w.live.value.signing == deployed;
      if signing.phase != Introducing {
        var trusted := TrustNotBefore(w, step.repository);
        WaitMeaning(step.at, trusted.value, deployed.minimumRefresh);
        forall e | e in w.past && Recent(e, w.now, window) ensures Mutual(e.signing, signing) {
          assert Mutual(e.signing, deployed);
          assert e.until > w.receipt.trustSince.value;
          assert Clean(deployed, e.signing);
        }
      } else {
        forall e | e in w.past && Recent(e, w.now, window) ensures Mutual(e.signing, signing) {
          assert Mutual(e.signing, deployed);
        }
      }
    }
  }

  lemma PublishNames(w: World, step: Step, window: int)
    requires Inv(w, window) && Enabled(w, step) && step.Publish?
    ensures var w' := Next(w, step); Clocks(w') && Natives(w') && Awaits(w')
  {
  }

  lemma PublishClean(w: World, step: Step, window: int)
    requires Inv(w, window) && Enabled(w, step) && step.Publish? && Careful(w, step, window)
    ensures CleanSince(Next(w, step))
  {
    if w.receipt.signing.Signed() {
      PublishAgrees(w, step, window);
    }
  }

  /** After a publication only the receipt, the new state and the replaced one are in play. */
  lemma PublishInPlay(w: World, step: Step, s: SigningState)
    requires Enabled(w, step) && step.Publish? && InPlay(Next(w, step), s)
    ensures s == Next(w, step).live.value.signing || s == w.receipt.signing || (w.live.Some? && s == w.live.value.signing)
    ensures s == Next(w, step).live.value.signing || InPlay(w, s)
  {
  }

  lemma PublishMutual(w: World, step: Step, window: int, s: SigningState)
    requires 0 < window
    requires Inv(w, window) && Enabled(w, step) && step.Publish? && Careful(w, step, window)
    requires InPlay(Next(w, step), s)
    ensures forall r | InPlay(Next(w, step), r) :: Mutual(s, r)
    ensures forall e | e in w.past && Recent(e, w.now, window) :: Mutual(e.signing, s)
  {
    var w' := Next(w, step);
    DesiredShape(step.repository, step.keys);
    assert InPlay(w, w.receipt.signing);
    forall r | InPlay(w', r) ensures Mutual(s, r) {
      PublishInPlay(w, step, s);
      PublishInPlay(w, step, r);
      if w.receipt.signing.Signed() { PublishAgrees(w, step, window); } else { FirstSigningKeeps(w, step, window); }
    }
    forall e | e in w.past && Recent(e, w.now, window) ensures Mutual(e.signing, s) {
      PublishInPlay(w, step, s);
      if w.receipt.signing.Signed() { PublishAgrees(w, step, window); } else { FirstSigningKeeps(w, step, window); }
    }
  }

  lemma PublishPastShapes(w: World, step: Step, window: int)
    requires Inv(w, window) && Enabled(w, step) && step.Publish?
    ensures forall e | e in Next(w, step).past :: Shape(e.signing)
  {
    if w.live.Some? {
      assert InPlay(w, w.live.value.signing);
    }
  }

  lemma PublishShapes(w: World, step: Step, window: int)
    requires Inv(w, window) && Enabled(w, step) && step.Publish? && Careful(w, step, window)
    ensures forall s | InPlay(Next(w, step), s) :: Shape(s) && (s.phase != Stable ==> window <= WaitSeconds(s.minimumRefresh))
  {
    forall s | InPlay(Next(w, step), s)
      ensures Shape(s) && (s.phase != Stable ==> window <= WaitSeconds(s.minimumRefresh))
    {
      PublishInPlay(w, step, s);
      if s == Next(w, step).live.value.signing {
        PublishedShape(w, step, window);
      }
    }
  }

  lemma PublishedShape(w: World, step: Step, window: int)
    requires Inv(w, window) && Enabled(w, step) && step.Publish? && Careful(w, step, window)
    ensures var s := Next(w, step).live.value.signing;
            Shape(s) && (s.phase != Stable ==> window <= WaitSeconds(s.minimumRefresh))
  {
    DesiredShape(step.repository, step.keys);
    assert InPlay(w, w.receipt.signing);
  }

  lemma PublishKeeps(w: World, step: Step, window: int)
    requires 0 < window
    requires Inv(w, window) && Enabled(w, step) && step.Publish? && Careful(w, step, window)
    ensures Inv(Next(w, step), window)
  {
    var w' := Next(w, step);
    PublishNames(w, step, window);
    PublishClean(w, step, window);
    DesiredShape(step.repository, step.keys);
    if w.receipt.signing.Signed() { PublishAgrees(w, step, window); } else { FirstSigningKeeps(w, step, window); }
    PublishShapes(w, step, window);
    PublishPastShapes(w, step, window);
    forall s, r | InPlay(w', s) && InPlay(w', r) ensures Mutual(s, r) { PublishMutual(w, step, window, s); }
    forall e, s | e in w'.past && Recent(e, w'.now, window) && InPlay(w', s) ensures Mutual(e.signing, s) {
      PublishMutual(w, step, window, s);
      assert e in w.past || InPlay(w', e.signing);
    }
  }

  lemma ReceiptKeeps(w: World, gitTime: int, window: int)
    requires Inv(w, window) && Enabled(w, WriteReceipt(gitTime))
    ensures Inv(Next(w, WriteReceipt(gitTime)), window)
  {
    var w' := Next(w, WriteReceipt(gitTime));
    assert forall s :: InPlay(w', s) ==> InPlay(w, s);
    assert InPlay(w, w'.receipt.signing);
  }

  lemma RetryKeeps(w: World, gitTime: int, window: int)
    requires Inv(w, window) && Enabled(w, RetryReceipt(gitTime))
    ensures Inv(Next(w, RetryReceipt(gitTime)), window)
  {
    var w' := Next(w, RetryReceipt(gitTime));
    assert forall s :: InPlay(w', s) ==> InPlay(w, s);
    assert InPlay(w, w'.receipt.signing);
  }

  lemma RollbackKeeps(w: World, native: string, window: int)
    requires Inv(w, window) && Enabled(w, Rollback(native))
    ensures Inv(Next(w, Rollback(native)), window)
  {
    var w' := Next(w, Rollback(native));
    assert forall s :: InPlay(w', s) ==> InPlay(w, s);
    assert InPlay(w, w.live.value.signing);
  }

  lemma EmptyKeeps(w: World, window: int)
    requires Inv(w, window) && Enabled(w, Empty)
    ensures Inv(Next(w, Empty), window)
  {
    var w' := Next(w, Empty);
    assert forall s :: InPlay(w', s) ==> InPlay(w, s);
    assert InPlay(w, w.live.value.signing);
  }

  lemma StepKeeps(w: World, step: Step, window: int)
    requires 0 < window
    requires Inv(w, window) && Enabled(w, step) && Careful(w, step, window)
    ensures Inv(Next(w, step), window)
  {
    match step
    case Tick(seconds) => TickKeeps(w, seconds, window);
    case Publish(_, _, _, _, _, _, _) => PublishKeeps(w, step, window);
    case WriteReceipt(gitTime) => ReceiptKeeps(w, gitTime, window);
    case RetryReceipt(gitTime) => RetryKeeps(w, gitTime, window);
    case Rollback(native) => RollbackKeeps(w, native, window);
    case Empty => EmptyKeeps(w, window);
  }

  lemma InitialInv(w: World, window: int)
    requires Initial(w)
    ensures Inv(w, window)
  {
    assert forall s :: InPlay(w, s) ==> s == UNSIGNED;
  }

  lemma {:induction false} RunKeeps(w: World, steps: seq<Step>, window: int)
    requires 0 < window
    requires Inv(w, window) && EnabledAll(w, steps) && CarefulAll(w, steps, window)
    ensures Inv(Execute(w, steps), window)
    decreases |steps|
  {
    if steps != [] {
      StepKeeps(w, steps[0], window);
      RunKeeps(Next(w, steps[0]), steps[1..], window);
    }
  }

  lemma InvIsSafe(w: World, window: int)
    requires Inv(w, window)
    ensures ClientsSafe(w, window)
  {
    forall signing, t | ServedAt(w, signing, t) && w.now - t < window && w.live.Some?
      ensures Mutual(signing, w.live.value.signing)
    {
      assert InPlay(w, w.live.value.signing);
      if signing != w.live.value.signing {
        var i :| 0 <= i < |w.past| && w.past[i].signing == signing && w.past[i].since <= t <= w.past[i].until;
        assert Recent(w.past[i], w.now, window);
      }
    }
  }

  /** In every careful run, both kinds of client are safe at every moment. */
  lemma RotationIsSafe(w: World, steps: seq<Step>, window: int)
    requires 0 < window
    requires Initial(w) && EnabledAll(w, steps) && CarefulAll(w, steps, window)
    ensures ClientsSafe(Execute(w, steps), window)
  {
    InitialInv(w, window);
    RunKeeps(w, steps, window);
    InvIsSafe(Execute(w, steps), window);
  }
}
