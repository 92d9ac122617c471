/** Both hazards happen: runs of steps the guard accepts, from a host where nothing was
    signed, with keys made yesterday and valid for years, that leave a client behind. */
module RotationHazards {
  import opened Wrappers
  import opened Records
  import opened SigningTransition
  import opened RotationSafety

  const DAY := 24 * HOUR

  /** An empty host at some instant. */
  function Start(now: int, byTree: bool): World {
    World(now, None, now, None, [], NO_DEPLOYMENT, now, None, map[], byTree)
  }

  function OrdinaryKey(fingerprint: string, now: int): SigningKey {
    SigningKey(fingerprint, Some(now - DAY), Some(now + 3650 * DAY))
  }

  function TwoKeys(now: int): Keys { map["a" := OrdinaryKey("A", now), "b" := OrdinaryKey("B", now)] }

  function SignedBy(name: string): Repository { Repository([name], "keys/r.gpg", None) }

  function Rotating(phase: Phase, refresh: int): Repository {
    Repository(["a"], "keys/r.gpg", Some(Rotation("b", phase, refresh)))
  }

  function PlanFor(tree: string): PlanRepository {
    PlanRepository("r", "r:" + tree, tree, "m", NO_REVISION, NO_DEPLOYMENT, false, true, Update)
  }

  /** Publish a new tree now. */
  function Publishing(repository: Repository, now: int, at: int, tree: string): Step {
    Publish(repository, TwoKeys(now), at, PlanFor(tree), "p", at, tree)
  }

  lemma {:induction false} KeysAreValid(now: int)
    ensures var keys := TwoKeys(now);
            && "a" in keys && "b" in keys && keys["a"] == OrdinaryKey("A", now) && keys["b"] == OrdinaryKey("B", now)
            && (forall name | name in keys :: ValidKey(keys[name]))
            && (forall n1, n2 | n1 in keys && n2 in keys && n1 != n2 :: keys[n1].fingerprint != keys[n2].fingerprint)
  {
    assert "a"[0] == 'a' && "b"[0] == 'b' && "A"[0] == 'A' && "B"[0] == 'B';
  }

  const STABLE_A := SigningState("A", ["A"], "keys/r.gpg", Stable, 0)

  const STABLE_B := SigningState("B", ["B"], "keys/r.gpg", Stable, 0)

  /** A first signing is accepted as long as no receipt says otherwise. */
  lemma {:induction false} FirstSigningAccepted(w: World, name: string, now: int, tree: string)
    requires w.receipt == NO_DEPLOYMENT && w.now == now && name in {"a", "b"} && tree != "" && tree !in w.named
    requires tree != Observe(w).native
    ensures Enabled(w, Publishing(SignedBy(name), now, now, tree))
    ensures var next := Next(w, Publishing(SignedBy(name), now, now, tree));
            && next.live.Some? && next.live.value.signing == (if name == "a" then STABLE_A else STABLE_B)
            && next.live.value.revision.native == tree && next.live.value.revision.tree == tree
            && next.receipt == w.receipt && next.now == now && next.liveSince == now && next.past == Retire(w)
  {
    KeysAreValid(now);
    assert "a"[0] != "b"[0];
  }

  lemma {:induction false} LeftBehind(w: World, signing: SigningState, t: int, window: int)
    requires ServedAt(w, signing, t) && w.now - t < window && w.live.Some? && !Mutual(signing, w.live.value.signing)
    ensures !ClientsSafe(w, window)
  {
  }

  lemma {:induction false} DifferentKeys()
    ensures !Mutual(STABLE_A, STABLE_B)
  {
    assert "A"[0] != "B"[0];
  }

  /** The first hazard: a first signing is replaced before its receipt is written. A client
      that refreshed at that instant does not know the key that signs what is live. */
  lemma {:induction false} ReplacedFirstSigning(now: int, byTree: bool) returns (steps: seq<Step>)
    ensures Initial(Start(now, byTree)) && EnabledAll(Start(now, byTree), steps)
    ensures !ClientsSafe(Execute(Start(now, byTree), steps), MINIMUM_SIGNING_REFRESH)
  {
    var w := Start(now, byTree);
    var first, second := Publishing(SignedBy("a"), now, now, "t1"), Publishing(SignedBy("b"), now, now, "t2");
    FirstIsUndeployed(now, byTree);
    var w1 := Next(w, first);
    assert "t1"[1] != "t2"[1];
    FirstSigningAccepted(w1, "b", now, "t2");
    var w2 := Next(w1, second);
    assert w2.past[0] == Exposure(STABLE_A, now, now);
    DifferentKeys();
    LeftBehind(w2, STABLE_A, now, MINIMUM_SIGNING_REFRESH);
    OneMore(w1, second, []);
    OneMore(w, first, [second] + []);
    steps := [first] + ([second] + []);
  }

  // ----- a refresh that wraps around -----

  /** Its nanoseconds wrap around to less than a third of a second. */
  const WRAPPING_REFRESH := 18_446_744_074

  lemma {:induction false} WrapsToOneSecond()
    ensures Duration(WRAPPING_REFRESH) == 290_448_384 && WaitSeconds(WRAPPING_REFRESH) == 1
  {
  }

  const INTRODUCED := SigningState("A", ["A", "B"], "keys/r.gpg", Introducing, WRAPPING_REFRESH)

  const ACTIVATED := SigningState("B", ["A", "B"], "keys/r.gpg", Activated, WRAPPING_REFRESH)

  /** This state is live and recorded. */
  predicate Deployed(w: World, signing: SigningState, tree: string, since: int) {
    && w.live.Some? && w.live.value.signing == signing && w.pending.None?
    && w.live.value.revision.native == tree && w.live.value.revision.tree == tree
    && w.receipt.signing == signing && w.receipt.native == tree && w.receipt.tree == tree
    && w.receipt.manifest == "m" && w.live.value.revision.manifest in {"", "m"}
    && w.receipt.trustSince == Some(since) && w.committedAt == since
  }

  /** This state is live and waits for its receipt. */
  predicate Undeployed(w: World, signing: SigningState, tree: string) {
    && w.live.Some? && w.live.value.signing == signing && w.pending.Some?
    && w.live.value.revision.native == tree && w.live.value.revision.tree == tree
    && w.live.value.revision.manifest in {"", "m"}
    && w.pending.value.publication == w.live.value && w.pending.value.planned == PlanFor(tree)
    && w.receipt.signing != signing
  }

  lemma {:induction false} ReceiptDeploys(w: World, signing: SigningState, tree: string)
    requires Undeployed(w, signing, tree) && signing.Signed()
    ensures Enabled(w, WriteReceipt(w.now))
    ensures var next := Next(w, WriteReceipt(w.now));
            Deployed(next, signing, tree, w.now) && next.now == w.now && next.past == w.past && next.liveSince == w.liveSince
            && next.named == w.named
  {
  }

  lemma {:induction false} FirstIsUndeployed(now: int, byTree: bool)
    ensures var w := Start(now, byTree);
            var step := Publishing(SignedBy("a"), now, now, "t1");
            && Enabled(w, step) && Undeployed(Next(w, step), STABLE_A, "t1")
            && Next(w, step).now == now && Next(w, step).past == [] && Next(w, step).liveSince == now
            && Next(w, step).receipt == NO_DEPLOYMENT
            && Next(w, step).named == map["t1" := STABLE_A]
  {
    FirstSigningAccepted(Start(now, byTree), "a", now, "t1");
  }

  /** The introduction passes the validity check, because the wait it computes is short. */
  lemma {:induction false} IntroductionAccepted(w: World, now: int)
    requires Deployed(w, STABLE_A, "t1", now) && w.now == now && w.named == map["t1" := STABLE_A]
    ensures var step := Publishing(Rotating(Introducing, WRAPPING_REFRESH), now, now, "t2");
            && Enabled(w, step) && Undeployed(Next(w, step), INTRODUCED, "t2")
            && Next(w, step).now == now && Next(w, step).past == w.past + [Exposure(STABLE_A, w.liveSince, now)]
            && Next(w, step).named == map["t1" := STABLE_A, "t2" := INTRODUCED]
  {
    KeysAreValid(now);
    WrapsToOneSecond();
    assert "t1"[1] != "t2"[1] && "a"[0] != "b"[0];
    var repository := Rotating(Introducing, WRAPPING_REFRESH);
    assert SigningStateOf(repository, TwoKeys(now)) == Ok(INTRODUCED);
    assert ValidateRotationKeyValidity(repository, TwoKeys(now), now).Ok?;
    assert INTRODUCED.trusted[..1] == ["A"];
  }

  /** A second later the successor signs. */
  lemma {:induction false} ActivationAccepted(w: World, now: int)
    requires Deployed(w, INTRODUCED, "t2", now) && w.now == now + 1 && w.named == map["t1" := STABLE_A, "t2" := INTRODUCED]
    ensures var step := Publishing(Rotating(Activated, WRAPPING_REFRESH), now, now + 1, "t3");
            && Enabled(w, step) && Next(w, step).live.Some? && Next(w, step).live.value.signing == ACTIVATED
            && Next(w, step).now == now + 1 && w.past <= Next(w, step).past
  {
    KeysAreValid(now);
    WrapsToOneSecond();
    assert "t1"[1] == '1' && "t2"[1] == '2' && "t3"[1] == '3' && "a"[0] != "b"[0];
    var repository := Rotating(Activated, WRAPPING_REFRESH);
    assert SigningStateOf(repository, TwoKeys(now)) == Ok(ACTIVATED);
    assert ValidateRotationKeyValidity(repository, TwoKeys(now), now + 1).Ok?;
    assert TransitionReady(w.receipt, now + 1, TrustNotBefore(w, repository));
  }

  lemma {:induction false} OneMore(w: World, step: Step, rest: seq<Step>)
    requires Enabled(w, step) && EnabledAll(Next(w, step), rest)
    ensures EnabledAll(w, [step] + rest) && Execute(w, [step] + rest) == Execute(Next(w, step), rest)
  {
    assert ([step] + rest)[1..] == rest;
  }

  /** From the recorded stable key to a live successor in one second. */
  lemma {:induction false} QuickActivation(w: World, now: int) returns (steps: seq<Step>)
    requires Deployed(w, STABLE_A, "t1", now) && w.now == now && w.liveSince == now && w.past == []
    requires w.named == map["t1" := STABLE_A]
    ensures EnabledAll(w, steps)
    ensures var after := Execute(w, steps);
            && after.now == now + 1 && after.live.Some? && after.live.value.signing == ACTIVATED
            && ServedAt(after, STABLE_A, now)
  {
    IntroductionAccepted(w, now);
    var introduce := Publishing(Rotating(Introducing, WRAPPING_REFRESH), now, now, "t2");
    var w1 := Next(w, introduce);
    ReceiptDeploys(w1, INTRODUCED, "t2");
    var w2 := Next(w1, WriteReceipt(now));
    var w3 := Next(w2, Tick(1));
    ActivationAccepted(w3, now);
    var activate := Publishing(Rotating(Activated, WRAPPING_REFRESH), now, now + 1, "t3");
    var w4 := Next(w3, activate);
    assert w4.past[0] == Exposure(STABLE_A, now, now);
    assert ServedAt(w4, STABLE_A, now);
    OneMore(w3, activate, []);
    OneMore(w2, Tick(1), [activate] + []);
    OneMore(w1, WriteReceipt(now), [Tick(1)] + ([activate] + []));
    OneMore(w, introduce, [WriteReceipt(now)] + ([Tick(1)] + ([activate] + [])));
    steps := [introduce] + ([WriteReceipt(now)] + ([Tick(1)] + ([activate] + [])));
  }

  /** The second hazard: one second after a client refreshed, a key it has never seen signs
      what is live, although the manifest asks for a refresh of centuries. */
  lemma {:induction false} WrappedRefresh(now: int, byTree: bool) returns (steps: seq<Step>)
    ensures Initial(Start(now, byTree)) && EnabledAll(Start(now, byTree), steps)
    ensures !ClientsSafe(Execute(Start(now, byTree), steps), MINIMUM_SIGNING_REFRESH)
  {
    var w := Start(now, byTree);
    var first := Publishing(SignedBy("a"), now, now, "t1");
    FirstIsUndeployed(now, byTree);
    var w1 := Next(w, first);
    ReceiptDeploys(w1, STABLE_A, "t1");
    var w2 := Next(w1, WriteReceipt(now));
    var rest := QuickActivation(w2, now);
    OneMore(w1, WriteReceipt(now), rest);
    OneMore(w, first, [WriteReceipt(now)] + rest);
    steps := [first] + ([WriteReceipt(now)] + rest);
    assert "A"[0] != "B"[0];
    LeftBehind(Execute(w2, rest), STABLE_A, now, MINIMUM_SIGNING_REFRESH);
  }

  /** Not every refresh that wraps does this: the first one wraps to minus 292 years, and the
      guard refuses its introduction for every successor made since then. */
  lemma {:induction false} FirstWrapIsRefused(repository: Repository, keys: Keys, at: int)
    requires ValidManifest(repository, keys) && repository.rotation.Some?
    requires repository.rotation.value.phase == Introducing && repository.rotation.value.minimumRefresh == MAX_REFRESH + 1
    requires at - MAX_REFRESH <= keys[repository.rotation.value.successor].createdAt.value
    ensures ValidateRotationKeyValidity(repository, keys, at) == Err(KeysExpireDuringRotation)
  {
    assert Duration(MAX_REFRESH + 1) == -9_223_372_036_709_551_616;
  }
}
