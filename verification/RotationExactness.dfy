/** The two ways a run of accepted publications can leave a client behind, and
    that there is no third: a step is careful exactly when every careful
    continuation of it is safe. */
module RotationExactness {
  import opened Wrappers
  import opened Records
  import opened SigningTransition
  import opened RotationSafety

  const PLANNED := PlanRepository("r", "r:t", "t", "m", NO_REVISION, NO_DEPLOYMENT, false, true, Update)

  ghost function LongestPlusOne(names: set<string>): (n: nat)
    ensures forall name | name in names :: |name| < n
  {
    if names == {} then 1
    else
      var name :| name in names;
      var rest := LongestPlusOne(names - {name});
      if |name| < rest then rest else |name| + 1
  }

  /** There is always a native revision a host has not produced. */
  ghost function FreshNative(used: set<string>): (name: string)
    ensures name != "" && name !in used
  {
    seq(LongestPlusOne(used) + 1, i => 'n')
  }

  /** One step continues a run. */
  lemma Extend(w: World, step: Step, rest: seq<Step>, window: int)
    requires Enabled(w, step) && Careful(w, step, window)
    requires EnabledAll(Next(w, step), rest) && CarefulAll(Next(w, step), rest, window)
    ensures EnabledAll(w, [step] + rest) && CarefulAll(w, [step] + rest, window)
    ensures Execute(w, [step] + rest) == Execute(Next(w, step), rest)
  {
    assert ([step] + rest)[1..] == rest;
  }

  ghost predicate Endangers(w: World, rest: seq<Step>, window: int) {
    EnabledAll(w, rest) && CarefulAll(w, rest, window) && !ClientsSafe(Execute(w, rest), window)
  }

  lemma UnsafeNow(w: World, signing: SigningState, t: int, window: int)
    requires ServedAt(w, signing, t) && w.now - t < window && w.live.Some?
    requires !Mutual(signing, w.live.value.signing)
    ensures Endangers(w, [], window)
  {
  }

  /** What was served before a publication was served after it too. */
  lemma StillServed(w: World, step: Step, signing: SigningState, t: int)
    requires Enabled(w, step) && (step.Publish? || step.WriteReceipt? || step.Tick?)
    requires ServedAt(w, signing, t)
    ensures ServedAt(Next(w, step), signing, t)
  {
    if step.Publish? {
      var past := Next(w, step).past;
      if w.live.Some? && signing == w.live.value.signing && w.liveSince <= t <= w.now {
        assert past[|past| - 1] == Exposure(signing, w.liveSince, w.now);
      } else {
        var i :| 0 <= i < |w.past| && w.past[i].signing == signing && w.past[i].since <= t <= w.past[i].until;
        assert past[i] == w.past[i];
      }
    }
  }

  /** A recent signed state under an unsigned receipt trusts one key only. */
  lemma OneKeyServed(w: World, signing: SigningState, t: int, window: int)
    requires Inv(w, window) && !w.receipt.signing.Signed() && 0 < window
    requires ServedAt(w, signing, t) && w.now - t < window && signing.Signed()
    ensures signing.trusted == [signing.active]
  {
    if w.live.Some? && signing == w.live.value.signing {
      assert InPlay(w, signing);
    } else {
      var i :| 0 <= i < |w.past| && w.past[i].signing == signing && w.past[i].since <= t <= w.past[i].until;
      assert Recent(w.past[i], w.now, window) && w.past[i] in w.past;
    }
  }

  /** Publishing a stable state under one other key, from an unsigned recorded state. */
  lemma OtherKeyAccepted(w: World, key: string) returns (step: Step)
    requires w.live.Some? && w.pending.None? && key != ""
    requires !w.receipt.signing.Signed() && w.receipt.native != ""
    requires HostServesReceipt(w.receipt, Observe(w))
    ensures step.Publish? && Enabled(w, step)
    ensures forall window :: Careful(w, step, window)
    ensures Next(w, step).live.value.signing == SigningState(key, [key], "keys/k.gpg", Stable, 0)
    ensures Next(w, step).now == w.now
  {
    var keys := map["k" := SigningKey(key, Some(0), Some(1))];
    var repository := Repository(["k"], "keys/k.gpg", None);
    var native := FreshNative(w.named.Keys + {Observe(w).native});
    step := Publish(repository, keys, w.now, PLANNED.(desiredTree := native), "p", 0, native);
  }

  /** Once an unsigned state is recorded, any key may come next. */
  lemma AnyKeyEndangers(w: World, signing: SigningState, t: int, window: int) returns (rest: seq<Step>)
    requires ServedAt(w, signing, t) && w.now - t < window && signing.Signed() && signing.trusted == [signing.active]
    requires w.live.Some? && w.pending.None? && !w.receipt.signing.Signed() && w.receipt.native != ""
    requires HostServesReceipt(w.receipt, Observe(w))
    ensures Endangers(w, rest, window)
  {
    var other := OtherKeyAccepted(w, signing.active + "x");
    StillServed(w, other, signing, t);
    UnsafeNow(Next(w, other), signing, t, window);
    rest := [other] + [];
  }

  /** Writing the receipt now records an unsigned state that is served. */
  ghost predicate WritesUnsigned(w: World) {
    && Enabled(w, WriteReceipt(w.now))
    && var v := Next(w, WriteReceipt(w.now));
       && v.now == w.now && v.live.Some? && v.pending.None? && !v.receipt.signing.Signed() && v.receipt.native != ""
       && HostServesReceipt(v.receipt, Observe(v))
  }

  lemma UnsignedIsWritten(w: World, step: Step, window: int)
    requires Inv(w, window) && Enabled(w, step) && step.Publish? && 0 < window && FirstSigningAtRisk(w, window)
    requires !Next(w, step).live.value.signing.Signed()
    ensures WritesUnsigned(Next(w, step))
  {
    FirstSigningShape(w, step, window);
  }

  lemma UnsignedEndangers(w: World, signing: SigningState, t: int, window: int) returns (rest: seq<Step>)
    requires ServedAt(w, signing, t) && w.now - t < window && signing.Signed() && signing.trusted == [signing.active]
    requires WritesUnsigned(w)
    ensures Endangers(w, rest, window)
  {
    var receipt := WriteReceipt(w.now);
    StillServed(w, receipt, signing, t);
    var more := AnyKeyEndangers(Next(w, receipt), signing, t, window);
    rest := [receipt] + more;
  }

  /** First hazard: the unrecorded first signing is replaced. */
  lemma AbandoningEndangers(w: World, step: Step, window: int) returns (rest: seq<Step>)
    requires Inv(w, window) && Enabled(w, step) && step.Publish? && 0 < window
    requires FirstSigningAtRisk(w, window)
    requires Guard(w, step.repository, step.keys, step.at).value.active != w.pending.value.publication.signing.active
    ensures Endangers(Next(w, step), rest, window)
  {
    var signing, t :| && ServedAt(w, signing, t) && w.now - t < window
                      && signing.active == w.pending.value.publication.signing.active;
    var w1 := Next(w, step);
    FirstSigningShape(w, step, window);
    OneKeyServed(w, signing, t, window);
    StillServed(w, step, signing, t);
    if w1.live.value.signing.Signed() {
      UnsafeNow(w1, signing, t, window);
      rest := [];
    } else {
      UnsignedIsWritten(w, step, window);
      rest := UnsignedEndangers(w1, signing, t, window);
    }
  }

  /** Keys that outlive every representable duration. */
  function LongLived(keys: Keys, base: string, successor: string, now: int): Keys
    requires base in keys && successor in keys
  {
    var last := now + TWO_TO_63;
    keys[base := SigningKey(keys[base].fingerprint, Some(last - 1), Some(last))]
        [successor := SigningKey(keys[successor].fingerprint, Some(last - 1), Some(last))]
  }

  /** A client that knows only the key before the rotation does not know its successor. */
  predicate KnowsOnly(earlier: SigningState, introduced: SigningState) {
    && earlier.Signed() && earlier.trusted == [introduced.active]
    && |introduced.trusted| == 2 && introduced.trusted[1] != introduced.active && introduced.trusted[1] != ""
  }

  /** The rotation is recorded and served. */
  ghost predicate Recorded(w: World, repository: Repository, keys: Keys, introduced: SigningState) {
    && ValidManifest(repository, keys) && repository.rotation.Some?
    && SigningStateOf(repository, keys) == Ok(introduced) && introduced.phase == Introducing
    && w.receipt.signing == introduced && w.receipt.native != "" && w.receipt.trustSince.Some? && w.pending.None?
    && HostServesReceipt(w.receipt, Observe(w))
  }

  lemma ActivationEndangers(
    w: World, repository: Repository, keys: Keys, introduced: SigningState, earlier: SigningState, t: int, window: int)
    returns (rest: seq<Step>)
    requires Recorded(w, repository, keys, introduced) && KnowsOnly(earlier, introduced)
    requires TrustSince(w).value + WaitSeconds(introduced.minimumRefresh) <= w.now
    requires ServedAt(w, earlier, t) && w.now - t < window
    ensures Endangers(w, rest, window)
  {
    var activate := Activation(w, repository, keys, introduced);
    StillServed(w, activate, earlier, t);
    UnsafeNow(Next(w, activate), earlier, t, window);
    rest := [activate] + [];
  }

  lemma WaitEndangers(
    w: World, repository: Repository, keys: Keys, introduced: SigningState, earlier: SigningState, t: int, window: int)
    returns (rest: seq<Step>)
    requires Recorded(w, repository, keys, introduced) && KnowsOnly(earlier, introduced) && 0 < window
    requires TrustSince(w).Some? && TrustSince(w).value <= w.now == t
    requires WaitSeconds(introduced.minimumRefresh) < window && ServedAt(w, earlier, t)
    ensures Endangers(w, rest, window)
  {
    var wait := WaitSeconds(introduced.minimumRefresh);
    var tick := Tick(if wait < 0 then 0 else wait);
    StillServed(w, tick, earlier, t);
    var more := ActivationEndangers(Next(w, tick), repository, keys, introduced, earlier, t, window);
    rest := [tick] + more;
  }

  /** Second hazard: a rotation whose wait is shorter than the window. */
  lemma ShortWaitEndangers(w: World, step: Step, window: int) returns (rest: seq<Step>)
    requires Inv(w, window) && Enabled(w, step) && step.Publish? && 0 < window
    requires var signing := Guard(w, step.repository, step.keys, step.at).value;
             signing.phase == Introducing && WaitSeconds(signing.minimumRefresh) < window
    ensures Endangers(Next(w, step), rest, window)
  {
    var w1 := Next(w, step);
    var introduced := w1.live.value.signing;
    DesiredShape(step.repository, step.keys);
    assert InPlay(w, w.receipt.signing);
    assert w.live.Some? && w.live.value.signing == w.receipt.signing && w.receipt.signing.trusted == [introduced.active];
    var earlier := w.live.value.signing;
    assert ServedAt(w, earlier, w.now);
    StillServed(w, step, earlier, w.now);
    var receipt := WriteReceipt(w1.now);
    StillServed(w1, receipt, earlier, w.now);
    var more := WaitEndangers(Next(w1, receipt), step.repository, step.keys, introduced, earlier, w.now, window);
    rest := [receipt] + more;
  }

  /** Once the deployed wait is over, the activated phase is accepted. */
  lemma Activation(w: World, repository: Repository, keys: Keys, introduced: SigningState) returns (step: Step)
    requires ValidManifest(repository, keys) && repository.rotation.Some?
    requires SigningStateOf(repository, keys) == Ok(introduced) && introduced.phase == Introducing
    requires w.receipt.signing == introduced && w.receipt.native != "" && w.receipt.trustSince.Some? && w.pending.None?
    requires HostServesReceipt(w.receipt, Observe(w))
    requires TrustSince(w).value + WaitSeconds(introduced.minimumRefresh) <= w.now
    ensures step.Publish? && Enabled(w, step)
    ensures forall window :: Careful(w, step, window)
    ensures Next(w, step).live.value.signing == introduced.(phase := Activated, active := introduced.trusted[1])
    ensures Next(w, step).now == w.now
  {
    var rotation := repository.rotation.value;
    var activated := repository.(rotation := Some(rotation.(phase := Activated)));
    var keys' := LongLived(keys, repository.signingKeys[0], rotation.successor, w.now);
    var native := FreshNative(w.named.Keys + {Observe(w).native});
    step := Publish(activated, keys', w.now, PLANNED.(desiredTree := native), "p", 0, native);
    WaitMeaning(w.now, TrustSince(w).value, introduced.minimumRefresh);
    assert ValidateRotationKeyValidity(activated, keys', w.now).Ok?;
    assert ValidManifest(activated, keys');
    assert TransitionReady(w.receipt, w.now, TrustNotBefore(w, activated));
  }

  /** Careful steps are exactly the steps after which nothing careful can go wrong. */
  lemma CarefulIsExact(start: World, run: seq<Step>, step: Step, window: int)
    requires 0 < window && Initial(start)
    requires EnabledAll(start, run) && CarefulAll(start, run, window)
    requires Enabled(Execute(start, run), step)
    ensures var w := Execute(start, run);
            Careful(w, step, window) <==> forall rest :: !Endangers(Next(w, step), rest, window)
  {
    var w := Execute(start, run);
    InitialInv(start, window);
    RunKeeps(start, run, window);
    if Careful(w, step, window) {
      forall rest | EnabledAll(Next(w, step), rest) && CarefulAll(Next(w, step), rest, window)
        ensures ClientsSafe(Execute(Next(w, step), rest), window)
      {
        StepKeeps(w, step, window);
        RunKeeps(Next(w, step), rest, window);
        InvIsSafe(Execute(Next(w, step), rest), window);
      }
    } else {
      var signing := Guard(w, step.repository, step.keys, step.at).value;
      if signing.phase == Introducing && WaitSeconds(signing.minimumRefresh) < window {
        var rest := ShortWaitEndangers(w, step, window);
      } else {
        var rest := AbandoningEndangers(w, step, window);
      }
    }
  }

  /** With the repository's own window of seven days, the second hazard needs a
      refresh of more than 292 years. */
  lemma SevenDaysIsCareful(w: World, step: Step)
    requires Enabled(w, step) && step.Publish?
    requires !FirstSigningAtRisk(w, MINIMUM_SIGNING_REFRESH)
    requires step.repository.rotation.Some? ==> step.repository.rotation.value.minimumRefresh <= MAX_REFRESH
    ensures Careful(w, step, MINIMUM_SIGNING_REFRESH)
  {
    if step.repository.rotation.Some? {
      WaitIsRefresh(step.repository.rotation.value.minimumRefresh);
    }
  }
}
