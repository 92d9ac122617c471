/** Bounded concurrent work whose result does not depend on the schedule
    (loadLockedBlobs in engine/locked_blobs.go, prepareRepositories in
    engine/workspace.go). Each worker takes a slot, checks for cancellation, does its
    independent piece of work, writes its own result and gives the slot back. */
module BoundedWorkers {
  import opened Wrappers

  datatype Worker<T, E> = Waiting | Inside | Done(result: Result<T, E>)

  datatype Pool<T, E> = Pool(workers: seq<Worker<T, E>>, slots: nat, cancelled: bool)

  datatype Step = Enter(index: nat) | Finish(index: nat) | GiveUp(index: nat) | Cancel

  /** How many workers hold a slot. */
  function Busy<T, E>(workers: seq<Worker<T, E>>): nat {
    if workers == [] then 0 else Busy(workers[1..]) + if workers[0].Inside? then 1 else 0
  }

  /** A worker enters while the channel has room, and finishes with what its work gives;
      once the context is cancelled it may report that instead. */
  predicate Enabled<T, E>(pool: Pool<T, E>, step: Step) {
    match step
    case Enter(i) => i < |pool.workers| && pool.workers[i].Waiting? && Busy(pool.workers) < pool.slots
    case Finish(i) => i < |pool.workers| && pool.workers[i].Inside?
    case GiveUp(i) => i < |pool.workers| && pool.workers[i].Inside? && pool.cancelled
    case Cancel => true
  }

  function Next<T, E>(pool: Pool<T, E>, step: Step, work: seq<Result<T, E>>, cancellation: E): Pool<T, E>
    requires Enabled(pool, step) && |work| == |pool.workers|
  {
    match step
    case Enter(i) => pool.(workers := pool.workers[i := Inside])
    case Finish(i) => pool.(workers := pool.workers[i := Done(work[i])])
    case GiveUp(i) => pool.(workers := pool.workers[i := Done(Err(cancellation))])
    case Cancel => pool.(cancelled := true)
  }

  function Start<T, E>(n: nat, slots: nat): Pool<T, E> { Pool(seq(n, i => Waiting), slots, false) }

  ghost predicate Schedule<T, E>(pool: Pool<T, E>, steps: seq<Step>, work: seq<Result<T, E>>, cancellation: E)
    requires |work| == |pool.workers|
    decreases |steps|
  {
    steps == [] ||
    (Enabled(pool, steps[0]) && Schedule(Next(pool, steps[0], work, cancellation), steps[1..], work, cancellation))
  }

  ghost function Run<T, E>(pool: Pool<T, E>, steps: seq<Step>, work: seq<Result<T, E>>, cancellation: E): (after: Pool<T, E>)
    requires |work| == |pool.workers| && Schedule(pool, steps, work, cancellation)
    ensures |after.workers| == |pool.workers|
    decreases |steps|
  {
    if steps == [] then pool else Run(Next(pool, steps[0], work, cancellation), steps[1..], work, cancellation)
  }

  predicate Finished<T, E>(pool: Pool<T, E>) { forall i | 0 <= i < |pool.workers| :: pool.workers[i].Done? }

  // ----- what the caller gets -----

  /** One piece after the other, stopping at the first failure. */
  function Sequential<T, E>(work: seq<Result<T, E>>): Result<seq<T>, E> {
    if work == [] then Ok([])
    else
      var first :- work[0];
      var rest :- Sequential(work[1..]);
      Ok([first] + rest)
  }

  function Results<T, E>(pool: Pool<T, E>): (results: seq<Result<T, E>>)
    requires Finished(pool)
    ensures |results| == |pool.workers| && forall i | 0 <= i < |results| :: results[i] == pool.workers[i].result
  {
    seq(|pool.workers|, i requires 0 <= i < |pool.workers| => pool.workers[i].result)
  }

  /** The loop over the failures once every worker is done. */
  method Collect<T, E>(results: seq<Result<T, E>>) returns (r: Result<seq<T>, E>)
    ensures r == Sequential(results)
    ensures r.Err? ==> exists i | 0 <= i < |results| :: results[i] == Err(r.error) && forall j | 0 <= j < i :: results[j].Ok?
    ensures r.Ok? ==> |r.value| == |results| && forall i | 0 <= i < |results| :: results[i] == Ok(r.value[i])
  {
    for i := 0 to |results|
      invariant forall j | 0 <= j < i :: results[j].Ok?
    {
      if results[i].Err? {
        FirstFailure(results, i);
        return Err(results[i].error);
      }
    }
    var loaded := seq(|results|, i requires 0 <= i < |results| && results[i].Ok? => results[i].value);
    AllSucceed(results, loaded);
    return Ok(loaded);
  }

  lemma {:induction false} FirstFailure<T, E>(work: seq<Result<T, E>>, i: nat)
    requires i < |work| && work[i].Err? && forall j | 0 <= j < i :: work[j].Ok?
    ensures Sequential(work) == Err(work[i].error)
  {
    if i > 0 {
      FirstFailure(work[1..], i - 1);
    }
  }

  lemma {:induction false} AllSucceed<T, E>(work: seq<Result<T, E>>, values: seq<T>)
    requires |values| == |work| && forall i | 0 <= i < |work| :: work[i] == Ok(values[i])
    ensures Sequential(work) == Ok(values)
  {
    if work != [] {
      AllSucceed(work[1..], values[1..]);
      assert values == [values[0]] + values[1..];
    }
  }

  // ----- every schedule -----

  lemma {:induction false} BusyUpdate<T, E>(workers: seq<Worker<T, E>>, i: nat, w: Worker<T, E>)
    requires i < |workers|
    ensures Busy(workers[i := w]) ==
              Busy(workers) - (if workers[i].Inside? then 1 else 0) + (if w.Inside? then 1 else 0)
  {
    if i > 0 {
      BusyUpdate(workers[1..], i - 1, w);
      assert workers[i := w][1..] == workers[1..][i - 1 := w];
    } else {
      assert workers[i := w][1..] == workers[1..];
    }
  }

  /** A finished worker holds its own piece's result, or the cancellation. */
  predicate OwnResult<T(==), E(==)>(pool: Pool<T, E>, work: seq<Result<T, E>>, cancellation: E) {
    && |work| == |pool.workers|
    && forall i | 0 <= i < |work| && pool.workers[i].Done? ::
         pool.workers[i].result == work[i] || (pool.cancelled && pool.workers[i].result == Err(cancellation))
  }

  lemma {:induction false} RunInvariant<T, E>(pool: Pool<T, E>, steps: seq<Step>, work: seq<Result<T, E>>, cancellation: E)
    requires OwnResult(pool, work, cancellation) && Busy(pool.workers) <= pool.slots
    requires Schedule(pool, steps, work, cancellation)
    ensures var after := Run(pool, steps, work, cancellation);
            && OwnResult(after, work, cancellation) && Busy(after.workers) <= after.slots && after.slots == pool.slots
            && (after.cancelled <==> pool.cancelled || Cancel in steps)
    decreases |steps|
  {
    if steps != [] {
      var step := steps[0];
      if !step.Cancel? {
        BusyUpdate(pool.workers, step.index, Inside);
        BusyUpdate(pool.workers, step.index, Done(work[step.index]));
        BusyUpdate(pool.workers, step.index, Done(Err(cancellation)));
      }
      RunInvariant(Next(pool, step, work, cancellation), steps[1..], work, cancellation);
      assert steps == [step] + steps[1..];
    }
  }

  lemma {:induction false} NobodyBusy<T, E>(workers: seq<Worker<T, E>>)
    requires forall i | 0 <= i < |workers| :: !workers[i].Inside?
    ensures Busy(workers) == 0
  {
    if workers != [] {
      NobodyBusy(workers[1..]);
    }
  }

  /** Never more workers inside than slots, and after every complete schedule without a
      cancellation the caller gets the sequential result. */
  lemma ScheduleDoesNotMatter<T, E>(work: seq<Result<T, E>>, slots: nat, steps: seq<Step>, cancellation: E)
    requires Schedule(Start(|work|, slots), steps, work, cancellation)
    ensures var after := Run(Start(|work|, slots), steps, work, cancellation);
            && Busy(after.workers) <= slots
            && (Finished(after) && Cancel !in steps ==> Sequential(Results(after)) == Sequential(work))
  {
    var start := Start<T, E>(|work|, slots);
    NobodyBusy(start.workers);
    RunInvariant(start, steps, work, cancellation);
    var after := Run(start, steps, work, cancellation);
    if Finished(after) && Cancel !in steps {
      assert Results(after) == work;
    }
  }

  /** Even after a cancellation a success is the full sequential result. */
  lemma SuccessIsSequential<T, E>(work: seq<Result<T, E>>, slots: nat, steps: seq<Step>, cancellation: E)
    requires Schedule(Start(|work|, slots), steps, work, cancellation)
    requires Finished(Run(Start(|work|, slots), steps, work, cancellation))
    ensures var r := Sequential(Results(Run(Start(|work|, slots), steps, work, cancellation)));
            r.Ok? ==> r == Sequential(work)
  {
    var start := Start<T, E>(|work|, slots);
    NobodyBusy(start.workers);
    RunInvariant(start, steps, work, cancellation);
    var results := Results(Run(start, steps, work, cancellation));
    if Sequential(results).Ok? {
      SuccessMeansAll(results);
      assert results == work;
    }
  }

  lemma {:induction false} SuccessMeansAll<T, E>(work: seq<Result<T, E>>)
    requires Sequential(work).Ok?
    ensures forall i | 0 <= i < |work| :: work[i].Ok?
  {
    if work != [] {
      SuccessMeansAll(work[1..]);
      assert forall i | 1 <= i < |work| :: work[i] == work[1..][i - 1];
    }
  }

  /** With at least one slot, some worker can always move until all are done. */
  lemma NeverStuck<T, E>(pool: Pool<T, E>) returns (step: Step)
    requires pool.slots > 0 && !Finished(pool)
    ensures Enabled(pool, step) && !step.Cancel?
  {
    var i :| 0 <= i < |pool.workers| && !pool.workers[i].Done?;
    if pool.workers[i].Inside? {
      step := Finish(i);
    } else if exists j :: 0 <= j < |pool.workers| && pool.workers[j].Inside? {
      var j :| 0 <= j < |pool.workers| && pool.workers[j].Inside?;
      step := Finish(j);
    } else {
      NobodyBusy(pool.workers);
      step := Enter(i);
    }
  }

  function Remaining<T, E>(workers: seq<Worker<T, E>>): nat {
    if workers == [] then 0
    else Remaining(workers[1..]) + match workers[0] case Waiting => 2 case Inside => 1 case Done(_) => 0
  }

  lemma {:induction false} RemainingUpdate<T, E>(workers: seq<Worker<T, E>>, i: nat, w: Worker<T, E>)
    requires i < |workers|
    requires (workers[i].Waiting? && w.Inside?) || (workers[i].Inside? && w.Done?)
    ensures Remaining(workers[i := w]) == Remaining(workers) - 1
  {
    if i > 0 {
      RemainingUpdate(workers[1..], i - 1, w);
      assert workers[i := w][1..] == workers[1..][i - 1 := w];
    } else {
      assert workers[i := w][1..] == workers[1..];
    }
  }

  /** And each move brings the end closer, so every schedule finishes. */
  lemma EveryMoveCounts<T, E>(pool: Pool<T, E>, step: Step, work: seq<Result<T, E>>, cancellation: E)
    requires |work| == |pool.workers| && Enabled(pool, step) && !step.Cancel?
    ensures Remaining(Next(pool, step, work, cancellation).workers) == Remaining(pool.workers) - 1
  {
    RemainingUpdate(pool.workers, step.index, Next(pool, step, work, cancellation).workers[step.index]);
  }
}
