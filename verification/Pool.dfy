/** Concurrent inspection of a resumed prefix: a feeder, at most eight workers, and cancellation. */
module Pool {
  import opened Wrappers

  const WORKERS: nat := 8

  // Why the shared context ended: an inspection failed, or the caller gave up.
  datatype Cause<E> = Failed(job: nat, error: E) | Interrupted

  // Between jobs; holding one before the context check; inspecting it; gone.
  datatype Worker = Idle | Taken(job: nat) | Inspecting(job: nat) | Exited

  // Jobs before next have been handed over; open until the job channel is closed.
  datatype Pool<T, E> = Pool(
    next: nat, open: bool, workers: seq<Worker>, cause: Option<Cause<E>>,
    checked: seq<Option<T>>, writes: seq<nat>, returned: Option<Result<seq<Option<T>>, Cause<E>>>)

  datatype Step = Send(w: nat) | StopFeeding | Close | Begin(w: nat) | Skip(w: nat) | Succeed(w: nat) | Fail(w: nat)
    | Drain(w: nat) | Interrupt | Join

  // An empty prefix returns at once; otherwise there are never more workers than jobs.
  function Start<T, E>(n: nat): Pool<T, E> {
    var size := if n < WORKERS then n else WORKERS;
    Pool(0, true, seq(size, _ => Idle), None, seq(n, _ => None), seq(n, _ => 0), if n == 0 then Some(Success([]))
      else None)
  }

  predicate Is(p: Pool, w: nat, state: Worker) {
    w < |p.workers| && p.workers[w] == state
  }

  predicate IsTaken(p: Pool, w: nat) {
    w < |p.workers| && p.workers[w].Taken?
  }

  predicate IsInspecting(p: Pool, w: nat) {
    w < |p.workers| && p.workers[w].Inspecting?
  }

  // outcomes are what a sequential inspection of each descriptor gives. A cancelled inspection may fail whatever its
  // outcome.
  predicate Enabled<T, E>(outcomes: seq<Result<T, E>>, p: Pool<T, E>, step: Step) {
    && p.returned.None?
    && match step
       case Send(w) => p.open && p.next < |outcomes| && Is(p, w, Idle)
       case StopFeeding => p.open && p.next < |outcomes| && p.cause.Some?
       case Close => p.open && p.next >= |outcomes|
       case Begin(w) => IsTaken(p, w) && p.cause.None?
       case Skip(w) => IsTaken(p, w) && p.cause.Some?
       case Succeed(w) => IsInspecting(p, w) && p.workers[w].job < |p.checked| && p.workers[w].job < |p.writes|
                          && p.workers[w].job < |outcomes| && outcomes[p.workers[w].job].Success?
       case Fail(w) => IsInspecting(p, w) && p.workers[w].job < |outcomes|
         && (p.cause.Some? || outcomes[p.workers[w].job].Failure?)
       case Drain(w) => !p.open && Is(p, w, Idle)
       case Interrupt => p.cause.None?
       case Join => !p.open && forall w | 0 <= w < |p.workers| :: p.workers[w] == Exited
  }

  function Apply<T, E>(outcomes: seq<Result<T, E>>, p: Pool<T, E>, step: Step): Pool<T, E>
    requires Enabled(outcomes, p, step)
  {
    match step
    case Send(w) => p.(next := p.next + 1, workers := p.workers[w := Taken(p.next)])
    case StopFeeding => p.(open := false)
    case Close => p.(open := false)
    case Begin(w) => p.(workers := p.workers[w := Inspecting(p.workers[w].job)])
    case Skip(w) => p.(workers := p.workers[w := Exited])
    case Succeed(w) =>
      var i := p.workers[w].job;
      p.(workers := p.workers[w := Idle], checked := p.checked[i := Some(outcomes[i].value)],
        writes := p.writes[i := p.writes[i] + 1])
    case Fail(w) =>
      var i := p.workers[w].job;
      var cause := if p.cause.Some? then p.cause else Some(Failed(i, outcomes[i].error));
      p.(workers := p.workers[w := Exited], cause := cause)
    case Drain(w) => p.(workers := p.workers[w := Exited])
    case Interrupt => p.(cause := Some(Interrupted))
    case Join => p.(returned := Some(if p.cause.Some? then Failure(p.cause.value) else Success(p.checked)))
  }

  // ----- What every interleaving keeps -----

  predicate Holding(worker: Worker, i: nat) {
    worker == Taken(i) || worker == Inspecting(i)
  }

  predicate HeldBy(p: Pool, w: nat, i: nat) {
    w < |p.workers| && Holding(p.workers[w], i)
  }

  // One slot: untouched, or written once with its own outcome.
  predicate SlotSound<T(==), E(==)>(outcomes: seq<Result<T, E>>, p: Pool<T, E>, i: nat)
    requires i < |outcomes| == |p.checked| == |p.writes|
  {
    if p.checked[i].Some? then i < p.next && p.writes[i] == 1 && outcomes[i] == Success(p.checked[i].value)
      else p.writes[i] == 0
  }

  ghost predicate Accounted<T, E>(p: Pool<T, E>, i: nat)
    requires i < |p.checked|
  {
    p.checked[i].Some? || exists w: nat :: HeldBy(p, w, i)
  }

  predicate CauseSound<T, E(==)>(outcomes: seq<Result<T, E>>, cause: Cause<E>) {
    cause.Failed? ==> cause.job < |outcomes| && outcomes[cause.job] == Failure(cause.error)
  }

  ghost predicate Sound<T, E>(outcomes: seq<Result<T, E>>, p: Pool<T, E>) {
    && |outcomes| == |p.checked| == |p.writes| && p.next <= |outcomes|
    && |p.workers| == (if |outcomes| < WORKERS then |outcomes| else WORKERS)
    && (forall i | 0 <= i < |outcomes| :: SlotSound(outcomes, p, i))
    && (forall w: nat, i: nat | HeldBy(p, w, i) :: i < p.next && p.checked[i].None?)
    && (forall v: nat, w: nat, i: nat | HeldBy(p, v, i) && HeldBy(p, w, i) :: v == w)
    && (p.cause.None? ==> forall i | 0 <= i < p.next :: Accounted(p, i))
    && (p.cause.None? && !p.open ==> p.next == |outcomes|)
    && (p.cause.None? && p.open ==> forall w: nat :: !Is(p, w, Exited))
    && (p.cause.Some? ==> CauseSound(outcomes, p.cause.value))
    && (p.returned.Some? ==> Finished(outcomes, p, p.returned.value))
  }

  // What a return means: nobody is left running, and the result is the sequential one or an error with its cause.
  ghost predicate Finished<T, E>(outcomes: seq<Result<T, E>>, p: Pool<T, E>, result: Result<seq<Option<T>>, Cause<E>>) {
    && (forall w | 0 <= w < |p.workers| :: p.workers[w] == Exited)
    && match result
       case Success(values) =>
         && |values| == |outcomes| == |p.writes|
         && forall i | 0 <= i < |values| ::
           values[i].Some? && outcomes[i] == Success(values[i].value) && p.writes[i] == 1
       case Failure(cause) => CauseSound(outcomes, cause)
  }

  lemma StartIsSound<T, E>(outcomes: seq<Result<T, E>>)
    ensures Sound(outcomes, Start(|outcomes|))
  {}

  // A worker starts the inspection it holds, or leaves: with nothing in hand once the channel is closed, or after
  // cancellation.
  lemma WorkerMoves<T, E>(outcomes: seq<Result<T, E>>, p: Pool<T, E>, w: nat, v: Worker, cause: Option<Cause<E>>)
    requires Sound(outcomes, p) && p.returned.None? && w < |p.workers| && p.workers[w] != Exited
    requires v == Exited || (p.workers[w].Taken? && v == Inspecting(p.workers[w].job))
    requires p.cause.Some? ==> cause == p.cause
    requires cause.Some? ==> CauseSound(outcomes, cause.value)
    requires v == Exited && cause.None? ==> !p.open && p.workers[w] == Idle
    ensures Sound(outcomes, p.(workers := p.workers[w := v], cause := cause))
  {
    hide SlotSound, CauseSound, Finished;
    var q := p.(workers := p.workers[w := v], cause := cause);
    forall x: nat, i: nat | HeldBy(q, x, i) ensures HeldBy(p, x, i) {}
    if cause.None? {
      forall i | 0 <= i < q.next ensures Accounted(q, i) {
        assert Accounted(p, i);
        if p.checked[i].None? {
          var x: nat :| HeldBy(p, x, i);
          assert HeldBy(q, x, i);
        }
      }
      if q.open {
        forall x: nat ensures !Is(q, x, Exited) { assert !Is(p, x, Exited); }
      }
    }
    forall i | 0 <= i < |outcomes| ensures SlotSound(outcomes, q, i) { SameSlot(outcomes, p, q, i); }
  }

  lemma SameSlot<T, E>(outcomes: seq<Result<T, E>>, p: Pool<T, E>, q: Pool<T, E>, i: nat)
    requires i < |outcomes| == |p.checked| == |p.writes| && p.next <= q.next && SlotSound(outcomes, p, i)
    requires |q.checked| == |q.writes| == |outcomes| && q.checked[i] == p.checked[i] && q.writes[i] == p.writes[i]
    ensures SlotSound(outcomes, q, i)
  {}

  lemma SendKeeps<T, E>(outcomes: seq<Result<T, E>>, p: Pool<T, E>, w: nat)
    requires Sound(outcomes, p) && Enabled(outcomes, p, Send(w))
    ensures Sound(outcomes, Apply(outcomes, p, Send(w)))
  {
    hide SlotSound, CauseSound, Finished;
    var q := Apply(outcomes, p, Send(w));
    assert p.checked[p.next].None? by { assert SlotSound(outcomes, p, p.next); UnsentIsEmpty(outcomes, p, p.next); }
    forall x: nat, i: nat | HeldBy(q, x, i) ensures if x == w then i == p.next else HeldBy(p, x, i) {}
    if p.cause.None? {
      forall i | 0 <= i < q.next ensures Accounted(q, i) {
        if i == p.next {
          assert HeldBy(q, w, i);
        } else {
          assert Accounted(p, i);
          if p.checked[i].None? {
            var x: nat :| HeldBy(p, x, i);
            assert HeldBy(q, x, i);
          }
        }
      }
      forall x: nat ensures !Is(q, x, Exited) { assert !Is(p, x, Exited); }
    }
    forall i | 0 <= i < |outcomes| ensures SlotSound(outcomes, q, i) { SameSlot(outcomes, p, q, i); }
  }

  lemma UnsentIsEmpty<T, E>(outcomes: seq<Result<T, E>>, p: Pool<T, E>, i: nat)
    requires i < |outcomes| == |p.checked| == |p.writes| && SlotSound(outcomes, p, i) && p.next <= i
    ensures p.checked[i].None?
  {}

  lemma SucceedKeeps<T, E>(outcomes: seq<Result<T, E>>, p: Pool<T, E>, w: nat)
    requires Sound(outcomes, p) && Enabled(outcomes, p, Succeed(w))
    ensures Sound(outcomes, Apply(outcomes, p, Succeed(w)))
  {
    hide CauseSound, Finished, SlotSound;
    var q := Apply(outcomes, p, Succeed(w));
    var job := p.workers[w].job;
    assert HeldBy(p, w, job);
    assert SlotSound(outcomes, p, job);
    forall x: nat, i: nat | HeldBy(q, x, i) ensures x != w && HeldBy(p, x, i) && i != job {}
    if p.cause.None? {
      forall i | 0 <= i < q.next ensures Accounted(q, i) {
        assert Accounted(p, i);
        if q.checked[i].None? {
          var x: nat :| HeldBy(p, x, i);
          assert HeldBy(q, x, i);
        }
      }
      if q.open {
        forall x: nat ensures !Is(q, x, Exited) { assert !Is(p, x, Exited); }
      }
    }
    forall i | 0 <= i < |outcomes| ensures SlotSound(outcomes, q, i) {
      if i == job { WrittenOnce(outcomes, p, q, job); } else { SameSlot(outcomes, p, q, i); }
    }
  }

  lemma WrittenOnce<T, E>(outcomes: seq<Result<T, E>>, p: Pool<T, E>, q: Pool<T, E>, i: nat)
    requires i < |outcomes| == |p.checked| == |p.writes| && SlotSound(outcomes, p, i) && p.checked[i].None?
      && i < p.next == q.next
    requires |q.checked| == |q.writes| == |outcomes| && q.writes[i] == p.writes[i] + 1
    requires outcomes[i].Success? && q.checked[i] == Some(outcomes[i].value)
    ensures SlotSound(outcomes, q, i)
  {}

  predicate SameJobs<T(==), E>(p: Pool<T, E>, q: Pool<T, E>) {
    q.workers == p.workers && q.checked == p.checked && q.writes == p.writes && q.next == p.next
  }

  lemma SameJobsKeep<T, E>(outcomes: seq<Result<T, E>>, p: Pool<T, E>, q: Pool<T, E>)
    requires Sound(outcomes, p) && SameJobs(p, q)
    ensures forall i | 0 <= i < |outcomes| :: SlotSound(outcomes, q, i)
    ensures forall w: nat, i: nat :: HeldBy(q, w, i) == HeldBy(p, w, i)
    ensures forall w: nat :: Is(q, w, Exited) == Is(p, w, Exited)
    ensures forall i | 0 <= i < |outcomes| :: Accounted(q, i) == Accounted(p, i)
  {
    forall i | 0 <= i < |outcomes| ensures SlotSound(outcomes, q, i) { assert SlotSound(outcomes, p, i); }
    forall i | 0 <= i < |outcomes| ensures Accounted(q, i) == Accounted(p, i) {
      assert forall w: nat :: HeldBy(q, w, i) == HeldBy(p, w, i);
    }
  }

  // When everyone has left without a cause, every job was handed over and every slot is filled.
  lemma AllSlotsAreFilled<T, E>(outcomes: seq<Result<T, E>>, p: Pool<T, E>, i: nat)
    requires Sound(outcomes, p) && Enabled(outcomes, p, Join) && p.cause.None? && i < |outcomes|
    ensures p.checked[i].Some? && outcomes[i] == Success(p.checked[i].value) && p.writes[i] == 1
  {
    assert Accounted(p, i) && SlotSound(outcomes, p, i);
  }

  lemma FeederKeeps<T, E>(outcomes: seq<Result<T, E>>, p: Pool<T, E>, step: Step)
    requires Sound(outcomes, p) && Enabled(outcomes, p, step)
    requires step.StopFeeding? || step.Close? || step.Interrupt? || step.Join?
    ensures Sound(outcomes, Apply(outcomes, p, step))
  {
    hide SlotSound, HeldBy, Is, Accounted, CauseSound;
    var q := Apply(outcomes, p, step);
    SameJobsKeep(outcomes, p, q);
    if step.Join? && p.cause.None? {
      forall i | 0 <= i < |outcomes| ensures p.checked[i].Some? && outcomes[i] == Success(p.checked[i].value)
        && p.writes[i] == 1 {
        AllSlotsAreFilled(outcomes, p, i);
      }
    }
    assert step.Interrupt? ==> CauseSound(outcomes, Interrupted) by { CallerInterrupts(outcomes); }
  }

  lemma CallerInterrupts<T, E>(outcomes: seq<Result<T, E>>)
    ensures CauseSound(outcomes, Interrupted)
  {}

  lemma StepKeeps<T, E>(outcomes: seq<Result<T, E>>, p: Pool<T, E>, step: Step)
    requires Sound(outcomes, p) && Enabled(outcomes, p, step)
    ensures Sound(outcomes, Apply(outcomes, p, step))
  {
    match step
    case Send(w) => SendKeeps(outcomes, p, w);
    case Succeed(w) => SucceedKeeps(outcomes, p, w);
    case Begin(w) => WorkerMoves(outcomes, p, w, Inspecting(p.workers[w].job), p.cause);
    case Skip(w) => WorkerMoves(outcomes, p, w, Exited, p.cause);
    case Fail(w) => WorkerMoves(outcomes, p, w, Exited, Apply(outcomes, p, step).cause);
    case Drain(w) => WorkerMoves(outcomes, p, w, Exited, p.cause);
    case _ => FeederKeeps(outcomes, p, step);
  }

  // ----- Whole runs -----

  ghost predicate Run<T, E>(outcomes: seq<Result<T, E>>, pools: seq<Pool<T, E>>, steps: seq<Step>) {
    && |pools| == |steps| + 1 && pools[0] == Start(|outcomes|)
    && forall i | 0 <= i < |steps| ::
      Enabled(outcomes, pools[i], steps[i]) && pools[i + 1] == Apply(outcomes, pools[i], steps[i])
  }

  lemma {:induction false} RunIsSound<T, E>(outcomes: seq<Result<T, E>>, pools: seq<Pool<T, E>>,
    steps: seq<Step>, i: nat)
    requires Run(outcomes, pools, steps) && i < |pools|
    ensures Sound(outcomes, pools[i])
  {
    hide Enabled, Apply, Start, Sound;
    if i == 0 {
      StartIsSound(outcomes);
    } else {
      RunIsSound(outcomes, pools, steps, i - 1);
      StepKeeps(outcomes, pools[i - 1], steps[i - 1]);
    }
  }

  function InFlight(workers: seq<Worker>): (n: nat)
    ensures n <= |workers|
  {
    if workers == [] then 0 else (if workers[0].Inspecting? then 1 else 0) + InFlight(workers[1..])
  }

  // Never more than eight inspections at once; and on return nobody runs and the result is the sequential one or an
  // error.
  lemma EveryRunIsBounded<T, E>(outcomes: seq<Result<T, E>>, pools: seq<Pool<T, E>>, steps: seq<Step>, i: nat)
    requires Run(outcomes, pools, steps) && i < |pools|
    ensures InFlight(pools[i].workers) <= 8
    ensures pools[i].returned.Some? ==> Finished(outcomes, pools[i], pools[i].returned.value)
    ensures forall k | 0 <= k < |pools[i].writes| :: pools[i].writes[k] <= 1
  {
    hide Run, Finished, HeldBy, Accounted;
    RunIsSound(outcomes, pools, steps, i);
    forall k | 0 <= k < |pools[i].writes| ensures pools[i].writes[k] <= 1 {
      assert SlotSound(outcomes, pools[i], k);
    }
  }

  // Only a failing inspection or an interruption makes the pool fail.
  lemma {:induction false} CauseHasAReason<T, E>(outcomes: seq<Result<T, E>>, pools: seq<Pool<T, E>>,
    steps: seq<Step>, i: nat)
    requires Run(outcomes, pools, steps) && i < |pools| && pools[i].cause.Some?
    ensures
      || (exists k :: 0 <= k < i && steps[k].Interrupt?)
      || (pools[i].cause.value.Failed? && CauseSound(outcomes, pools[i].cause.value))
  {
    hide Sound, CauseSound;
    if pools[i - 1].cause.Some? {
      CauseHasAReason(outcomes, pools, steps, i - 1);
    } else {
      RunIsSound(outcomes, pools, steps, i);
      assert pools[i].cause.value.Failed? ==> CauseSound(outcomes, pools[i].cause.value) by {
        SoundCause(outcomes, pools[i]);
      }
    }
  }

  lemma SoundCause<T, E>(outcomes: seq<Result<T, E>>, p: Pool<T, E>)
    requires Sound(outcomes, p) && p.cause.Some?
    ensures CauseSound(outcomes, p.cause.value)
  {}

  // Left alone, the pool returns every result exactly when a sequential inspection would.
  lemma SucceedsIffSequentialDoes<T, E>(outcomes: seq<Result<T, E>>, pools: seq<Pool<T, E>>, steps: seq<Step>, i: nat)
    requires Run(outcomes, pools, steps) && i < |pools| && pools[i].returned.Some?
    requires forall k | 0 <= k < i :: !steps[k].Interrupt?
    ensures pools[i].returned.value.Success? <==> forall k | 0 <= k < |outcomes| :: outcomes[k].Success?
  {
    hide Run, Sound;
    EveryRunIsBounded(outcomes, pools, steps, i);
    if pools[i].returned.value.Failure? {
      ReturnedCause(outcomes, pools, steps, i);
      CauseHasAReason(outcomes, pools, steps, i);
    }
  }

  lemma ReturnedCause<T, E>(outcomes: seq<Result<T, E>>, pools: seq<Pool<T, E>>, steps: seq<Step>, i: nat)
    requires Run(outcomes, pools, steps) && i < |pools| && pools[i].returned.Some? && pools[i].returned.value.Failure?
    ensures pools[i].cause == Some(pools[i].returned.value.error)
  {
    assert Enabled(outcomes, pools[i - 1], steps[i - 1]);
  }

  // ----- Progress -----

  // Until it returns, some step of the pool itself is always possible.
  lemma NeverDeadlocks<T, E>(outcomes: seq<Result<T, E>>, p: Pool<T, E>) returns (step: Step)
    requires Sound(outcomes, p) && p.returned.None? && outcomes != []
    ensures Enabled(outcomes, p, step) && !step.Interrupt?
  {
    hide SlotSound, Accounted, CauseSound, Finished;
    if w: nat :| IsTaken(p, w) {
      step := if p.cause.None? then Begin(w) else Skip(w);
    } else if w: nat :| IsInspecting(p, w) {
      assert HeldBy(p, w, p.workers[w].job);
      step := if outcomes[p.workers[w].job].Success? then Succeed(w) else Fail(w);
    } else if w: nat :| Is(p, w, Idle) {
      step := if !p.open then Drain(w) else if p.next < |outcomes| then Send(w) else Close;
    } else {
      forall w: nat | w < |p.workers| ensures p.workers[w] == Exited {
        assert !IsTaken(p, w) && !IsInspecting(p, w) && !Is(p, w, Idle);
      }
      assert p.open && p.cause.None? ==> !Is(p, 0, Exited);
      step := if !p.open then Join else if p.next < |outcomes| then StopFeeding else Close;
    }
  }

  function Weight(worker: Worker): nat {
    match worker
    case Idle => 1
    case Taken(_) => 3
    case Inspecting(_) => 2
    case Exited => 0
  }

  function Weights(workers: seq<Worker>): nat {
    if workers == [] then 0 else Weight(workers[0]) + Weights(workers[1..])
  }

  lemma {:induction false} WeightsUpdate(workers: seq<Worker>, w: nat, v: Worker)
    requires w < |workers|
    ensures Weights(workers[w := v]) == Weights(workers) - Weight(workers[w]) + Weight(v)
  {
    if w == 0 {
      assert workers[0 := v][1..] == workers[1..];
    } else {
      assert workers[w := v][1..] == workers[1..][w - 1 := v];
      WeightsUpdate(workers[1..], w - 1, v);
    }
  }

  function Remaining<T, E>(outcomes: seq<Result<T, E>>, p: Pool<T, E>): int {
    3 * (|outcomes| - p.next) + Weights(p.workers)
    + (if p.open then 1 else 0) + (if p.cause.None? then 1 else 0) + (if p.returned.None? then 1 else 0)
  }

  // Every step brings the return closer, so every run is finite.
  lemma EveryStepAdvances<T, E>(outcomes: seq<Result<T, E>>, p: Pool<T, E>, step: Step)
    requires Sound(outcomes, p) && Enabled(outcomes, p, step)
    ensures 0 <= Remaining(outcomes, Apply(outcomes, p, step)) < Remaining(outcomes, p)
  {
    hide SlotSound, HeldBy, Accounted, CauseSound, Finished;
    match step
    case Send(w) => WeightsUpdate(p.workers, w, Taken(p.next));
    case Begin(w) => WeightsUpdate(p.workers, w, Inspecting(p.workers[w].job));
    case Succeed(w) => WeightsUpdate(p.workers, w, Idle);
    case Skip(w) => WeightsUpdate(p.workers, w, Exited);
    case Fail(w) => WeightsUpdate(p.workers, w, Exited);
    case Drain(w) => WeightsUpdate(p.workers, w, Exited);
    case _ =>
  }
}
