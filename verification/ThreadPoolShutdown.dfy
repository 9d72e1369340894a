/**
  * Whether `shutdown` returns. It writes `stop` outside the lock, so `notify_all` can miss a worker that
  * has tested the predicate and not blocked yet. Such a worker is the exact cause of a shutdown that hangs.
  */
module ThreadPoolShutdown {
  import opened ThreadPoolSteps
  import opened ThreadPoolSafety
  import opened ThreadPoolTheorems

  // ---- Continuations ----

  ghost predicate Possible(s: State, steps: seq<Step>)
    decreases |steps|
  {
    steps == [] || (Enabled(s, steps[0]) && Possible(Apply(s, steps[0]), steps[1..]))
  }

  ghost function Final(s: State, steps: seq<Step>): State
    requires Possible(s, steps)
    decreases |steps|
  {
    if steps == [] then s else Final(Apply(s, steps[0]), steps[1..])
  }

  /** Nothing goes on any more unless a task is pushed, a worker wakes up by chance or shutdown is called again. */
  ghost predicate Quiet(s: State) {
    forall step :: Enabled(s, step) ==> step.Push? || step.SpuriousWake? || step.SetStop?
  }

  /** Shutdown joins a worker that sleeps, and only a push or a spurious wake-up can move anything. */
  ghost predicate Stuck(s: State) {
    && s.phase.Joining? && !NoneBlocked(s)
    && forall step :: Enabled(s, step) ==> step.Push? || step.SpuriousWake?
  }

  /** However it continues: when everything has come to rest, shutdown has returned. */
  ghost predicate AlwaysReturns(s: State) {
    forall steps :: Possible(s, steps) && Quiet(Final(s, steps)) ==> Final(s, steps).phase == Done
  }

  /** Without any further push, spurious wake-up or shutdown. */
  predicate Undisturbed(steps: seq<Step>) {
    forall i :: 0 <= i < |steps| ==> !steps[i].Push? && !steps[i].SpuriousWake? && !steps[i].SetStop?
  }

  ghost predicate CanGetStuck(s: State) {
    exists steps :: Possible(s, steps) && Undisturbed(steps) && Stuck(Final(s, steps))
  }

  // ---- No worker misses the notification ----

  /** Stopping, and nobody sleeps who will not be notified. */
  ghost predicate NoneMissed(s: State) {
    s.stop && LockFree(s) && (s.phase == StopSet || NoneBlocked(s))
  }

  lemma NoneMissedStep(s: State, step: Step)
    requires NoneMissed(s) && Enabled(s, step)
    ensures NoneMissed(Apply(s, step))
  {
  }

  /** At rest, everybody has returned, shutdown included. */
  lemma QuietMeansDone(s: State)
    requires Invariant(s) && NoneMissed(s) && Quiet(s)
    ensures s.phase == Done && forall w :: 0 <= w < |s.workers| ==> s.workers[w] == Returned
  {
    assert !Enabled(s, NotifyAll);
    forall w | 0 <= w < |s.workers| ensures s.workers[w] == Returned {
      assert !Enabled(s, Finish(w)) && !Enabled(s, Evaluate(w));
    }
    assert !Enabled(s, Join) && !Enabled(s, Return);
    assert Stopping(s);
  }

  /** Steps that shutdown itself still has to take. */
  function ShutdownEffort(s: State): nat {
    match s.phase
    case StopSet => |s.workers| + 2
    case Joining(next) => if next <= |s.workers| then |s.workers| - next + 1 else 0
    case _ => 0
  }

  /** A bound on all steps still to come: workers, notifications and shutdown. */
  function Work(s: State): nat {
    Effort(s) + s.notifiers + ShutdownEffort(s)
  }

  lemma {:induction false} WakingIsNoWork(workers: seq<Pc>)
    ensures Weights(WakeAll(workers)) <= Weights(workers)
  {
    if workers != [] {
      var last := |workers| - 1;
      WakingIsNoWork(workers[..last]);
      assert WakeAll(workers)[..last] == WakeAll(workers[..last]);
    }
  }

  /** Every step but a push brings the end nearer. */
  lemma WorkStep(s: State, step: Step)
    requires NoneMissed(s) && Enabled(s, step) && !step.SetStop?
    ensures Work(Apply(s, step)) + 1 <= Work(s) + 4 * Pushes(step)
  {
    match step
    case NotifyOne(i) => if At(s, i, Blocked) { WeightsUpdate(s.workers, i, Woken); }
    case Evaluate(i) => WeightsUpdate(s.workers, i, Apply(s, step).workers[i]);
    case SpuriousWake(i) => WeightsUpdate(s.workers, i, Woken);
    case Finish(i) => WeightsUpdate(s.workers, i, Ready);
    case NotifyAll => WakingIsNoWork(s.workers);
    case _ =>
  }

  function PushCount(steps: seq<Step>): nat {
    if steps == [] then 0 else Pushes(steps[0]) + PushCount(steps[1..])
  }

  lemma {:induction false} NoneMissedRun(s: State, steps: seq<Step>)
    requires Invariant(s) && NoneMissed(s) && Possible(s, steps)
    ensures Invariant(Final(s, steps)) && NoneMissed(Final(s, steps))
    decreases |steps|
  {
    if steps != [] {
      InvariantStep(s, steps[0]);
      NoneMissedStep(s, steps[0]);
      NoneMissedRun(Apply(s, steps[0]), steps[1..]);
    }
  }

  /** No schedule goes on for ever: each step of one shutdown is paid for by the work there was and the pushes. */
  lemma {:induction false} ShutdownIsBounded(s: State, steps: seq<Step>)
    requires NoneMissed(s) && Possible(s, steps)
    requires forall i :: 0 <= i < |steps| ==> !steps[i].SetStop?
    ensures |steps| + Work(Final(s, steps)) <= Work(s) + 4 * PushCount(steps)
    decreases |steps|
  {
    if steps != [] {
      WorkStep(s, steps[0]);
      NoneMissedStep(s, steps[0]);
      ShutdownIsBounded(Apply(s, steps[0]), steps[1..]);
    }
  }

  lemma NoneMissedReturns(s: State)
    requires Invariant(s) && NoneMissed(s)
    ensures AlwaysReturns(s) && !CanGetStuck(s)
  {
    forall steps | Possible(s, steps)
      ensures !Stuck(Final(s, steps))
      ensures Quiet(Final(s, steps)) ==> Final(s, steps).phase == Done
    {
      NoneMissedRun(s, steps);
      if Quiet(Final(s, steps)) {
        QuietMeansDone(Final(s, steps));
      }
    }
  }

  // ---- Some worker misses the notification ----

  /**
    * On the way to a stuck shutdown: worker w tested the predicate before `stop` was set and blocks after
    * `notify_all`; the queue is empty and nobody else will sleep.
    */
  ghost predicate Doomed(s: State, w: nat) {
    && s.stop && s.tasks == [] && w < |s.workers|
    && (s.phase == StopSet || (s.phase.Joining? && s.phase.next <= w))
    && (s.workers[w] == Parking || (s.workers[w] == Blocked && s.notifiers == 0 && s.phase.Joining?))
    && (forall i :: 0 <= i < |s.workers| && i != w ==>
          s.workers[i] != Parking && (s.workers[i] == Blocked ==> s.phase == StopSet))
  }

  lemma StepFirst(s: State, step: Step)
    requires Enabled(s, step) && Undisturbed([step]) && CanGetStuck(Apply(s, step))
    ensures CanGetStuck(s)
  {
    var steps :| Possible(Apply(s, step), steps) && Undisturbed(steps) && Stuck(Final(Apply(s, step), steps));
    assert [step][0] == step;
    assert ([step] + steps)[1..] == steps;
    assert Possible(s, [step] + steps) && Final(s, [step] + steps) == Final(Apply(s, step), steps);
  }

  ghost predicate OthersReturned(s: State, w: nat) {
    forall i :: 0 <= i < |s.workers| && i != w ==> s.workers[i] == Returned
  }

  lemma DoomedAtRest(s: State, w: nat)
    requires Doomed(s, w) && OthersReturned(s, w)
    requires s.phase == Joining(w) && s.workers[w] == Blocked
    ensures Stuck(s)
  {
  }

  /** A worker other than w leaves: it finishes its task, or finds the queue empty and returns. */
  lemma OtherLeaves(s: State, w: nat, i: nat) returns (step: Step)
    requires Doomed(s, w) && s.phase.Joining? && s.workers[w] == Blocked
    requires i < |s.workers| && i != w && s.workers[i] != Returned
    ensures Enabled(s, step) && Undisturbed([step])
    ensures Doomed(Apply(s, step), w) && Apply(s, step).phase == s.phase
    ensures Apply(s, step).notifiers == s.notifiers && Apply(s, step).workers[w] == Blocked
    ensures Weights(Apply(s, step).workers) < Weights(s.workers)
  {
    if s.workers[i].Running? {
      step := Finish(i);
      WeightsUpdate(s.workers, i, Ready);
    } else {
      step := Evaluate(i);
      WeightsUpdate(s.workers, i, Returned);
    }
  }

  lemma NotifyKeepsDoomed(s: State, w: nat)
    requires Doomed(s, w)
    ensures s.phase == StopSet ==> Enabled(s, NotifyAll) && Doomed(Apply(s, NotifyAll), w)
    ensures s.phase != StopSet && s.notifiers > 0 ==>
              Enabled(s, NotifyOne(w)) && Doomed(Apply(s, NotifyOne(w)), w)
    ensures s.phase != StopSet && s.notifiers == 0 && s.workers[w] == Parking ==>
              Enabled(s, Park(w)) && Doomed(Apply(s, Park(w)), w)
  {
  }

  /** Notify, park, let the others leave, join those before w: then shutdown is stuck. */
  lemma {:induction false} DoomedGetsStuck(s: State, w: nat)
    requires Doomed(s, w)
    ensures CanGetStuck(s)
    decreases s.phase == StopSet, s.notifiers, s.workers[w] == Parking, Weights(s.workers),
              if s.phase.Joining? then w - s.phase.next else 0
  {
    NotifyKeepsDoomed(s, w);
    if s.phase == StopSet {
      DoomedGetsStuck(Apply(s, NotifyAll), w);
      StepFirst(s, NotifyAll);
    } else if s.notifiers > 0 {
      DoomedGetsStuck(Apply(s, NotifyOne(w)), w);
      StepFirst(s, NotifyOne(w));
    } else if s.workers[w] == Parking {
      DoomedGetsStuck(Apply(s, Park(w)), w);
      StepFirst(s, Park(w));
    } else if i: nat :| i < |s.workers| && i != w && s.workers[i] != Returned {
      var step := OtherLeaves(s, w, i);
      DoomedGetsStuck(Apply(s, step), w);
      StepFirst(s, step);
    } else if s.phase.next < w {
      DoomedGetsStuck(Apply(s, Join), w);
      StepFirst(s, Join);
    } else {
      DoomedAtRest(s, w);
      assert Possible(s, []) && Undisturbed([]) && Final(s, []) == s;
    }
  }

  /**
    * `shutdown` returns in every schedule exactly if no worker is between its predicate test and its
    * block when `stop` is set but not announced; otherwise some schedule leaves it stuck for ever.
    */
  lemma ShutdownReturnsExactlyWhen(n: nat, steps: seq<Step>, states: seq<State>, i: nat)
    requires IsRun(n, steps, states) && i < |states| && states[i].phase == StopSet
    ensures LockFree(states[i]) <==> AlwaysReturns(states[i])
    ensures !LockFree(states[i]) <==> CanGetStuck(states[i])
  {
    var s := states[i];
    InvariantHolds(n, steps, states, i);
    assert Stopping(s) && Covered(s) && OneHolder(s);
    if LockFree(s) {
      NoneMissedReturns(s);
    } else {
      var w: nat :| w < |s.workers| && s.workers[w] == Parking;
      DoomedGetsStuck(s, w);
      StuckMeansNotReturned(s);
    }
  }

  lemma StuckMeansNotReturned(s: State)
    requires CanGetStuck(s)
    ensures !AlwaysReturns(s)
  {
    var steps :| Possible(s, steps) && Undisturbed(steps) && Stuck(Final(s, steps));
    assert Quiet(Final(s, steps));
  }

  // ---- The pool with `stop` written under the lock ----

  /** The same steps, except that setting `stop` needs the lock. */
  ghost predicate IsLockedRun(n: nat, steps: seq<Step>, states: seq<State>) {
    && IsRun(n, steps, states)
    && forall i :: 0 <= i < |steps| && steps[i].SetStop? ==> LockFree(states[i])
  }

  /** Taking the lock for the write closes the gap: no worker is missed, and every shutdown returns. */
  lemma {:induction false} StopUnderLockSuffices(n: nat, steps: seq<Step>, states: seq<State>, i: nat)
    requires IsLockedRun(n, steps, states) && i < |states| && states[i].stop
    ensures NoneMissed(states[i]) && AlwaysReturns(states[i]) && !CanGetStuck(states[i])
    ensures states[i].phase != StopSet ==> Alert(states[i])
  {
    InvariantHolds(n, steps, states, i);
    if states[i - 1].stop {
      StopUnderLockSuffices(n, steps, states, i - 1);
      NoneMissedStep(states[i - 1], steps[i - 1]);
    }
    NoneMissedReturns(states[i]);
  }
}
