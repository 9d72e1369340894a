/** The pool's guarantees, stated over all runs of any number of workers. */
module ThreadPoolTheorems {
  import opened ThreadPoolSteps
  import opened ThreadPoolSafety

  /** Tasks leave the queue in push order, and each is run exactly once: finished, or on one worker. */
  lemma EachTaskOnce(n: nat, steps: seq<Step>, states: seq<State>, i: nat, k: nat)
    requires IsRun(n, steps, states) && i < |states|
    ensures states[i].pushed == states[i].dispatched + states[i].tasks
    ensures k < |states[i].dispatched| ==> (k in states[i].finished <==> !IsRunning(states[i], k))
    ensures forall a, b :: At(states[i], a, Running(k)) && At(states[i], b, Running(k)) ==> a == b
  {
    InvariantHolds(n, steps, states, i);
    assert Accounted(states[i]);
  }

  lemma {:induction false} PromisedCoversEarlierPushes(n: nat, steps: seq<Step>, states: seq<State>, j: nat, i: nat)
    requires IsRun(n, steps, states) && j <= i < |states| && !states[j].stop
    ensures states[j].pushed <= states[i].pushed
    ensures states[i].stop ==> |states[j].pushed| <= states[i].promised
  {
    if j < i {
      PromisedCoversEarlierPushes(n, steps, states, j, i - 1);
    }
  }

  /** What `shutdown` owes its caller: everything pushed before `stop` was set has run to completion. */
  ghost predicate Drained(before: State, after: State) {
    && before.pushed <= after.dispatched
    && forall k :: 0 <= k < |after.dispatched| ==> k in after.finished
  }

  lemma ShutdownDrains(n: nat, steps: seq<Step>, states: seq<State>, j: nat, i: nat)
    requires IsRun(n, steps, states) && j <= i < |states| && n >= 1
    requires !states[j].stop && states[i].phase == Done
    ensures Drained(states[j], states[i])
  {
    InvariantHolds(n, steps, states, i);
    PromisedCoversEarlierPushes(n, steps, states, j, i);
    var s := states[i];
    assert Stopping(s) && Accounted(s) && Fifo(s);
    assert s.workers[0] == Returned;
    forall k | 0 <= k < |s.dispatched| ensures k in s.finished {
      assert !IsRunning(s, k);
    }
    assert s.pushed[..|s.dispatched|] == s.dispatched;
  }

  /** `num_threads` is the only condition: with no worker there is a run that loses a task. */
  lemma DrainsExactlyWithWorkers(n: nat)
    ensures n >= 1 <==> forall steps: seq<Step>, states: seq<State>, j: nat, i: nat ::
              IsRun(n, steps, states) && j <= i < |states| && !states[j].stop && states[i].phase == Done
              ==> Drained(states[j], states[i])
  {
    if n >= 1 {
      forall steps: seq<Step>, states: seq<State>, j: nat, i: nat
        | IsRun(n, steps, states) && j <= i < |states| && !states[j].stop && states[i].phase == Done
        ensures Drained(states[j], states[i])
      {
        ShutdownDrains(n, steps, states, j, i);
      }
    } else {
      var s0 := Init(0);
      var s1 := Apply(s0, Push(Task(7)));
      var s2 := Apply(s1, SetStop);
      var s3 := Apply(s2, NotifyAll);
      var s4 := Apply(s3, Return);
      var steps, states := [Push(Task(7)), SetStop, NotifyAll, Return], [s0, s1, s2, s3, s4];
      assert IsRun(0, steps, states);
      assert !states[1].stop && states[4].phase == Done && !Drained(states[1], states[4]);
    }
  }

  /** Before shutdown no task is stranded: some worker is on its way to the queue or will come back to it. */
  lemma NoStrandedTask(n: nat, steps: seq<Step>, states: seq<State>, i: nat)
    requires IsRun(n, steps, states) && i < |states| && n >= 1
    requires !states[i].stop && states[i].tasks != [] && states[i].notifiers == 0
    ensures exists w :: 0 <= w < |states[i].workers| &&
              (At(states[i], w, Ready) || At(states[i], w, Woken) || states[i].workers[w].Running?)
  {
    InvariantHolds(n, steps, states, i);
    var s := states[i];
    assert Covered(s) && Stopping(s);
    if NoneBlocked(s) {
      assert s.workers[0] != Blocked && s.workers[0] != Parking && s.workers[0] != Returned;
    } else {
      SeekersFound(s.workers);
    }
  }

  /** Stronger, in numbers: a worker sleeps only if every queued task has a wake-up of its own under way. */
  lemma SleepOnlyWhenCovered(n: nat, steps: seq<Step>, states: seq<State>, i: nat, w: nat)
    requires IsRun(n, steps, states) && i < |states| && At(states[i], w, Blocked)
    ensures |states[i].tasks| <= states[i].notifiers + Seekers(states[i].workers)
  {
    InvariantHolds(n, steps, states, i);
  }

  /** Any sleeping worker may be the one a notification wakes, or wake by chance. */
  lemma WakeUpsAreArbitrary(s: State, w: nat)
    requires At(s, w, Blocked)
    ensures Enabled(s, SpuriousWake(w)) && Apply(s, SpuriousWake(w)).workers == s.workers[w := Woken]
    ensures s.notifiers > 0 ==> Enabled(s, NotifyOne(w)) && Apply(s, NotifyOne(w)).workers == s.workers[w := Woken]
  {
  }

  // ---- From an alert state on ----

  /** Stopping, and no worker asleep or about to fall asleep. */
  ghost predicate Alert(s: State) {
    s.stop && LockFree(s) && NoneBlocked(s)
  }

  function Weight(pc: Pc): nat {
    match pc
    case Running(_) => 2
    case Blocked => 2
    case Returned => 0
    case _ => 1
  }

  function Weights(workers: seq<Pc>): nat {
    if workers == [] then 0 else Weights(workers[..|workers| - 1]) + Weight(workers[|workers| - 1])
  }

  /** An upper bound on the steps the workers still have to take before all have returned. */
  function Effort(s: State): nat {
    2 * |s.tasks| + Weights(s.workers)
  }

  lemma {:induction false} WeightsUpdate(workers: seq<Pc>, i: nat, pc: Pc)
    requires i < |workers|
    ensures Weights(workers[i := pc]) == Weights(workers) - Weight(workers[i]) + Weight(pc)
  {
    var last := |workers| - 1;
    if i < last {
      WeightsUpdate(workers[..last], i, pc);
      assert workers[i := pc][..last] == workers[..last][i := pc];
    } else {
      assert workers[i := pc][..last] == workers[..last];
    }
  }

  function WorkerSteps(step: Step): nat {
    if step.Evaluate? || step.Finish? then 1 else 0
  }

  function Pushes(step: Step): nat {
    if step.Push? then 1 else 0
  }

  lemma AlertStep(s: State, step: Step)
    requires Alert(s) && Enabled(s, step)
    ensures Alert(Apply(s, step))
    ensures Effort(Apply(s, step)) + WorkerSteps(step) == Effort(s) + 2 * Pushes(step)
  {
    match step
    case Evaluate(i) => WeightsUpdate(s.workers, i, Apply(s, step).workers[i]);
    case Finish(i) => WeightsUpdate(s.workers, i, Ready);
    case NotifyAll => assert WakeAll(s.workers) == s.workers;
    case _ =>
  }

  /** While some worker is still there, some worker can move. */
  lemma AlertNeverStuck(s: State, w: nat)
    requires Alert(s) && w < |s.workers| && s.workers[w] != Returned
    ensures exists step :: Enabled(s, step) && WorkerSteps(step) == 1
  {
    if s.workers[w].Running? {
      assert Enabled(s, Finish(w)) && WorkerSteps(Finish(w)) == 1;
    } else {
      assert Enabled(s, Evaluate(w)) && WorkerSteps(Evaluate(w)) == 1;
    }
  }

  /** Total over the steps i .. j-1 of a run. */
  function Sum(steps: seq<Step>, i: nat, j: nat, count: Step -> nat): nat
    requires i <= j <= |steps|
  {
    if i == j then 0 else Sum(steps, i, j - 1, count) + count(steps[j - 1])
  }

  /**
    * From an alert state on, nobody ever sleeps again and the workers take exactly as many steps as
    * the effort shrinks by: with finitely many pushes every schedule lets `shutdown` join them all.
    */
  lemma {:induction false} AlertRun(n: nat, steps: seq<Step>, states: seq<State>, i: nat, j: nat)
    requires IsRun(n, steps, states) && i <= j < |states| && Alert(states[i])
    ensures Alert(states[j])
    ensures Effort(states[j]) + Sum(steps, i, j, WorkerSteps) == Effort(states[i]) + 2 * Sum(steps, i, j, Pushes)
  {
    if i < j {
      AlertRun(n, steps, states, i, j - 1);
      AlertStep(states[j - 1], steps[j - 1]);
    }
  }

  /** The lost wake-up happens: afterwards only a new push or a spurious wake-up can move anything. */
  lemma LostWakeUp()
    ensures exists steps: seq<Step>, states: seq<State> :: IsRun(1, steps, states) && |states| == 5
              && states[4].stop && states[4].phase == Joining(0) && At(states[4], 0, Blocked)
              && forall step :: Enabled(states[4], step) <==> step.Push? || step == SpuriousWake(0)
  {
    var s0 := Init(1);
    var s1 := Apply(s0, Evaluate(0));
    var s2 := Apply(s1, SetStop);
    var s3 := Apply(s2, NotifyAll);
    var s4 := Apply(s3, Park(0));
    var steps, states := [Evaluate(0), SetStop, NotifyAll, Park(0)], [s0, s1, s2, s3, s4];
    assert s1.workers == [Parking] && s3.workers == [Parking] && s4.workers == [Blocked];
    assert IsRun(1, steps, states);
  }
}
