/** What every interleaving of workers, enqueuers and shutdown keeps. */
module ThreadPoolSafety {
  import opened ThreadPoolSteps

  // ---- The queue: first in, first out, every task dispatched at most once ----

  ghost predicate Fifo(s: State) {
    s.pushed == s.dispatched + s.tasks
  }

  /** Each dispatched task is finished or being run, never both, and by one worker only. */
  ghost predicate Accounted(s: State) {
    && (forall k :: k in s.finished ==> k < |s.dispatched|)
    && (forall i :: 0 <= i < |s.workers| && s.workers[i].Running? ==>
          s.workers[i].k < |s.dispatched| && s.workers[i].k !in s.finished)
    && (forall i, j :: 0 <= i < j < |s.workers| && s.workers[i].Running? && s.workers[j].Running? ==>
          s.workers[i].k != s.workers[j].k)
    && (forall k :: 0 <= k < |s.dispatched| && k !in s.finished ==> IsRunning(s, k))
  }

  ghost predicate IsRunning(s: State, k: nat) {
    exists i :: 0 <= i < |s.workers| && s.workers[i] == Running(k)
  }

  lemma FifoStep(s: State, step: Step)
    requires Fifo(s) && Enabled(s, step)
    ensures Fifo(Apply(s, step))
  {
  }

  lemma RunningAfterUpdate(s: State, s': State, i: nat, k: nat)
    requires i < |s.workers| && |s'.workers| == |s.workers|
    requires forall j :: 0 <= j < |s.workers| && j != i ==> s'.workers[j] == s.workers[j]
    requires IsRunning(s, k) && s.workers[i] != Running(k)
    ensures IsRunning(s', k)
  {
    var j :| 0 <= j < |s.workers| && s.workers[j] == Running(k);
    assert s'.workers[j] == Running(k);
  }

  /** Whoever was running a task still is. */
  ghost predicate KeepsRunning(s: State, s': State) {
    forall k :: IsRunning(s, k) ==> IsRunning(s', k)
  }

  lemma AccountedStep(s: State, step: Step)
    requires Accounted(s) && Enabled(s, step)
    ensures Accounted(Apply(s, step))
  {
    match step
    case Evaluate(i) => EvaluateAccounted(s, i);
    case Finish(i) => FinishAccounted(s, i);
    case NotifyAll => WakeKeepsRunning(s, Apply(s, NotifyAll));
    case NotifyOne(i) =>
      if At(s, i, Blocked) {
        OthersStillRunning(s, Apply(s, step), i);
      } else {
        SameWorkersRunning(s, Apply(s, step));
      }
    case Park(i) => OthersStillRunning(s, Apply(s, step), i);
    case SpuriousWake(i) => OthersStillRunning(s, Apply(s, step), i);
    case _ => SameWorkersRunning(s, Apply(s, step));
  }

  lemma EvaluateAccounted(s: State, i: nat)
    requires Accounted(s) && Enabled(s, Evaluate(i))
    ensures Accounted(Apply(s, Evaluate(i)))
  {
    var s' := Apply(s, Evaluate(i));
    OthersStillRunning(s, s', i);
    if s.tasks != [] {
      assert s'.workers[i] == Running(|s.dispatched|);
      assert IsRunning(s', |s.dispatched|);
    }
  }

  lemma FinishAccounted(s: State, i: nat)
    requires Accounted(s) && Enabled(s, Finish(i))
    ensures Accounted(Apply(s, Finish(i)))
  {
    var s' := Apply(s, Finish(i));
    forall k | 0 <= k < |s'.dispatched| && k !in s'.finished ensures IsRunning(s', k) {
      RunningAfterUpdate(s, s', i, k);
    }
  }

  lemma WakeKeepsRunning(s: State, s': State)
    requires |s'.workers| == |s.workers|
    requires forall j :: 0 <= j < |s.workers| && s.workers[j].Running? ==> s'.workers[j] == s.workers[j]
    ensures KeepsRunning(s, s')
  {
    forall k | IsRunning(s, k) ensures IsRunning(s', k) {
      var j :| 0 <= j < |s.workers| && s.workers[j] == Running(k);
      assert s'.workers[j] == Running(k);
    }
  }

  lemma OthersStillRunning(s: State, s': State, i: nat)
    requires i < |s.workers| && |s'.workers| == |s.workers| && !s.workers[i].Running?
    requires forall j :: 0 <= j < |s.workers| && j != i ==> s'.workers[j] == s.workers[j]
    ensures KeepsRunning(s, s')
  {
    forall k | IsRunning(s, k) ensures IsRunning(s', k) {
      RunningAfterUpdate(s, s', i, k);
    }
  }

  lemma SameWorkersRunning(s: State, s': State)
    requires s'.workers == s.workers
    ensures KeepsRunning(s, s')
  {
    WakeKeepsRunning(s, s');
  }

  // ---- Shutdown ----

  ghost predicate SomeReturned(s: State) {
    exists i :: 0 <= i < |s.workers| && s.workers[i] == Returned
  }

  ghost predicate Stopping(s: State) {
    && (s.stop <==> s.phase != NotCalled)
    && (!s.stop ==> !SomeReturned(s))
    && s.promised <= |s.pushed|
    && (SomeReturned(s) ==> s.promised <= |s.dispatched|)
    && (s.phase.Joining? ==>
          s.phase.next <= |s.workers| && forall i :: 0 <= i < s.phase.next ==> s.workers[i] == Returned)
    && (s.phase == Done ==> forall i :: 0 <= i < |s.workers| ==> s.workers[i] == Returned)
  }

  lemma StoppingStep(s: State, step: Step)
    requires Stopping(s) && Fifo(s) && Enabled(s, step)
    ensures Stopping(Apply(s, step))
  {
    var s' := Apply(s, step);
    if SomeReturned(s') {
      var i :| 0 <= i < |s'.workers| && s'.workers[i] == Returned;
      assert s.workers[i] == Returned || step == Evaluate(i);
      assert SomeReturned(s) || step == Evaluate(i);
    }
  }

  // ---- Wake-ups ----

  /** Workers that will test the predicate again without any further notification. */
  function Seekers(workers: seq<Pc>): nat {
    if workers == [] then 0
    else Seekers(workers[..|workers| - 1]) + Seeking(workers[|workers| - 1])
  }

  function Seeking(pc: Pc): nat {
    if pc == Ready || pc == Woken then 1 else 0
  }

  lemma {:induction false} SeekersUpdate(workers: seq<Pc>, i: nat, pc: Pc)
    requires i < |workers|
    ensures Seekers(workers[i := pc]) == Seekers(workers) - Seeking(workers[i]) + Seeking(pc)
  {
    var last := |workers| - 1;
    if i < last {
      SeekersUpdate(workers[..last], i, pc);
      assert workers[i := pc][..last] == workers[..last][i := pc];
    } else {
      assert workers[i := pc][..last] == workers[..last];
    }
  }

  lemma {:induction false} SeekersFound(workers: seq<Pc>)
    requires Seekers(workers) > 0
    ensures exists i :: 0 <= i < |workers| && (workers[i] == Ready || workers[i] == Woken)
  {
    var last := |workers| - 1;
    if Seeking(workers[last]) == 0 {
      SeekersFound(workers[..last]);
      var i :| 0 <= i < last && (workers[..last][i] == Ready || workers[..last][i] == Woken);
      assert workers[i] == Ready || workers[i] == Woken;
    }
  }

  /**
    * While any worker sleeps, the queue is no longer than the wake-ups under way: workers that will
    * look at it anyway plus notifications that have not been delivered yet.
    */
  ghost predicate Covered(s: State) {
    && (!NoneBlocked(s) ==> |s.tasks| <= s.notifiers + Seekers(s.workers))
    && (!LockFree(s) ==> s.tasks == [])
  }

  lemma CoveredStep(s: State, step: Step)
    requires Covered(s) && Enabled(s, step)
    ensures Covered(Apply(s, step))
  {
    match step
    case NotifyOne(i) => if At(s, i, Blocked) { SeekersUpdate(s.workers, i, Woken); }
    case Evaluate(i) => EvaluateCovered(s, i);
    case Park(i) => SeekersUpdate(s.workers, i, Blocked);
    case SpuriousWake(i) => SeekersUpdate(s.workers, i, Woken);
    case Finish(i) => FinishCovered(s, i);
    case NotifyAll => assert NoneBlocked(Apply(s, step));
    case _ =>
  }

  lemma EvaluateCovered(s: State, i: nat)
    requires Covered(s) && Enabled(s, Evaluate(i))
    ensures Covered(Apply(s, Evaluate(i)))
  {
    var pc := Apply(s, Evaluate(i)).workers[i];
    SeekersUpdate(s.workers, i, pc);
    BlockedBefore(s.workers, i, pc);
  }

  lemma FinishCovered(s: State, i: nat)
    requires Covered(s) && Enabled(s, Finish(i))
    ensures Covered(Apply(s, Finish(i)))
  {
    SeekersUpdate(s.workers, i, Ready);
    BlockedBefore(s.workers, i, Ready);
  }

  lemma BlockedBefore(workers: seq<Pc>, i: nat, pc: Pc)
    requires i < |workers| && pc != Blocked
    ensures forall j :: 0 <= j < |workers| && workers[i := pc][j] == Blocked ==> workers[j] == Blocked
  {
  }

  // ---- The lock ----

  /** The lock excludes: at most one worker is between its predicate test and its block. */
  ghost predicate OneHolder(s: State) {
    forall i, j :: 0 <= i < j < |s.workers| ==> s.workers[i] != Parking || s.workers[j] != Parking
  }

  lemma OneHolderStep(s: State, step: Step)
    requires OneHolder(s) && Enabled(s, step)
    ensures OneHolder(Apply(s, step))
  {
  }

  // ---- Every state of every run ----

  ghost predicate Invariant(s: State) {
    Fifo(s) && Accounted(s) && Stopping(s) && Covered(s) && OneHolder(s)
  }

  lemma InvariantStep(s: State, step: Step)
    requires Invariant(s) && Enabled(s, step)
    ensures Invariant(Apply(s, step)) && |Apply(s, step).workers| == |s.workers|
  {
    FifoStep(s, step);
    AccountedStep(s, step);
    StoppingStep(s, step);
    CoveredStep(s, step);
    OneHolderStep(s, step);
  }

  lemma {:induction false} InvariantHolds(n: nat, steps: seq<Step>, states: seq<State>, i: nat)
    requires IsRun(n, steps, states) && i < |states|
    ensures Invariant(states[i]) && |states[i].workers| == n
  {
    if i > 0 {
      InvariantHolds(n, steps, states, i - 1);
      InvariantStep(states[i - 1], steps[i - 1]);
    }
  }
}
