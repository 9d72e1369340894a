/**
  * src/threadpool/ThreadPool.cpp as an interleaving of atomic steps. A step is what one thread does
  * between two points where others can interfere: a critical section of `queue_mutex`, or one access
  * to the atomic `stop` or to the condition variable outside it.
  */
module ThreadPoolSteps {

  datatype Task = Task(id: int)

  datatype Pc =
    | Ready             // outside the lock, about to take it and test the wait predicate
    | Parking           // holds the lock, found the predicate false, has not blocked yet
    | Blocked           // asleep in the wait, lock released
    | Woken             // notified (or spuriously awake), about to retake the lock and test again
    | Running(k: nat)   // runs the k-th task taken from the queue, lock released
    | Returned

  datatype Phase =
    | NotCalled
    | StopSet           // `stop` is true, `notify_all` not issued yet
    | Joining(next: nat)
    | Done

  datatype State = State(
    workers: seq<Pc>,
    tasks: seq<Task>,       // the queue, front first
    stop: bool,
    phase: Phase,           // how far `shutdown` has come
    notifiers: nat,         // enqueuers between their push and their notify_one
    // History: every push and every pop in order, which pops have finished, pushes made before `stop`
    pushed: seq<Task>,
    dispatched: seq<Task>,
    finished: set<nat>,
    promised: nat)

  datatype Step =
    | Push(task: Task)
    | NotifyOne(i: nat)     // wakes worker i if any worker is blocked
    | Evaluate(i: nat)      // worker i takes the lock and tests the predicate
    | Park(i: nat)
    | SpuriousWake(i: nat)
    | Finish(i: nat)
    | SetStop
    | NotifyAll
    | Join
    | Return

  function Init(n: nat): State {
    State(seq(n, _ => Ready), [], false, NotCalled, 0, [], [], {}, 0)
  }

  /** Only a worker between its predicate test and its block keeps the lock across steps. */
  predicate LockFree(s: State) {
    forall i :: 0 <= i < |s.workers| ==> s.workers[i] != Parking
  }

  predicate NoneBlocked(s: State) {
    forall i :: 0 <= i < |s.workers| ==> s.workers[i] != Blocked
  }

  predicate At(s: State, i: nat, pc: Pc) {
    i < |s.workers| && s.workers[i] == pc
  }

  predicate Enabled(s: State, step: Step) {
    match step
    case Push(_) => LockFree(s)
    case NotifyOne(i) => s.notifiers > 0 && (At(s, i, Blocked) || NoneBlocked(s))
    case Evaluate(i) => LockFree(s) && (At(s, i, Ready) || At(s, i, Woken))
    case Park(i) => At(s, i, Parking)
    case SpuriousWake(i) => At(s, i, Blocked)
    case Finish(i) => i < |s.workers| && s.workers[i].Running?
    case SetStop => s.phase == NotCalled || s.phase == Done
    case NotifyAll => s.phase == StopSet
    case Join => s.phase.Joining? && At(s, s.phase.next, Returned)
    case Return => s.phase == Joining(|s.workers|)
  }

  function WakeAll(workers: seq<Pc>): (r: seq<Pc>)
    ensures |r| == |workers|
    ensures forall i :: 0 <= i < |r| ==> r[i] == if workers[i] == Blocked then Woken else workers[i]
  {
    seq(|workers|, i requires 0 <= i < |workers| => if workers[i] == Blocked then Woken else workers[i])
  }

  function Apply(s: State, step: Step): State
    requires Enabled(s, step)
  {
    match step
    case Push(t) => s.(tasks := s.tasks + [t], pushed := s.pushed + [t], notifiers := s.notifiers + 1)
    case NotifyOne(i) =>
      var workers := if At(s, i, Blocked) then s.workers[i := Woken] else s.workers;
      s.(workers := workers, notifiers := s.notifiers - 1)
    case Evaluate(i) =>
      if s.tasks != [] then
        s.(workers := s.workers[i := Running(|s.dispatched|)],
           tasks := s.tasks[1..], dispatched := s.dispatched + [s.tasks[0]])
      else
        s.(workers := s.workers[i := if s.stop then Returned else Parking])
    case Park(i) => s.(workers := s.workers[i := Blocked])
    case SpuriousWake(i) => s.(workers := s.workers[i := Woken])
    case Finish(i) => s.(workers := s.workers[i := Ready], finished := s.finished + {s.workers[i].k})
    case SetStop =>
      s.(stop := true, phase := StopSet, promised := if s.stop then s.promised else |s.pushed|)
    case NotifyAll => s.(workers := WakeAll(s.workers), phase := Joining(0))
    case Join => s.(phase := Joining(s.phase.next + 1))
    case Return => s.(phase := Done)
  }

  /** A run: `states[0]` is the fresh pool and every step is enabled where it is taken. */
  ghost predicate IsRun(n: nat, steps: seq<Step>, states: seq<State>) {
    && |states| == |steps| + 1
    && states[0] == Init(n)
    && forall i :: 0 <= i < |steps| ==> Enabled(states[i], steps[i]) && states[i + 1] == Apply(states[i], steps[i])
  }
}
