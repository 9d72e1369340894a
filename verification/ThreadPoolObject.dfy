/**
  * The pool as an object. Its shared fields change in place, one atomic step per method; `model` adds
  * what the threads keep to themselves (program counters) and the history the guarantees speak of.
  */
module ThreadPoolObject {
  import opened ThreadPoolSteps
  import opened ThreadPoolSafety

  /** What a worker does after it has tested the predicate under the lock. */
  datatype Verdict = Wait | Leave | Take(task: Task)

  class ThreadPool {
    var tasks: seq<Task>
    var stop: bool
    ghost var model: State

    ghost predicate Valid()
      reads this
    {
      model.tasks == tasks && model.stop == stop && Invariant(model)
    }

    constructor (numThreads: nat)
      ensures Valid() && model == Init(numThreads)
    {
      tasks, stop := [], false;
      model := Init(numThreads);
    }

    /** enqueue, inside the lock. */
    method Push(task: Task)
      requires Valid() && Enabled(model, Step.Push(task))
      modifies this
      ensures Valid() && model == Apply(old(model), Step.Push(task))
    {
      tasks := tasks + [task];
      Advance(Step.Push(task));
    }

    /** One pass of worker i through the lock: go to sleep, return, or take the front task. */
    method Evaluate(i: nat) returns (verdict: Verdict)
      requires Valid() && Enabled(model, Step.Evaluate(i))
      modifies this
      ensures Valid() && model == Apply(old(model), Step.Evaluate(i))
      ensures verdict == match model.workers[i]
                         case Parking => Wait
                         case Returned => Leave
                         case _ => Take(old(model).pushed[|old(model).dispatched|])
    {
      if !(stop || tasks != []) {
        verdict := Wait;
      } else if stop && tasks == [] {
        verdict := Leave;
      } else {
        verdict := Take(tasks[0]);
        tasks := tasks[1..];
      }
      Advance(Step.Evaluate(i));
    }

    /** shutdown, first statement. */
    method SetStop()
      requires Valid() && Enabled(model, Step.SetStop)
      modifies this
      ensures Valid() && model == Apply(old(model), Step.SetStop)
    {
      stop := true;
      Advance(Step.SetStop);
    }

    /** What any step does to `model`; notify, block, wake, run and join leave the shared fields alone. */
    ghost method Advance(step: Step)
      requires Invariant(model) && Enabled(model, step)
      modifies this`model
      ensures Invariant(model) && model == Apply(old(model), step)
    {
      InvariantStep(model, step);
      model := Apply(model, step);
    }
  }
}
