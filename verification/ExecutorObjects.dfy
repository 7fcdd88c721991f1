/**
 The executor and its workers as objects, seen by one caller at a time: the executor mutex makes calls
 of `Submit` follow one another. The pool they keep is the round robin of `TaskSafety.Share`.
 */
module ExecutorObjects {
  import opened Prelude
  import opened TaskSafety
  import TaskEngine

  type Task = TaskEngine.Task

  datatype Outcome = Accepted | Ignored | OutOfRange

  class Worker {
    var taskQueue: seq<Task>
    ghost var executed: seq<Task>
    ghost var dispatched: seq<Task>

    ghost predicate Valid()
      reads this
    {
      executed + taskQueue == dispatched
    }

    constructor ()
      ensures Valid() && taskQueue == [] && executed == [] && dispatched == []
    {
      taskQueue, executed, dispatched := [], [], [];
    }

    method Enqueue(task: Task)
      requires Valid()
      modifies this
      ensures Valid() && dispatched == old(dispatched) + [task] && executed == old(executed)
    {
      taskQueue := taskQueue + [task];
      dispatched := dispatched + [task];
      assert executed + taskQueue == dispatched;
    }

    /** The body that the daemon runs: the oldest task, if there is one. */
    method RunLoop() returns (func: Option<Task>)
      requires Valid()
      modifies this
      ensures Valid() && dispatched == old(dispatched)
      ensures func == if old(taskQueue) == [] then None else Some(dispatched[|old(executed)|])
      ensures executed == old(executed) + if func.None? then [] else [func.value]
    {
      if taskQueue == [] {
        return None;
      }
      func := Some(taskQueue[0]);
      taskQueue := taskQueue[1..];
      executed := executed + [func.value];
    }
  }

  class Executor {
    const workerPoolCapacity: nat
    var workerPool: seq<Worker>
    var workerIndex: nat
    ghost var accepted: seq<Task>
    /** What was dispatched to each worker. */
    ghost var dealt: seq<seq<Task>>

    /** The pool has `size` workers, each with its share of the accepted tasks, and the index is in turn. */
    ghost predicate Dealing(size: nat)
      reads this, workerPool
    {
      && |workerPool| == |dealt| == size
      && (forall i, j | 0 <= i < j < |workerPool| :: workerPool[i] != workerPool[j])
      && (forall i | 0 <= i < |workerPool| :: workerPool[i].Valid() && workerPool[i].dispatched == dealt[i])
      && if workerPoolCapacity == 0 then accepted == [] && workerIndex == 0
         else workerIndex == |accepted| % workerPoolCapacity && IsDealt(accepted, workerPoolCapacity, dealt)
    }

    ghost predicate Valid()
      reads this, workerPool
    {
      Dealing(Min(|accepted|, workerPoolCapacity))
    }

    /** Capacity 0 asks for one worker per core; the number of cores can be reported as 0. */
    constructor (capacity: nat, cores: nat)
      ensures Valid() && accepted == [] && workerPool == []
      ensures workerPoolCapacity == if capacity == 0 then cores else capacity
    {
      workerPoolCapacity := if capacity == 0 then cores else capacity;
      workerPool, workerIndex, accepted, dealt := [], 0, [], [];
    }

    /** A pool below its capacity gets one more worker, idle and with nothing dispatched to it. */
    method Grow()
      requires Valid()
      modifies this`workerPool, this`dealt
      ensures Dealing(Min(|accepted| + 1, workerPoolCapacity))
      ensures old(workerPool) <= workerPool
      ensures forall i | |old(workerPool)| <= i < |workerPool| :: fresh(workerPool[i])
    {
      if |workerPool| < workerPoolCapacity {
        var worker := new Worker();
        workerPool, dealt := workerPool + [worker], dealt + [[]];
      }
    }

    /** The worker at `w` takes the task; the others are left alone. */
    method Hand(w: nat, task: Task)
      requires w < |workerPool|
      requires forall i, j | 0 <= i < j < |workerPool| :: workerPool[i] != workerPool[j]
      requires forall i | 0 <= i < |workerPool| :: workerPool[i].Valid()
      modifies workerPool
      ensures forall i | 0 <= i < |workerPool| :: workerPool[i].Valid()
      ensures forall i | 0 <= i < |workerPool| :: workerPool[i].executed == old(workerPool[i].executed)
      ensures forall i | 0 <= i < |workerPool| ::
                workerPool[i].dispatched == old(workerPool[i].dispatched) + if i == w then [task] else []
    {
      workerPool[w].Enqueue(task);
      forall i | 0 <= i < |workerPool| && i != w
        ensures workerPool[i] != workerPool[w]
      {
      }
    }

    /** The dispatch to the worker whose turn it is. */
    method Dispatch(task: Task)
      requires workerPoolCapacity > 0 && Dealing(Min(|accepted| + 1, workerPoolCapacity))
      modifies this`accepted, this`workerIndex, this`dealt, workerPool
      ensures Valid() && accepted == old(accepted) + [task]
      ensures forall i | 0 <= i < |workerPool| :: workerPool[i].executed == old(workerPool[i].executed)
    {
      Turn(accepted, workerPoolCapacity, workerIndex);
      DealtTo(accepted, task, workerPoolCapacity, workerIndex, dealt);
      Hand(workerIndex, task);
      dealt := dealt[workerIndex := dealt[workerIndex] + [task]];
      accepted := accepted + [task];
      workerIndex := (workerIndex + 1) % workerPoolCapacity;
    }

    /** Hands the task to the worker whose turn it is, growing the pool while it is below its capacity. */
    method Submit(task: Option<Task>) returns (outcome: Outcome)
      requires Valid()
      modifies this, workerPool
      ensures Valid() && old(workerPool) <= workerPool
      ensures forall i | |old(workerPool)| <= i < |workerPool| :: fresh(workerPool[i])
      ensures outcome == if task.None? then Ignored else if workerPoolCapacity == 0 then OutOfRange else Accepted
      ensures accepted == if outcome.Accepted? then old(accepted) + [task.value] else old(accepted)
      ensures !outcome.Accepted? ==> workerPool == old(workerPool) && workerIndex == old(workerIndex)
      ensures forall i | 0 <= i < |old(workerPool)| :: workerPool[i].executed == old(workerPool[i].executed)
    {
      if task.None? {
        return Ignored;
      }
      Grow();
      if workerPoolCapacity > 0 {
        Turn(accepted, workerPoolCapacity, workerIndex);
      }
      if workerIndex >= |workerPool| {
        return OutOfRange;
      }
      Dispatch(task.value);
      return Accepted;
    }
  }

  lemma Turn(tasks: seq<Task>, capacity: nat, w: nat)
    requires capacity > 0 && w == |tasks| % capacity
    ensures w < Min(|tasks| + 1, capacity) && (w + 1) % capacity == (|tasks| + 1) % capacity
    ensures |tasks| < capacity ==> w == |tasks|
  {
    IndexInRange(|tasks|, capacity);
    NextIndex(|tasks|, capacity);
  }

  /** Each worker has its share; places without a worker yet have an empty one. */
  predicate IsDealt(tasks: seq<Task>, capacity: nat, dealt: seq<seq<Task>>)
    requires capacity > 0
  {
    forall i | 0 <= i < capacity :: Share(tasks, capacity, i) == if i < |dealt| then dealt[i] else []
  }

  /** A task dealt to the worker whose turn it is goes into that worker's share and no other. */
  lemma DealtTo(tasks: seq<Task>, task: Task, capacity: nat, w: nat, dealt: seq<seq<Task>>)
    requires capacity > 0 && IsDealt(tasks, capacity, dealt) && w == |tasks| % capacity && w < |dealt|
    ensures IsDealt(tasks + [task], capacity, dealt[w := dealt[w] + [task]])
  {
    forall i | 0 <= i < capacity
      ensures Share(tasks + [task], capacity, i) == Share(tasks, capacity, i) + if i == w then [task] else []
    {
      ShareSnoc(tasks, task, capacity, i);
    }
  }
}
