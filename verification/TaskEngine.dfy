/**
 The task engine as a transition system: callers of the executor, the threads of its workers, and
 calls that stop a worker, interleaved at every access to a shared variable.

 A state records the owners of the three kinds of mutexes (one of the executor, and per worker the
 daemon mutex and the queue mutex), and histories of what was accepted, dispatched and executed.
 */
module TaskEngine {
  import opened Prelude

  /** Tasks are told apart by number. */
  type Task = nat

  datatype Owner = Free | ByWorker | BySubmitter | ByStopper

  /** Where the thread of a worker is; `last` marks the check after the timed wait has run out. */
  datatype Phase =
    | Head                     // at the test of the loop
    | Locking                  // wants the daemon mutex
    | Check(last: bool)        // about to evaluate the wait predicate
    | Peek(last: bool)         // in the predicate, holding the queue mutex
    | Probe(last: bool)        // saw an empty queue, about to read the stop flag
    | Waiting                  // in the timed wait, daemon mutex released
    | Woken(timedOut: bool)    // wants the daemon mutex back
    | Poll                     // wait is over, about to read the stop flag
    | Fetch                    // in the loop body, wants the queue mutex
    | Pop                      // in the loop body, holding the queue mutex
    | Running(task: Task)      // runs a task, still holding the daemon mutex
    | Handling                 // in one of the three handlers around the task, mutex still held
    | Unlocking                // about to release the daemon mutex
    | Exited

  /** Progress of the one call of `stopAndJoin` that won the exchange of the `stopped` flag. */
  datatype StopCall = NotStopped | Won | StopLocked | StopStored | Flagged | Joined

  datatype Worker = Worker(
    queue: seq<Task>, phase: Phase, dmx: Owner, qmx: Owner,
    stop: bool, stopper: StopCall,
    dispatched: seq<Task>, executed: seq<Task>, failed: seq<Task>, late: nat)

  const NEW_WORKER := Worker([], Head, Free, Free, false, NotStopped, [], [], [], 0)

  /** A call of the executor; an empty task is `None`. `from` is the worker whose task makes the call. */
  datatype Call = Call(task: Option<Task>, from: Option<nat>)

  datatype SubPhase = Entered | WantDaemon | HasDaemon | HasQueue | Pushed | Released

  /** The executor mutex: free, or held by a call. */
  datatype Exec = Idle | Busy(call: Call, at: SubPhase)

  /** `jthread` chooses between the build with stop tokens and the fallback with a flag. */
  datatype Engine = Engine(
    capacity: nat, jthread: bool, workers: seq<Worker>, index: nat,
    exec: Exec, blocked: seq<Call>, accepted: seq<Task>)

  function Init(capacity: nat, jthread: bool): Engine {
    Engine(capacity, jthread, [], 0, Idle, [], [])
  }

  /** What a worker's thread does not decide itself: why its wait ends, and how its task does. */
  datatype Cause = Cause(timedOut: bool, threw: bool)

  datatype Action =
    | Stutter
    | Submit(call: Call)                  // a caller reaches the executor mutex
    | Enter(k: nat)                       // one of the blocked callers gets it
    | Advance                             // the caller holding it makes a step
    | WorkerAct(w: nat, cause: Cause)     // the thread of a worker makes a step
    | StopRequest(w: nat)                 // `stopAndJoin` is called
    | StopAct(w: nat)                     // the winning call of it makes a step

  // --- One thread at a time ---

  /** A step of the worker's own thread. A running task that is inside a call has not returned. */
  function WorkerStep(k: Worker, cause: Cause, inCall: bool): Option<Worker> {
    match k.phase
    case Head => Some(k.(phase := if k.stop then Exited else Locking))
    case Locking => if k.dmx.Free? then Some(k.(dmx := ByWorker, phase := Check(false))) else None
    case Check(last) => if k.qmx.Free? then Some(k.(qmx := ByWorker, phase := Peek(last))) else None
    case Peek(last) => Some(k.(qmx := Free, phase := if k.queue != [] then Poll else Probe(last)))
    case Probe(last) =>
      if k.stop || last then Some(k.(phase := Poll)) else Some(k.(dmx := Free, phase := Waiting))
    case Waiting => Some(k.(phase := Woken(cause.timedOut)))
    case Woken(t) => if k.dmx.Free? then Some(k.(dmx := ByWorker, phase := Check(t))) else None
    case Poll => if k.stop then Some(k.(dmx := Free, phase := Exited)) else Some(k.(phase := Fetch))
    case Fetch => if k.qmx.Free? then Some(k.(qmx := ByWorker, phase := Pop)) else None
    case Pop =>
      if k.queue == [] then Some(k.(qmx := Free, phase := Unlocking))
      else Some(k.(qmx := Free, phase := Running(k.queue[0]), queue := k.queue[1..],
                   late := if k.stop then k.late + 1 else k.late))
    case Running(task) =>
      if inCall then None
      else if cause.threw then
        Some(k.(executed := k.executed + [task], failed := k.failed + [task], phase := Handling))
      else Some(k.(executed := k.executed + [task], phase := Unlocking))
    case Handling => Some(k.(phase := Unlocking))
    case Unlocking => Some(k.(dmx := Free, phase := Head))
    case Exited => None
  }

  /** What a caller does to its worker when it leaves `at`. */
  function SubmitStep(k: Worker, at: SubPhase, task: Task): Option<Worker> {
    match at
    case WantDaemon => if k.dmx.Free? then Some(k.(dmx := BySubmitter)) else None
    case HasDaemon => if k.qmx.Free? then Some(k.(qmx := BySubmitter)) else None
    case HasQueue => Some(k.(qmx := Free, queue := k.queue + [task], dispatched := k.dispatched + [task]))
    case Pushed => Some(k.(dmx := Free))
    case _ => Some(k)
  }

  function NextAt(at: SubPhase): SubPhase {
    match at
    case Entered => WantDaemon
    case WantDaemon => HasDaemon
    case HasDaemon => HasQueue
    case HasQueue => Pushed
    case Pushed => Released
    case Released => Released
  }

  function StopStep(k: Worker, jthread: bool): Option<Worker> {
    match k.stopper
    case NotStopped => None
    case Won =>
      if jthread then Some(k.(stop := true, stopper := Flagged))
      else if k.dmx.Free? then Some(k.(dmx := ByStopper, stopper := StopLocked))
      else None
    case StopLocked => Some(k.(stop := true, stopper := StopStored))
    case StopStored => Some(k.(dmx := Free, stopper := Flagged))
    case Flagged => if k.phase.Exited? then Some(k.(stopper := Joined)) else None
    case Joined => None
  }

  // --- The whole engine ---

  /** The task running on `w` is inside a call of the executor. */
  predicate InCall(e: Engine, w: nat) {
    || (e.exec.Busy? && e.exec.call.from == Some(w))
    || exists k | 0 <= k < |e.blocked| :: e.blocked[k].from == Some(w)
  }

  /** The step of the call holding the executor mutex; it throws when the pool has no worker to offer. */
  function AdvanceStep(e: Engine): Option<Engine> {
    if e.exec.Idle? then None
    else
      var at := e.exec.at;
      if at.Entered? then
        if e.exec.call.task.None? then Some(e.(exec := Idle))
        else
          var grown := if |e.workers| < e.capacity then e.workers + [NEW_WORKER] else e.workers;
          if e.index >= |grown| then Some(e.(workers := grown, exec := Idle))
          else Some(e.(workers := grown, exec := e.exec.(at := WantDaemon)))
      else if at.Released? then
        Some(e.(exec := Idle, index := if e.capacity == 0 then e.index else (e.index + 1) % e.capacity))
      else if e.index >= |e.workers| || e.exec.call.task.None? then None
      else
        var k := SubmitStep(e.workers[e.index], at, e.exec.call.task.value);
        if k.None? then None
        else
          Some(e.(
            workers := e.workers[e.index := k.value],
            exec := e.exec.(at := NextAt(at)),
            accepted := if at.HasQueue? then e.accepted + [e.exec.call.task.value] else e.accepted))
  }

  function Step(e: Engine, a: Action): Option<Engine> {
    match a
    case Stutter => Some(e)
    case Submit(call) =>
      if call.from.Some? && !(call.from.value < |e.workers| && e.workers[call.from.value].phase.Running?
                              && !InCall(e, call.from.value))
      then None
      else Some(e.(blocked := e.blocked + [call]))
    case Enter(k) =>
      if k < |e.blocked| && e.exec.Idle? then
        Some(e.(exec := Busy(e.blocked[k], Entered), blocked := e.blocked[..k] + e.blocked[k + 1..]))
      else None
    case Advance => AdvanceStep(e)
    case WorkerAct(w, cause) =>
      if w >= |e.workers| then None
      else
        var k := WorkerStep(e.workers[w], cause, InCall(e, w));
        if k.None? then None else Some(e.(workers := e.workers[w := k.value]))
    case StopRequest(w) =>
      if w >= |e.workers| then None
      else if e.workers[w].stopper.NotStopped? then
        Some(e.(workers := e.workers[w := e.workers[w].(stopper := Won)]))
      else Some(e)
    case StopAct(w) =>
      if w >= |e.workers| then None
      else
        var k := StopStep(e.workers[w], e.jthread);
        if k.None? then None else Some(e.(workers := e.workers[w := k.value]))
  }

  /** The state after a finite run, unless one of its actions was not possible. */
  function Run(e: Engine, actions: seq<Action>): Option<Engine> {
    if actions == [] then Some(e)
    else
      var before := Run(e, actions[..|actions| - 1]);
      if before.None? then None else Step(before.value, actions[|actions| - 1])
  }

  ghost predicate Reachable(e: Engine) {
    exists capacity, jthread, actions :: Run(Init(capacity, jthread), actions) == Some(e)
  }
}
