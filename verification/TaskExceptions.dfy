/**
 Exceptions thrown by tasks are swallowed: every run goes, step for step, like one in which no task
 throws and which rests while a handler is at work.
 */
module TaskExceptions {
  import opened Prelude
  import opened TaskEngine

  /** The worker as if its tasks had returned: a handler is over as soon as it is entered. */
  predicate SameWorker(k: Worker, l: Worker) {
    l == k.(failed := l.failed, phase := if k.phase.Handling? then Unlocking else k.phase)
  }

  predicate Same(e: Engine, f: Engine) {
    && e == f.(workers := e.workers)
    && |e.workers| == |f.workers|
    && forall i | 0 <= i < |e.workers| :: SameWorker(e.workers[i], f.workers[i])
  }

  /** The same action when the task returns; leaving a handler is a rest. */
  function Calm(e: Engine, a: Action): (r: Action)
    ensures r.WorkerAct? ==> !r.cause.threw
  {
    if !a.WorkerAct? then a
    else if a.w < |e.workers| && e.workers[a.w].phase.Handling? then Stutter
    else a.(cause := a.cause.(threw := false))
  }

  /** A run without throws, of the same length. */
  function CalmRun(e: Engine, actions: seq<Action>): (r: seq<Action>)
    ensures |r| == |actions| && forall i | 0 <= i < |r| :: r[i].WorkerAct? ==> !r[i].cause.threw
  {
    if actions == [] then []
    else
      var init, last := actions[..|actions| - 1], actions[|actions| - 1];
      var before := Run(e, init);
      CalmRun(e, init) + [if before.None? then Stutter else Calm(before.value, last)]
  }

  predicate SameMove(a: Option<Worker>, b: Option<Worker>) {
    a.Some? == b.Some? && (a.Some? ==> SameWorker(a.value, b.value))
  }

  predicate SameResult(a: Option<Engine>, b: Option<Engine>) {
    a.Some? == b.Some? && (a.Some? ==> Same(a.value, b.value))
  }

  /** A worker that neither runs a task nor handles its exception does not look at the record. */
  lemma SameWaitStep(k: Worker, f: seq<Task>, g: seq<Task>, cause: Cause, inCall: bool)
    requires k.phase.Locking? || k.phase.Check? || k.phase.Peek? || k.phase.Probe? || k.phase.Waiting? || k.phase.Woken?
    ensures SameMove(WorkerStep(k.(failed := f), cause, inCall),
                     WorkerStep(k.(failed := g), cause.(threw := false), inCall))
  {
  }

  lemma SameLoopStep(k: Worker, f: seq<Task>, g: seq<Task>, cause: Cause, inCall: bool)
    requires k.phase.Head? || k.phase.Poll? || k.phase.Fetch? || k.phase.Pop? || k.phase.Unlocking? || k.phase.Exited?
    ensures SameMove(WorkerStep(k.(failed := f), cause, inCall),
                     WorkerStep(k.(failed := g), cause.(threw := false), inCall))
  {
  }

  lemma SameWorkerStep(k: Worker, l: Worker, cause: Cause, inCall: bool)
    requires SameWorker(k, l) && !k.phase.Handling?
    ensures SameMove(WorkerStep(k, cause, inCall), WorkerStep(l, cause.(threw := false), inCall))
  {
    if k.phase.Head? || k.phase.Poll? || k.phase.Fetch? || k.phase.Pop? || k.phase.Unlocking? || k.phase.Exited? {
      SameLoopStep(k, k.failed, l.failed, cause, inCall);
    } else if !k.phase.Running? {
      SameWaitStep(k, k.failed, l.failed, cause, inCall);
    }
  }

  lemma SameSubmitStep(k: Worker, l: Worker, at: SubPhase, task: Task)
    requires SameWorker(k, l)
    ensures SameMove(SubmitStep(k, at, task), SubmitStep(l, at, task))
  {
  }

  lemma SameStopStep(k: Worker, l: Worker, jthread: bool)
    requires SameWorker(k, l)
    ensures SameMove(StopStep(k, jthread), StopStep(l, jthread))
  {
  }

  lemma SameAdvance(e: Engine, f: Engine)
    requires Same(e, f)
    ensures SameResult(AdvanceStep(e), AdvanceStep(f))
  {
    if e.exec.Busy? && e.exec.at !in {Entered, Released} && e.index < |e.workers| && e.exec.call.task.Some? {
      SameSubmitStep(e.workers[e.index], f.workers[e.index], e.exec.at, e.exec.call.task.value);
    }
  }

  lemma SameAct(e: Engine, f: Engine, w: nat, cause: Cause)
    requires Same(e, f)
    ensures SameResult(Step(e, WorkerAct(w, cause)), Step(f, Calm(e, WorkerAct(w, cause))))
  {
    if w < |e.workers| && !e.workers[w].phase.Handling? {
      assert InCall(e, w) == InCall(f, w);
      SameWorkerStep(e.workers[w], f.workers[w], cause, InCall(e, w));
    }
  }

  lemma SameStep(e: Engine, f: Engine, a: Action)
    requires Same(e, f)
    ensures SameResult(Step(e, a), Step(f, Calm(e, a)))
  {
    match a {
      case Advance => SameAdvance(e, f);
      case WorkerAct(w, cause) => SameAct(e, f, w, cause);
      case StopAct(w) =>
        if w < |e.workers| {
          SameStopStep(e.workers[w], f.workers[w], e.jthread);
        }
      case _ =>
    }
  }

  /**
   A run with throwing tasks is possible exactly when the calm one is. Both end with the same queues,
   histories, mutexes, pool and callers; only a worker inside a handler is ahead by that handler.
   */
  lemma {:induction false} ExceptionsLeaveNoTrace(e: Engine, f: Engine, actions: seq<Action>)
    requires Same(e, f)
    ensures SameResult(Run(e, actions), Run(f, CalmRun(e, actions)))
  {
    if actions != [] {
      var init, last := actions[..|actions| - 1], actions[|actions| - 1];
      ExceptionsLeaveNoTrace(e, f, init);
      assert CalmRun(e, actions)[..|actions| - 1] == CalmRun(e, init);
      if Run(e, init).Some? {
        SameStep(Run(e, init).value, Run(f, CalmRun(e, init)).value, last);
      }
    }
  }
}
