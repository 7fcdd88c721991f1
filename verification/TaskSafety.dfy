/** What every run of the task engine keeps: conservation and order, round robin, and shutdown. */
module TaskSafety {
  import opened Prelude
  import opened TaskEngine

  // --- One worker ---

  function InFlight(phase: Phase): seq<Task> {
    if phase.Running? then [phase.task] else []
  }

  predicate HoldsDaemon(phase: Phase) {
    || phase.Check? || phase.Peek? || phase.Probe? || phase.Poll?
    || phase.Fetch? || phase.Pop? || phase.Running? || phase.Handling? || phase.Unlocking?
  }

  predicate HoldsQueue(phase: Phase) {
    phase.Peek? || phase.Pop?
  }

  /** The mutexes of a worker are held by exactly the threads whose position says so; `sub` is a caller's. */
  predicate LocksAgree(k: Worker, sub: Option<SubPhase>) {
    && (k.dmx == ByWorker <==> HoldsDaemon(k.phase))
    && (k.dmx == BySubmitter <==> sub.Some? && sub.value in {HasDaemon, HasQueue, Pushed})
    && (k.dmx == ByStopper <==> k.stopper in {StopLocked, StopStored})
    && (k.qmx == ByWorker <==> HoldsQueue(k.phase))
    && (k.qmx == BySubmitter <==> sub == Some(HasQueue))
    && k.qmx != ByStopper
  }

  predicate StopAgrees(k: Worker, jthread: bool) {
    && (k.stop <==> k.stopper in {StopStored, Flagged, Joined})
    && (k.late > 0 ==> k.stop && jthread && k.late == 1
                       && (|| k.phase.Running? || k.phase.Handling? || k.phase.Unlocking?
                           || k.phase.Head? || k.phase.Exited?))
    && (k.stop && !jthread ==> !k.phase.Fetch? && !k.phase.Pop?)
    && (jthread ==> k.stopper !in {StopLocked, StopStored})
    && (k.phase.Exited? ==> k.stop)
    && (k.stopper.Joined? ==> k.phase.Exited?)
  }

  predicate QueueAgrees(k: Worker) {
    && k.executed + InFlight(k.phase) + k.queue == k.dispatched
    && (k.phase.Probe? ==> k.queue == [])
  }

  predicate WorkerInv(k: Worker, sub: Option<SubPhase>, jthread: bool) {
    QueueAgrees(k) && LocksAgree(k, sub) && StopAgrees(k, jthread)
  }

  lemma WorkerStepKeepsQueue(k: Worker, cause: Cause, inCall: bool)
    requires QueueAgrees(k) && WorkerStep(k, cause, inCall).Some?
    ensures QueueAgrees(WorkerStep(k, cause, inCall).value)
  {
    if k.phase.Pop? && k.queue != [] {
      assert k.queue == [k.queue[0]] + k.queue[1..];
    }
  }

  lemma WorkerStepKeepsLocks(k: Worker, sub: Option<SubPhase>, cause: Cause, inCall: bool)
    requires LocksAgree(k, sub) && WorkerStep(k, cause, inCall).Some?
    ensures LocksAgree(WorkerStep(k, cause, inCall).value, sub)
  {
  }

  lemma WorkerStepKeepsStop(k: Worker, jthread: bool, cause: Cause, inCall: bool)
    requires StopAgrees(k, jthread) && WorkerStep(k, cause, inCall).Some?
    ensures StopAgrees(WorkerStep(k, cause, inCall).value, jthread)
  {
  }

  lemma WorkerStepKeeps(k: Worker, sub: Option<SubPhase>, jthread: bool, cause: Cause, inCall: bool)
    requires WorkerInv(k, sub, jthread) && WorkerStep(k, cause, inCall).Some?
    ensures WorkerInv(WorkerStep(k, cause, inCall).value, sub, jthread)
  {
    WorkerStepKeepsQueue(k, cause, inCall);
    WorkerStepKeepsLocks(k, sub, cause, inCall);
    WorkerStepKeepsStop(k, jthread, cause, inCall);
  }

  lemma SubmitStepKeeps(k: Worker, at: SubPhase, task: Task, jthread: bool)
    requires WorkerInv(k, Some(at), jthread) && at !in {Entered, Released} && SubmitStep(k, at, task).Some?
    ensures WorkerInv(SubmitStep(k, at, task).value, Some(NextAt(at)), jthread)
  {
    if at.HasQueue? {
      assert k.executed + InFlight(k.phase) + (k.queue + [task]) == k.dispatched + [task];
    }
  }

  lemma StopStepKeeps(k: Worker, sub: Option<SubPhase>, jthread: bool)
    requires WorkerInv(k, sub, jthread) && StopStep(k, jthread).Some?
    ensures WorkerInv(StopStep(k, jthread).value, sub, jthread)
  {
  }

  // --- The pool ---

  /** The tasks at the positions that fall to worker `i` of `n` when dealt in turn. */
  function Share(tasks: seq<Task>, n: nat, i: nat): seq<Task>
    requires n > 0
  {
    if tasks == [] then []
    else Share(tasks[..|tasks| - 1], n, i) + if (|tasks| - 1) % n == i then [tasks[|tasks| - 1]] else []
  }

  /** The position of the call that is dispatching to worker `i`, if there is one. */
  function SubOn(e: Engine, i: nat): Option<SubPhase> {
    if e.exec.Busy? && !e.exec.at.Entered? && e.index == i then Some(e.exec.at) else None
  }

  /** Calls accepted so far, and whether the current one has its worker already, or has pushed already. */
  predicate PoolInv(e: Engine) {
    var n := |e.accepted|;
    if e.capacity == 0 then
      e.workers == [] && n == 0 && e.index == 0 && (e.exec.Busy? ==> e.exec.at.Entered?)
    else if e.exec.Idle? || e.exec.at.Entered? then
      |e.workers| == Min(n, e.capacity) && e.index == n % e.capacity
    else
      && e.exec.call.task.Some?
      && if e.exec.at in {WantDaemon, HasDaemon, HasQueue} then
           |e.workers| == Min(n + 1, e.capacity) && e.index == n % e.capacity
         else
           n > 0 && |e.workers| == Min(n, e.capacity) && e.index == (n - 1) % e.capacity
  }

  predicate WorkersInv(e: Engine) {
    forall i | 0 <= i < |e.workers| :: WorkerInv(e.workers[i], SubOn(e, i), e.jthread)
  }

  /** Worker `i` was dispatched its share; places that have no worker yet have an empty share. */
  predicate SharesInv(e: Engine) {
    e.capacity > 0 ==> forall i | 0 <= i < e.capacity ::
      Share(e.accepted, e.capacity, i) == if i < |e.workers| then e.workers[i].dispatched else []
  }

  predicate Inv(e: Engine) {
    PoolInv(e) && WorkersInv(e) && SharesInv(e)
  }

  lemma IndexInRange(n: nat, capacity: nat)
    requires capacity > 0
    ensures n % capacity < Min(n + 1, capacity)
    ensures n < capacity ==> n % capacity == n
  {
  }

  lemma NextIndex(n: nat, capacity: nat)
    requires capacity > 0
    ensures (n % capacity + 1) % capacity == (n + 1) % capacity
  {
    var q, r := n / capacity, n % capacity;
    assert n == capacity * q + r;
    if r + 1 < capacity {
      RemainderIs(n + 1, capacity, q, r + 1);
      SmallMod(r + 1, capacity);
    } else {
      assert n + 1 == capacity * (q + 1);
      RemainderIs(n + 1, capacity, q + 1, 0);
      RemainderIs(capacity, capacity, 1, 0);
    }
  }

  lemma ShareSnoc(tasks: seq<Task>, task: Task, n: nat, i: nat)
    requires n > 0
    ensures Share(tasks + [task], n, i) == Share(tasks, n, i) + if |tasks| % n == i then [task] else []
  {
    assert (tasks + [task])[..|tasks|] == tasks;
  }

  // --- Every step keeps the invariant ---

  lemma Grows(e: Engine, after: Engine)
    requires Inv(e) && e.exec.Busy? && e.exec.at.Entered? && e.exec.call.task.Some? && e.capacity > 0
    requires after == e.(workers := after.workers, exec := e.exec.(at := WantDaemon))
    requires after.workers == if |e.workers| < e.capacity then e.workers + [NEW_WORKER] else e.workers
    ensures Inv(after) && e.index < |after.workers|
  {
    IndexInRange(|e.accepted|, e.capacity);
    assert PoolInv(after) && SharesInv(after);
    forall i | 0 <= i < |after.workers|
      ensures WorkerInv(after.workers[i], SubOn(after, i), e.jthread)
    {
      if i < |e.workers| {
        assert WorkerInv(e.workers[i], SubOn(e, i), e.jthread);
      }
    }
  }

  lemma EnterPool(e: Engine)
    requires Inv(e) && e.exec.Busy? && e.exec.at.Entered?
    ensures AdvanceStep(e).Some? && Inv(AdvanceStep(e).value)
  {
    var grown := if |e.workers| < e.capacity then e.workers + [NEW_WORKER] else e.workers;
    if e.exec.call.task.Some? && e.capacity > 0 {
      Grows(e, e.(workers := grown, exec := e.exec.(at := WantDaemon)));
    } else {
      var after := e.(exec := Idle);
      assert AdvanceStep(e) == Some(after);
      assert forall i | 0 <= i < |e.workers| :: SubOn(after, i) == SubOn(e, i);
    }
  }

  lemma LeavePool(e: Engine)
    requires Inv(e) && e.exec.Busy? && e.exec.at.Released?
    ensures AdvanceStep(e).Some? && Inv(AdvanceStep(e).value)
  {
    NextIndex(|e.accepted| - 1, e.capacity);
    var after := AdvanceStep(e).value;
    assert PoolInv(after) && SharesInv(after);
    forall i | 0 <= i < |after.workers|
      ensures WorkerInv(after.workers[i], SubOn(after, i), e.jthread)
    {
      assert WorkerInv(e.workers[i], SubOn(e, i), e.jthread);
    }
  }

  lemma DispatchShares(e: Engine, task: Task, w: nat, k: Worker, after: Engine)
    requires SharesInv(e) && e.capacity > 0 && w == |e.accepted| % e.capacity && w < |e.workers| <= e.capacity
    requires k.dispatched == e.workers[w].dispatched + [task]
    requires after.capacity == e.capacity && after.workers == e.workers[w := k] && after.accepted == e.accepted + [task]
    ensures SharesInv(after)
  {
    forall i | 0 <= i < e.capacity
      ensures Share(after.accepted, e.capacity, i) == if i < |after.workers| then after.workers[i].dispatched else []
    {
      ShareSnoc(e.accepted, task, e.capacity, i);
    }
  }

  lemma DispatchStep(e: Engine)
    requires Inv(e) && e.exec.Busy? && e.exec.at !in {Entered, Released} && AdvanceStep(e).Some?
    ensures Inv(AdvanceStep(e).value)
  {
    var at, task, w := e.exec.at, e.exec.call.task.value, e.index;
    var after := AdvanceStep(e).value;
    var k := SubmitStep(e.workers[w], at, task).value;
    assert WorkerInv(e.workers[w], Some(at), e.jthread) by {
      assert SubOn(e, w) == Some(at);
    }
    SubmitStepKeeps(e.workers[w], at, task, e.jthread);
    if at.HasQueue? {
      DispatchShares(e, task, w, k, after);
    } else {
      assert k.dispatched == e.workers[w].dispatched;
    }
    forall i | 0 <= i < |after.workers|
      ensures WorkerInv(after.workers[i], SubOn(after, i), e.jthread)
    {
      assert WorkerInv(e.workers[i], SubOn(e, i), e.jthread);
    }
    assert PoolInv(after);
  }

  lemma WorkerOnly(e: Engine, w: nat, k: Worker)
    requires Inv(e) && w < |e.workers| && WorkerInv(k, SubOn(e, w), e.jthread)
    requires k.dispatched == e.workers[w].dispatched
    ensures Inv(e.(workers := e.workers[w := k]))
  {
    var after := e.(workers := e.workers[w := k]);
    forall i | 0 <= i < |after.workers|
      ensures WorkerInv(after.workers[i], SubOn(after, i), e.jthread)
    {
      assert WorkerInv(e.workers[i], SubOn(e, i), e.jthread);
    }
    assert SharesInv(after);
  }

  lemma AdvanceKeeps(e: Engine)
    requires Inv(e) && AdvanceStep(e).Some?
    ensures Inv(AdvanceStep(e).value)
  {
    if e.exec.at.Entered? {
      EnterPool(e);
    } else if e.exec.at.Released? {
      LeavePool(e);
    } else {
      DispatchStep(e);
    }
  }

  lemma WorkerActKeeps(e: Engine, w: nat, cause: Cause)
    requires Inv(e) && Step(e, WorkerAct(w, cause)).Some?
    ensures Inv(Step(e, WorkerAct(w, cause)).value)
  {
    WorkerStepKeeps(e.workers[w], SubOn(e, w), e.jthread, cause, InCall(e, w));
    WorkerOnly(e, w, WorkerStep(e.workers[w], cause, InCall(e, w)).value);
  }

  lemma StopKeeps(e: Engine, w: nat, a: Action)
    requires Inv(e) && a in {StopRequest(w), StopAct(w)} && Step(e, a).Some?
    ensures Inv(Step(e, a).value)
  {
    if a.StopAct? {
      StopStepKeeps(e.workers[w], SubOn(e, w), e.jthread);
      WorkerOnly(e, w, StopStep(e.workers[w], e.jthread).value);
    } else if e.workers[w].stopper.NotStopped? {
      WorkerOnly(e, w, e.workers[w].(stopper := Won));
    }
  }

  lemma CallerKeeps(e: Engine, a: Action)
    requires Inv(e) && (a.Submit? || a.Enter?) && Step(e, a).Some?
    ensures Inv(Step(e, a).value)
  {
    var after := Step(e, a).value;
    assert forall i | 0 <= i < |e.workers| :: SubOn(after, i) == SubOn(e, i);
  }

  lemma StepKeepsInv(e: Engine, a: Action)
    requires Inv(e) && Step(e, a).Some?
    ensures Inv(Step(e, a).value)
  {
    match a {
      case Stutter =>
      case Submit(_) => CallerKeeps(e, a);
      case Enter(_) => CallerKeeps(e, a);
      case Advance => AdvanceKeeps(e);
      case WorkerAct(w, cause) => WorkerActKeeps(e, w, cause);
      case StopRequest(w) => StopKeeps(e, w, a);
      case StopAct(w) => StopKeeps(e, w, a);
    }
  }

  lemma {:induction false} RunKeepsInv(e: Engine, actions: seq<Action>)
    requires Inv(e) && Run(e, actions).Some?
    ensures Inv(Run(e, actions).value)
  {
    if actions != [] {
      RunKeepsInv(e, actions[..|actions| - 1]);
      StepKeepsInv(Run(e, actions[..|actions| - 1]).value, actions[|actions| - 1]);
    }
  }

  lemma ReachableInv(e: Engine)
    requires Reachable(e)
    ensures Inv(e)
  {
    var capacity, jthread, actions :| Run(Init(capacity, jthread), actions) == Some(e);
    RunKeepsInv(Init(capacity, jthread), actions);
  }

  lemma Reach(e: Engine, a: Action) returns (after: Engine)
    requires Reachable(e) && Step(e, a).Some?
    ensures after == Step(e, a).value && Reachable(after)
  {
    var capacity, jthread, actions :| Run(Init(capacity, jthread), actions) == Some(e);
    after := Step(e, a).value;
    assert (actions + [a])[..|actions|] == actions;
    assert Run(Init(capacity, jthread), actions + [a]) == Some(after);
  }

  // --- Conservation and order ---

  /**
   In every interleaving, executed ++ in flight ++ still queued is what was dispatched, in order; and the
   dispatched tasks are the worker's share of all accepted ones.
   */
  lemma Conservation(e: Engine, w: nat)
    requires Reachable(e) && w < |e.workers|
    ensures var k := e.workers[w];
            && k.executed + InFlight(k.phase) + k.queue == k.dispatched
            && e.capacity > 0 && k.dispatched == Share(e.accepted, e.capacity, w)
  {
    ReachableInv(e);
  }

  lemma {:induction false} ShareIsDistinct(tasks: seq<Task>, n: nat, i: nat)
    requires n > 0 && Distinct(tasks)
    ensures Distinct(Share(tasks, n, i))
    ensures forall t :: t in Share(tasks, n, i) ==> exists j | 0 <= j < |tasks| :: tasks[j] == t && j % n == i
  {
    if tasks != [] {
      var init := tasks[..|tasks| - 1];
      ShareIsDistinct(init, n, i);
      assert forall t :: t in Share(init, n, i) ==> t in init;
      assert tasks[|tasks| - 1] !in init;
      forall t | t in Share(tasks, n, i)
        ensures exists j | 0 <= j < |tasks| :: tasks[j] == t && j % n == i
      {
        if t in Share(init, n, i) {
          var j :| 0 <= j < |init| && init[j] == t && j % n == i;
          assert tasks[j] == t;
        } else {
          assert tasks[|tasks| - 1] == t;
        }
      }
    }
  }

  /** When all accepted tasks differ, no task is executed twice, on one worker or on two. */
  lemma NoTaskRunsTwice(e: Engine, v: nat, w: nat)
    requires Reachable(e) && v < |e.workers| && w < |e.workers| && Distinct(e.accepted)
    ensures Distinct(e.workers[w].executed)
    ensures v != w ==> forall t :: t in e.workers[v].executed ==> t !in e.workers[w].executed
  {
    Conservation(e, v);
    Conservation(e, w);
    ShareIsDistinct(e.accepted, e.capacity, v);
    ShareIsDistinct(e.accepted, e.capacity, w);
    ExecutedIsPrefix(e.workers[v]);
    ExecutedIsPrefix(e.workers[w]);
    forall t | v != w && t in e.workers[v].executed
      ensures t !in e.workers[w].executed
    {
      if t in e.workers[w].executed {
        var i :| 0 <= i < |e.accepted| && e.accepted[i] == t && i % e.capacity == v;
        var j :| 0 <= j < |e.accepted| && e.accepted[j] == t && j % e.capacity == w;
        assert false;
      }
    }
  }

  lemma ExecutedIsPrefix(k: Worker)
    requires k.executed + InFlight(k.phase) + k.queue == k.dispatched
    ensures k.executed <= k.dispatched && forall t :: t in k.executed ==> t in k.dispatched
  {
  }

  // --- Round robin ---

  /**
   Between calls, after n accepted tasks the pool has min(n, capacity) workers and the index is n mod
   capacity, so the next task goes to worker n mod capacity.
   */
  lemma PoolIsRoundRobin(e: Engine)
    requires Reachable(e) && e.exec.Idle? && e.capacity > 0
    ensures |e.workers| == Min(|e.accepted|, e.capacity) && e.index == |e.accepted| % e.capacity
  {
    ReachableInv(e);
  }

  /** Whenever a worker is looked up, the index is inside the pool. */
  lemma IndexIsInPool(e: Engine)
    requires Reachable(e) && e.exec.Busy? && !e.exec.at.Entered?
    ensures e.index < |e.workers|
  {
    ReachableInv(e);
    if |e.accepted| > 0 {
      IndexInRange(|e.accepted| - 1, e.capacity);
    }
    IndexInRange(|e.accepted|, e.capacity);
  }

  lemma OneMore(m: nat, n: nat)
    requires n > 0
    ensures if m % n + 1 < n then (m + 1) / n == m / n && (m + 1) % n == m % n + 1
            else (m + 1) / n == m / n + 1 && (m + 1) % n == 0
  {
    var q, r := m / n, m % n;
    assert m == n * q + r;
    if r + 1 < n {
      QuotientIs(m + 1, n, q, r + 1);
    } else {
      assert m + 1 == n * (q + 1);
      QuotientIs(m + 1, n, q + 1, 0);
    }
  }

  lemma {:induction false} ShareLength(tasks: seq<Task>, n: nat, i: nat)
    requires i < n
    ensures |Share(tasks, n, i)| == |tasks| / n + if i < |tasks| % n then 1 else 0
  {
    if tasks == [] {
      QuotientIs(0, n, 0, 0);
    } else {
      ShareLength(tasks[..|tasks| - 1], n, i);
      OneMore(|tasks| - 1, n);
    }
  }

  lemma QuotientIs(a: nat, b: nat, q: nat, r: nat)
    requires r < b && a == b * q + r
    ensures a / b == q && a % b == r
  {
    RemainderIs(a, b, q, r);
    assert b * (a / b) == b * q;
    var d := a / b - q;
    assert b * d == 0;
    NoSmallMultiple(b, d);
  }

  /** The dispatch counts of any two workers of the pool differ by at most one. */
  lemma DispatchIsBalanced(e: Engine, v: nat, w: nat)
    requires Reachable(e) && v < |e.workers| && w < |e.workers|
    ensures -1 <= |e.workers[v].dispatched| - |e.workers[w].dispatched| <= 1
  {
    Conservation(e, v);
    Conservation(e, w);
    ReachableInv(e);
    ShareLength(e.accepted, e.capacity, v);
    ShareLength(e.accepted, e.capacity, w);
  }

  /** An executor without capacity, as on a machine that reports no cores, refuses every task. */
  lemma NoCapacityAcceptsNothing(e: Engine)
    requires Reachable(e) && e.capacity == 0
    ensures e.accepted == [] && e.workers == []
  {
    ReachableInv(e);
  }

  /** An empty task changes neither pool, index nor histories: it only passes through the executor mutex. */
  lemma EmptyTaskIsIgnored(e: Engine, k: nat)
    requires Reachable(e) && e.exec.Idle? && k < |e.blocked| && e.blocked[k].task.None?
    ensures Run(e, [Enter(k), Advance]) == Some(e.(blocked := e.blocked[..k] + e.blocked[k + 1..]))
  {
    assert [Enter(k), Advance][..1] == [Enter(k)] && [Enter(k)][..0] == [];
    assert Run(e, [Enter(k)]) == Step(e, Enter(k));
  }

  // --- Shutdown ---

  /** At most one task starts after the stop was requested, and none in the build without stop tokens. */
  lemma FewStartAfterStop(e: Engine, w: nat)
    requires Reachable(e) && w < |e.workers|
    ensures e.workers[w].late <= if e.jthread then 1 else 0
  {
    ReachableInv(e);
  }

  ghost predicate Quiet(e: Engine, w: nat, executed: seq<Task>) {
    && Inv(e) && w < |e.workers|
    && e.workers[w].stopper.Joined? && e.workers[w].phase.Exited? && e.workers[w].executed == executed
  }

  /** A step of the engine does one of five things to a worker. */
  predicate WorkerChange(k: Worker, after: Worker, e: Engine, a: Action, w: nat) {
    || after == k
    || (a.WorkerAct? && a.w == w && WorkerStep(k, a.cause, InCall(e, w)) == Some(after))
    || (a.Advance? && e.exec.Busy? && e.index == w && e.exec.call.task.Some? && !e.exec.at.Entered?
        && SubmitStep(k, e.exec.at, e.exec.call.task.value) == Some(after))
    || (a.StopAct? && a.w == w && StopStep(k, e.jthread) == Some(after))
    || (a.StopRequest? && a.w == w && k.stopper.NotStopped? && after == k.(stopper := Won))
  }

  lemma StepOnWorker(e: Engine, a: Action, w: nat)
    requires Step(e, a).Some? && w < |e.workers|
    ensures w < |Step(e, a).value.workers| && WorkerChange(e.workers[w], Step(e, a).value.workers[w], e, a, w)
  {
  }

  lemma QuietStep(e: Engine, a: Action, w: nat, executed: seq<Task>)
    requires Quiet(e, w, executed) && Step(e, a).Some?
    ensures Quiet(Step(e, a).value, w, executed)
  {
    StepKeepsInv(e, a);
    StepOnWorker(e, a, w);
  }

  lemma {:induction false} QuietRun(e: Engine, actions: seq<Action>, w: nat, executed: seq<Task>)
    requires Quiet(e, w, executed) && Run(e, actions).Some?
    ensures Quiet(Run(e, actions).value, w, executed)
  {
    if actions != [] {
      QuietRun(e, actions[..|actions| - 1], w, executed);
      QuietStep(Run(e, actions[..|actions| - 1]).value, actions[|actions| - 1], w, executed);
    }
  }

  lemma QuietFacts(e: Engine, w: nat, executed: seq<Task>)
    requires Quiet(e, w, executed)
    ensures e.workers[w].executed + e.workers[w].queue == e.workers[w].dispatched
    ensures Step(e, StopRequest(w)) == Some(e)
  {
    assert WorkerInv(e.workers[w], SubOn(e, w), e.jthread);
  }

  /**
   Once the winning `stopAndJoin` has returned, its worker never runs anything again, whatever else happens;
   executed plus abandoned tasks are all that was dispatched; and a further call of it changes nothing.
   */
  lemma Shutdown(e: Engine, actions: seq<Action>, w: nat)
    requires Reachable(e) && w < |e.workers| && e.workers[w].stopper.Joined? && Run(e, actions).Some?
    ensures var after := Run(e, actions).value;
            && w < |after.workers| && after.workers[w].phase.Exited?
            && after.workers[w].executed == e.workers[w].executed
            && after.workers[w].executed + after.workers[w].queue == after.workers[w].dispatched
            && Step(after, StopRequest(w)) == Some(after)
  {
    ReachableInv(e);
    assert WorkerInv(e.workers[w], SubOn(e, w), e.jthread);
    QuietRun(e, actions, w, e.workers[w].executed);
    QuietFacts(Run(e, actions).value, w, e.workers[w].executed);
  }
}
