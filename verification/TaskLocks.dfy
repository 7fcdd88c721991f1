/**
 Mutexes of the task engine: the order in which threads take them, the deadlocks that tasks calling
 their own executor can cause, and exactly when a call of the executor can still return.
 */
module TaskLocks {
  import opened Prelude
  import opened TaskEngine
  import opened TaskSafety

  /** The kinds of mutexes in the order in which a thread takes them: executor, daemon, queue. */
  datatype Lock = ExecutorMutex | DaemonMutex(w: nat) | QueueMutex(w: nat) {
    function Level(): nat {
      match this
      case ExecutorMutex => 0
      case DaemonMutex(_) => 1
      case QueueMutex(_) => 2
    }
  }

  /** A call made by a task is made by the thread of its worker. */
  datatype Thread = OutsideCaller | BlockedCaller | WorkerThread(w: nat) | Stopper(w: nat)

  function ThreadOf(call: Call, outside: Thread): Thread {
    if call.from.Some? then WorkerThread(call.from.value) else outside
  }

  /** `t` is inside the executor. */
  predicate Inside(e: Engine, t: Thread) {
    e.exec.Busy? && t == ThreadOf(e.exec.call, OutsideCaller)
  }

  predicate IsOwner(e: Engine, t: Thread, w: nat, owner: Owner) {
    match owner
    case Free => false
    case ByWorker => t == WorkerThread(w)
    case BySubmitter => Inside(e, t)
    case ByStopper => t == Stopper(w)
  }

  predicate Holds(e: Engine, t: Thread, l: Lock) {
    match l
    case ExecutorMutex => Inside(e, t)
    case DaemonMutex(w) => w < |e.workers| && IsOwner(e, t, w, e.workers[w].dmx)
    case QueueMutex(w) => w < |e.workers| && IsOwner(e, t, w, e.workers[w].qmx)
  }

  predicate WorkerWants(e: Engine, w: nat, l: Lock) {
    && w < |e.workers|
    && var p := e.workers[w].phase;
       (l == DaemonMutex(w) && (p.Locking? || p.Woken?)) || (l == QueueMutex(w) && (p.Check? || p.Fetch?))
  }

  /** The acquisition of `l` is the next step of `t`. */
  predicate Wants(e: Engine, t: Thread, l: Lock) {
    || (l.ExecutorMutex? && exists k | 0 <= k < |e.blocked| :: t == ThreadOf(e.blocked[k], BlockedCaller))
    || (Inside(e, t) && e.exec.at.WantDaemon? && l == DaemonMutex(e.index))
    || (Inside(e, t) && e.exec.at.HasDaemon? && l == QueueMutex(e.index))
    || (t.WorkerThread? && WorkerWants(e, t.w, l))
    || (t.Stopper? && t.w < |e.workers| && e.workers[t.w].stopper.Won? && !e.jthread && l == DaemonMutex(t.w))
  }

  // --- Calls made by tasks ---

  predicate RunsTask(e: Engine, from: Option<nat>) {
    from.Some? ==> from.value < |e.workers| && e.workers[from.value].phase.Running?
  }

  /** A task that is inside a call is running, and is inside no other one. */
  predicate CallsInv(e: Engine) {
    && (e.exec.Busy? ==> RunsTask(e, e.exec.call.from))
    && (forall k | 0 <= k < |e.blocked| :: RunsTask(e, e.blocked[k].from))
    && (e.exec.Busy? && e.exec.call.from.Some? ==>
          forall k | 0 <= k < |e.blocked| :: e.blocked[k].from != e.exec.call.from)
    && (forall j, k | 0 <= j < k < |e.blocked| :: e.blocked[j].from.Some? ==> e.blocked[j].from != e.blocked[k].from)
  }

  /** What the proofs below need of a state. */
  predicate FullInv(e: Engine) {
    Inv(e) && CallsInv(e)
  }

  lemma SubmitKeepsCalls(e: Engine, call: Call)
    requires CallsInv(e) && Step(e, Submit(call)).Some?
    ensures CallsInv(Step(e, Submit(call)).value)
  {
  }

  lemma EnterKeepsCalls(e: Engine, k: nat)
    requires CallsInv(e) && Step(e, Enter(k)).Some?
    ensures CallsInv(Step(e, Enter(k)).value)
  {
    var b, c := e.blocked, Step(e, Enter(k)).value.blocked;
    assert forall j | 0 <= j < |c| :: c[j] == b[if j < k then j else j + 1];
  }

  lemma OthersKeepCalls(e: Engine, a: Action)
    requires CallsInv(e) && !a.Submit? && !a.Enter? && Step(e, a).Some?
    ensures CallsInv(Step(e, a).value)
  {
    var after := Step(e, a).value;
    forall w | 0 <= w < |e.workers| && e.workers[w].phase.Running? && InCall(e, w)
      ensures w < |after.workers| && after.workers[w].phase.Running?
    {
      StepOnWorker(e, a, w);
    }
    forall k | 0 <= k < |e.blocked|
      ensures RunsTask(after, e.blocked[k].from)
    {
      assert RunsTask(e, e.blocked[k].from);
    }
  }

  lemma StepKeepsFull(e: Engine, a: Action)
    requires FullInv(e) && Step(e, a).Some?
    ensures FullInv(Step(e, a).value)
  {
    StepKeepsInv(e, a);
    if a.Submit? {
      SubmitKeepsCalls(e, a.call);
    } else if a.Enter? {
      EnterKeepsCalls(e, a.k);
    } else {
      OthersKeepCalls(e, a);
    }
  }

  lemma {:induction false} RunKeepsFull(e: Engine, actions: seq<Action>)
    requires FullInv(e) && Run(e, actions).Some?
    ensures FullInv(Run(e, actions).value)
  {
    if actions != [] {
      RunKeepsFull(e, actions[..|actions| - 1]);
      StepKeepsFull(Run(e, actions[..|actions| - 1]).value, actions[|actions| - 1]);
    }
  }

  lemma ReachableFull(e: Engine)
    requires Reachable(e)
    ensures FullInv(e)
  {
    var capacity, jthread, actions :| Run(Init(capacity, jthread), actions) == Some(e);
    RunKeepsFull(Init(capacity, jthread), actions);
  }

  // --- Lock order ---

  /** No task is inside a call of its executor. */
  predicate Outside(e: Engine) {
    && (e.exec.Busy? ==> e.exec.call.from.None?)
    && forall k | 0 <= k < |e.blocked| :: e.blocked[k].from.None?
  }

  /** While no task is inside a call, each thread only wants a mutex above all those it holds. */
  lemma LockOrder(e: Engine, t: Thread, held: Lock, wanted: Lock)
    requires Reachable(e) && Outside(e) && Holds(e, t, held) && Wants(e, t, wanted)
    ensures held.Level() < wanted.Level()
  {
    ReachableInv(e);
    if held.DaemonMutex? || held.QueueMutex? {
      assert WorkerInv(e.workers[held.w], SubOn(e, held.w), e.jthread);
    }
  }

  /** Whoever holds a daemon mutex can make a step, but for a worker whose task is inside a call. */
  lemma OwnerMovesIff(e: Engine, w: nat, cause: Cause)
    requires Reachable(e) && w < |e.workers|
    ensures e.workers[w].dmx == ByWorker ==> (Step(e, WorkerAct(w, cause)).Some? <==> !InCall(e, w))
    ensures e.workers[w].dmx == BySubmitter ==> AdvanceStep(e).Some?
    ensures e.workers[w].dmx == ByStopper ==> Step(e, StopAct(w)).Some?
  {
    ReachableFull(e);
    assert WorkerInv(e.workers[w], SubOn(e, w), e.jthread);
    if InCall(e, w) {
      InCallRuns(e, w);
    }
  }

  lemma InCallRuns(e: Engine, w: nat)
    requires CallsInv(e) && InCall(e, w)
    ensures w < |e.workers| && e.workers[w].phase.Running?
  {
    if !(e.exec.Busy? && e.exec.call.from == Some(w)) {
      var k :| 0 <= k < |e.blocked| && e.blocked[k].from == Some(w);
      assert RunsTask(e, e.blocked[k].from);
    }
  }

  // --- Deadlocks ---

  /** The caller inside the executor wants the daemon mutex of a worker whose task is itself inside a call. */
  predicate Stuck(e: Engine) {
    e.exec.Busy? && e.exec.at.WantDaemon? && InCall(e, e.index)
  }

  ghost predicate WaitsWithin(e: Engine, t: Thread, threads: set<Thread>) {
    exists l, holder :: holder in threads && Wants(e, t, l) && Holds(e, holder, l)
  }

  /** Each of these threads waits for a mutex that one of them holds. */
  ghost predicate Deadlocked(e: Engine, threads: set<Thread>) {
    threads != {} && forall t | t in threads :: WaitsWithin(e, t, threads)
  }

  /** Nobody holds a queue mutex that somebody waits for. */
  lemma QueueIsNeverWaitedFor(e: Engine, t: Thread, holder: Thread, w: nat)
    requires FullInv(e)
    ensures !(Wants(e, t, QueueMutex(w)) && Holds(e, holder, QueueMutex(w)))
  {
    if w < |e.workers| {
      assert WorkerInv(e.workers[w], SubOn(e, w), e.jthread);
    }
  }

  lemma InsideWantsDaemon(e: Engine, t: Thread, l: Lock)
    requires FullInv(e) && Inside(e, t) && Wants(e, t, l) && !l.QueueMutex?
    ensures e.exec.at.WantDaemon? && l == DaemonMutex(e.index)
  {
    if t.WorkerThread? {
      assert RunsTask(e, e.exec.call.from);
    }
  }

  /** A thread outside the executor that waits while holding a daemon mutex is a worker whose task is in a call. */
  lemma WaitingHolder(e: Engine, holder: Thread, w: nat, m: Lock)
    requires FullInv(e) && Holds(e, holder, DaemonMutex(w)) && Wants(e, holder, m)
    requires !m.QueueMutex? && !Inside(e, holder)
    ensures m.ExecutorMutex? && InCall(e, w)
  {
    assert WorkerInv(e.workers[w], SubOn(e, w), e.jthread);
    if m.ExecutorMutex? {
      var k :| 0 <= k < |e.blocked| && holder == ThreadOf(e.blocked[k], BlockedCaller);
    }
  }

  lemma InsideHolder(e: Engine, holder: Thread)
    requires FullInv(e) && Holds(e, holder, DaemonMutex(e.index)) && Inside(e, holder) && e.exec.at.WantDaemon?
    ensures InCall(e, e.index)
  {
    assert WorkerInv(e.workers[e.index], SubOn(e, e.index), e.jthread);
  }

  lemma NextWait(e: Engine, threads: set<Thread>, t: Thread) returns (l: Lock, holder: Thread)
    requires FullInv(e) && Deadlocked(e, threads) && t in threads
    ensures holder in threads && Wants(e, t, l) && Holds(e, holder, l) && !l.QueueMutex?
  {
    assert WaitsWithin(e, t, threads);
    l, holder :| holder in threads && Wants(e, t, l) && Holds(e, holder, l);
    if l.QueueMutex? {
      QueueIsNeverWaitedFor(e, t, holder, l.w);
    }
  }

  /** In a deadlock somebody is inside the executor. */
  lemma DeadlockIsInside(e: Engine, threads: set<Thread>, t: Thread) returns (inside: Thread)
    requires FullInv(e) && Deadlocked(e, threads) && t in threads
    ensures inside in threads && Inside(e, inside)
  {
    var l;
    l, inside := NextWait(e, threads, t);
    if !Inside(e, inside) {
      var m, next := NextWait(e, threads, inside);
      WaitingHolder(e, inside, l.w, m);
      inside := next;
    }
  }

  lemma DeadlockIsStuck(e: Engine, threads: set<Thread>)
    requires FullInv(e) && Deadlocked(e, threads)
    ensures Stuck(e)
  {
    var t :| t in threads;
    var inside := DeadlockIsInside(e, threads, t);
    var l, holder := NextWait(e, threads, inside);
    InsideWantsDaemon(e, inside, l);
    if Inside(e, holder) {
      InsideHolder(e, holder);
    } else {
      var m, next := NextWait(e, threads, holder);
      WaitingHolder(e, holder, e.index, m);
    }
  }

  lemma StuckIsDeadlock(e: Engine)
    requires FullInv(e) && Stuck(e)
    ensures Deadlocked(e, {ThreadOf(e.exec.call, OutsideCaller), WorkerThread(e.index)})
  {
    var caller, worker := ThreadOf(e.exec.call, OutsideCaller), WorkerThread(e.index);
    InCallRuns(e, e.index);
    assert WorkerInv(e.workers[e.index], SubOn(e, e.index), e.jthread);
    assert Wants(e, caller, DaemonMutex(e.index)) && Holds(e, worker, DaemonMutex(e.index));
    assert WaitsWithin(e, caller, {caller, worker});
    if caller != worker {
      var k :| 0 <= k < |e.blocked| && e.blocked[k].from == Some(e.index);
      assert worker == ThreadOf(e.blocked[k], BlockedCaller);
      assert Wants(e, worker, ExecutorMutex) && Holds(e, caller, ExecutorMutex);
    }
  }

  /**
   Threads wait for each other in a circle exactly when the worker whose turn it is runs a task that is
   inside a call, be it the call at hand or a blocked one.
   */
  lemma DeadlockIffStuck(e: Engine)
    requires Reachable(e)
    ensures (exists threads :: Deadlocked(e, threads)) <==> Stuck(e)
  {
    ReachableFull(e);
    if threads :| Deadlocked(e, threads) {
      DeadlockIsStuck(e, threads);
    }
    if Stuck(e) {
      StuckIsDeadlock(e);
    }
  }

  /** Without tasks that call there is no deadlock. */
  lemma OutsideIsNotStuck(e: Engine)
    requires Outside(e)
    ensures !Stuck(e)
  {
  }

  lemma StuckStays(e: Engine, a: Action)
    requires FullInv(e) && Stuck(e) && Step(e, a).Some?
    ensures var after := Step(e, a).value;
            Stuck(after) && after.exec == e.exec && after.index == e.index && after.accepted == e.accepted
    ensures var after := Step(e, a).value;
            e.index < |e.workers| && e.index < |after.workers| && after.workers[e.index].phase.Running?
            && after.workers[e.index].executed == e.workers[e.index].executed
  {
    InCallRuns(e, e.index);
    assert WorkerInv(e.workers[e.index], SubOn(e, e.index), e.jthread);
    StepOnWorker(e, a, e.index);
    var after := Step(e, a).value;
    if e.exec.call.from != Some(e.index) {
      var k :| 0 <= k < |e.blocked| && e.blocked[k].from == Some(e.index);
      assert after.blocked[k] == e.blocked[k];
    }
  }

  /** From then on the call never returns, no task at all is accepted, and the worker never gets on. */
  lemma {:induction false} StuckForever(e: Engine, actions: seq<Action>)
    requires Reachable(e) && Stuck(e) && Run(e, actions).Some?
    ensures var after := Run(e, actions).value;
            && FullInv(after) && Stuck(after) && after.exec == e.exec && after.index == e.index
            && after.accepted == e.accepted
            && e.index < |e.workers| && e.index < |after.workers|
            && after.workers[e.index].executed == e.workers[e.index].executed
  {
    ReachableFull(e);
    if actions == [] {
      InCallRuns(e, e.index);
    } else {
      var init, last := actions[..|actions| - 1], actions[|actions| - 1];
      StuckForever(e, init);
      StuckStays(Run(e, init).value, last);
      StepKeepsFull(Run(e, init).value, last);
    }
  }

  // --- When a call can still return ---

  /** Stuck, or bound to be: nothing that worker does can come between. */
  predicate Doomed(e: Engine) {
    && e.exec.Busy? && InCall(e, e.index)
    && (e.exec.at.WantDaemon? || (e.exec.at.Entered? && e.exec.call.task.Some?))
  }

  ghost predicate CanReturn(e: Engine) {
    exists actions :: Run(e, actions).Some? && Run(e, actions).value.exec.Idle?
  }

  /** Steps of a call until it is over. */
  function CallRank(exec: Exec): nat {
    if exec.Idle? then 0
    else
      match exec.at
      case Entered => 6
      case WantDaemon => 5
      case HasDaemon => 4
      case HasQueue => 3
      case Pushed => 2
      case Released => 1
  }

  /** Steps of whoever holds the daemon mutex, worker or stopper, until it is free. */
  function HoldRank(k: Worker): nat {
    if k.dmx.ByStopper? then (if k.stopper.StopLocked? then 2 else 1)
    else if !k.dmx.ByWorker? then 0
    else
      match k.phase
      case Check(_) => 9
      case Peek(_) => 8
      case Probe(_) => 7
      case Poll => 6
      case Fetch => 5
      case Pop => 4
      case Running(_) => 3
      case Handling => 2
      case _ => 1
  }

  const TIMEOUT := Cause(true, false)

  /** What the holder of the daemon mutex of `w` does next. */
  function HolderAct(e: Engine, w: nat): Action
    requires w < |e.workers|
  {
    if e.workers[w].dmx.ByStopper? then StopAct(w) else WorkerAct(w, TIMEOUT)
  }

  lemma HolderLetsGo(e: Engine, w: nat, cause: Cause)
    requires FullInv(e) && w < |e.workers| && (e.workers[w].dmx.ByWorker? || e.workers[w].dmx.ByStopper?)
    requires e.workers[w].dmx.ByWorker? ==> !InCall(e, w)
    ensures var a := if e.workers[w].dmx.ByStopper? then StopAct(w) else WorkerAct(w, cause);
            Step(e, a).Some? && Step(e, a).value == e.(workers := Step(e, a).value.workers)
            && |Step(e, a).value.workers| == |e.workers|
            && HoldRank(Step(e, a).value.workers[w]) < HoldRank(e.workers[w])
  {
    assert WorkerInv(e.workers[w], SubOn(e, w), e.jthread);
  }

  lemma NotStuckMoves(e: Engine)
    requires FullInv(e) && e.exec.Busy? && AdvanceStep(e).None? && !Stuck(e)
    ensures e.exec.at.WantDaemon? && e.index < |e.workers|
    ensures e.workers[e.index].dmx.ByWorker? || e.workers[e.index].dmx.ByStopper?
  {
    if !e.exec.at.Entered? {
      IndexIsThere(e);
      assert WorkerInv(e.workers[e.index], SubOn(e, e.index), e.jthread);
    }
  }

  lemma IndexIsThere(e: Engine)
    requires Inv(e) && e.exec.Busy? && !e.exec.at.Entered?
    ensures e.index < |e.workers| && e.exec.call.task.Some?
  {
    if |e.accepted| > 0 {
      IndexInRange(|e.accepted| - 1, e.capacity);
    }
    IndexInRange(|e.accepted|, e.capacity);
  }

  /** A step of the call gets it closer to its end. */
  lemma AdvanceLowersRank(e: Engine)
    requires AdvanceStep(e).Some?
    ensures var exec := AdvanceStep(e).value.exec;
            CallRank(exec) < CallRank(e.exec) && (exec.Busy? ==> exec.call == e.exec.call)
  {
  }

  lemma AdvanceIsNotDoomed(e: Engine)
    requires FullInv(e) && AdvanceStep(e).Some? && !Doomed(e)
    ensures !Doomed(AdvanceStep(e).value)
  {
    if Doomed(AdvanceStep(e).value) {
      assert InCall(e, e.index);
    }
  }

  lemma {:induction false} RunFirst(e: Engine, a: Action, rest: seq<Action>)
    requires Step(e, a).Some?
    ensures Run(e, [a] + rest) == Run(Step(e, a).value, rest)
  {
    if rest == [] {
      assert ([a] + rest)[..0] == [] && Run(e, []) == Some(e);
    } else {
      RunFirst(e, a, rest[..|rest| - 1]);
      assert ([a] + rest)[..|rest|] == [a] + rest[..|rest| - 1];
    }
  }

  lemma {:induction false} CallReturns(e: Engine) returns (actions: seq<Action>)
    requires FullInv(e) && !Doomed(e)
    ensures Run(e, actions).Some? && Run(e, actions).value.exec.Idle?
    decreases CallRank(e.exec), if e.exec.Busy? && e.index < |e.workers| then HoldRank(e.workers[e.index]) else 0
  {
    if e.exec.Idle? {
      return [];
    }
    var a := Advance;
    if AdvanceStep(e).Some? {
      AdvanceLowersRank(e);
      AdvanceIsNotDoomed(e);
    } else {
      NotStuckMoves(e);
      a := HolderAct(e, e.index);
      HolderLetsGo(e, e.index, TIMEOUT);
      assert InCall(Step(e, a).value, e.index) ==> InCall(e, e.index);
    }
    StepKeepsFull(e, a);
    var rest := CallReturns(Step(e, a).value);
    RunFirst(e, a, rest);
    actions := [a] + rest;
  }

  lemma DoomedStays(e: Engine, a: Action)
    requires FullInv(e) && Doomed(e) && Step(e, a).Some?
    ensures Doomed(Step(e, a).value)
  {
    InCallRuns(e, e.index);
    assert WorkerInv(e.workers[e.index], SubOn(e, e.index), e.jthread);
    var after := Step(e, a).value;
    if e.exec.call.from != Some(e.index) {
      var k :| 0 <= k < |e.blocked| && e.blocked[k].from == Some(e.index);
      assert after.blocked[k] == e.blocked[k];
    }
  }

  lemma {:induction false} DoomedForever(e: Engine, actions: seq<Action>)
    requires FullInv(e) && Doomed(e) && Run(e, actions).Some?
    ensures FullInv(Run(e, actions).value) && Doomed(Run(e, actions).value)
  {
    if actions != [] {
      var init, last := actions[..|actions| - 1], actions[|actions| - 1];
      DoomedForever(e, init);
      DoomedStays(Run(e, init).value, last);
      StepKeepsFull(Run(e, init).value, last);
    }
  }

  /**
   The call inside the executor can still return exactly when it has its worker already, is empty, or the
   worker whose turn it is runs no task that is inside a call.
   */
  lemma CallReturnsIff(e: Engine)
    requires Reachable(e)
    ensures CanReturn(e) <==> !Doomed(e)
  {
    ReachableFull(e);
    if Doomed(e) {
      forall actions | Run(e, actions).Some?
        ensures !Run(e, actions).value.exec.Idle?
      {
        DoomedForever(e, actions);
      }
    } else {
      var actions := CallReturns(e);
    }
  }

  /** One kind of it: a task hands a task to its own worker. */
  predicate SelfCall(e: Engine) {
    e.exec.Busy? && e.exec.at.WantDaemon? && e.exec.call.from == Some(e.index)
  }

  /** The other kind: somebody else's call reaches a worker whose task waits for the executor. */
  predicate CrossCall(e: Engine) {
    && e.exec.Busy? && e.exec.at.WantDaemon?
    && exists k | 0 <= k < |e.blocked| :: e.blocked[k].from == Some(e.index)
  }

  lemma StuckIsSelfOrCross(e: Engine)
    ensures Stuck(e) <==> SelfCall(e) || CrossCall(e)
  {
  }
}
