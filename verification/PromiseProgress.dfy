/**
 Progress of promises on the task engine: along every infinite fair run of the composition without stops,
 each promise whose task was handed over is finished, and it is settled exactly when nothing went wrong for
 its task. The engine's part of such a run is a fair run of the engine in which nothing gets stuck.
 */
module PromiseProgress {
  import opened Prelude
  import E = TaskEngine
  import S = TaskSafety
  import L = TaskLocks
  import T = TaskProgress
  import P = PromiseLedger
  import R = LaneRefinement

  type States = nat -> R.System
  type Actions = nat -> R.Action

  // --- The engine's part of a run ---

  /** This step of a running task is its last one. */
  predicate EndsTask(s: R.System, w: nat, granted: bool, threw: bool) {
    var v := P.Step(s.vm, P.LaneStep(w, granted, threw));
    v.Some? && w < |v.value.lanes| && v.value.lanes[w].current.None?
  }

  /** What the engine sees of a step: of a running task, its end. */
  function EngineAct(s: R.System, a: R.Action): E.Action {
    match a
    case Vm(_) => E.Stutter
    case Body(w, granted, threw) =>
      if EndsTask(s, w, granted, threw) then E.WorkerAct(w, R.BodyCause(s, w, threw)) else E.Stutter
    case Engine(b) => b
  }

  lemma EngineFollows(s: R.System, a: R.Action)
    requires R.Step(s, a).Some?
    ensures E.Step(s.engine, EngineAct(s, a)) == Some(R.Step(s, a).value.engine)
  {
  }

  function Engines(s: States): T.States {
    (j: nat) => s(j).engine
  }

  function EngineActs(s: States, a: Actions): T.Actions {
    (j: nat) => EngineAct(s(j), a(j))
  }

  // --- Fair runs ---

  ghost predicate StepsAt(s: States, a: Actions, i: nat) {
    R.Step(s(i), a(i)) == Some(s(i + 1))
  }

  ghost predicate IsRun(s: States, a: Actions) {
    R.Reachable(s(0)) && forall i :: StepsAt(s, a, i)
  }

  /** A step of the thread of worker `w`, be it in the loop or in the task that it runs. */
  predicate IsThreadAct(a: R.Action, w: nat) {
    (a.Body? && a.w == w) || (a.Engine? && a.act.WorkerAct? && a.act.w == w)
  }

  function ThreadActs(a: Actions, w: nat): nat -> bool {
    (j: nat) => IsThreadAct(a(j), w)
  }

  ghost predicate ThreadFair(s: States, a: Actions, w: nat) {
    T.Fair(T.WorkerAble(Engines(s), w), ThreadActs(a, w))
  }

  /** Threads of workers, stop calls and callers are scheduled, and the mutexes are fair to them. */
  ghost predicate FairRun(s: States, a: Actions) {
    && IsRun(s, a)
    && T.Fair(T.CallerAble(Engines(s)), T.CallerActs(EngineActs(s, a)))
    && (forall w :: ThreadFair(s, a, w))
    && (forall w :: T.StopFair(Engines(s), EngineActs(s, a), w))
    && (forall call :: T.MutexFair(Engines(s), EngineActs(s, a), call))
  }

  lemma {:induction false} RunReachable(s: States, a: Actions, i: nat)
    requires IsRun(s, a)
    ensures R.Inv(s(i)) && E.Reachable(s(i).engine)
  {
    if i == 0 {
      R.ReachableInv(s(0));
      R.PartsAreReachable(s(0));
    } else {
      RunReachable(s, a, i - 1);
      assert StepsAt(s, a, i - 1);
      R.StepKeepsInv(s(i - 1), a(i - 1));
      EngineFollows(s(i - 1), a(i - 1));
      R.EngineReach(s(i - 1).engine, EngineAct(s(i - 1), a(i - 1)));
    }
  }

  /** Tasks of promises do not call the executor, so nothing gets stuck. */
  lemma NothingIsStuck(s: R.System)
    requires R.Inv(s)
    ensures !L.Stuck(s.engine)
  {
    forall k | 0 <= k < |s.engine.blocked|
      ensures s.engine.blocked[k].from.None?
    {
      assert R.Waits(s, s.engine.blocked[k]);
    }
  }

  // --- A running task ends ---

  /** Steps of a body until its end, at most. */
  function BodyRank(pc: P.Pc): nat {
    match pc
    case Starting => 16
    case Trying(n) => if n < P.RETRIES then 15 - n else 5
    case Locked => 4
    case Calling => 3
    case Returned => 2
    case Resolved => 1
    case Cleared(_) => 0
  }

  lemma BodyLowersRank(v: P.Vm, i: nat, w: nat, granted: bool, threw: bool)
    requires P.Inv(v) && P.Runs(v, i, w)
    ensures var after := P.BodyStep(v, i, w, granted, threw);
            && |after.lanes| == |v.lanes| && |after.promises| == |v.promises|
            && (after.lanes[w].current.Some? ==>
                  && P.Runs(after, i, w)
                  && BodyRank(after.promises[i].stage.pc) < BodyRank(v.promises[i].stage.pc))
  {
    P.DepthOfBody(v, i, w);
    P.EffectIsSound(v, i, w, granted, threw);
    match P.BodyEffect(v, i, w, granted, threw) {
      case Moves(vm, p) =>
      case Ends(vm, outcome) =>
    }
  }

  predicate IsRunning(s: R.System, w: nat, i: nat) {
    P.Runs(s.vm, i, w)
  }

  /** Only the thread of its worker moves a running task. */
  lemma OthersKeepBody(s: R.System, a: R.Action, w: nat, i: nat)
    requires R.Inv(s) && IsRunning(s, w, i) && R.Step(s, a).Some? && !IsThreadAct(a, w)
    ensures IsRunning(R.Step(s, a).value, w, i) && R.Step(s, a).value.vm.promises[i] == s.vm.promises[i]
  {
    match a {
      case Vm(b) => R.VmStepFrame(s.vm, b);
      case Body(u, granted, threw) =>
        assert P.LaneInv(s.vm.promises, s.vm.lanes[u], u);
        R.BodyFrame(s.vm, s.vm.lanes[u].current.value, u, granted, threw);
      case Engine(b) => EngineKeepsBody(s, b, w, i);
    }
  }

  /** What a step of the engine means to the ledger. */
  lemma EngineMeans(s: R.System, b: E.Action)
    requires R.Step(s, R.Engine(b)).Some?
    ensures var lane := R.LaneAction(s.engine, b);
            && (lane.None? ==> R.Step(s, R.Engine(b)).value.vm == s.vm)
            && (lane.Some? ==>
                  IsLaneAct(lane.value) && P.Step(s.vm, lane.value) == Some(R.Step(s, R.Engine(b)).value.vm))
  {
  }

  predicate IsLaneAct(b: P.Action) {
    b.OpenLane? || b.Dispatch? || b.StartTask? || b.CloseLane?
  }

  /** Such a step queues or starts a promise, and leaves every running one alone. */
  lemma LaneActFrame(v: P.Vm, b: P.Action, i: nat)
    requires P.Inv(v) && IsLaneAct(b) && P.Step(v, b).Some? && i < |v.promises|
    ensures var after := P.Step(v, b).value;
            && i < |after.promises|
            && (|| after.promises[i] == v.promises[i]
                || (v.promises[i].stage.Submitting? && after.promises[i].stage.Queued?)
                || (v.promises[i].stage.Queued?
                    && after.promises[i].stage.Run? && after.promises[i].stage.pc.Starting?))
  {
    if b.StartTask? {
      assert P.LaneInv(v.promises, v.lanes[b.w], b.w) && v.lanes[b.w].queue[0] in v.lanes[b.w].queue;
    }
  }

  lemma LaneActKeepsRunning(v: P.Vm, b: P.Action, w: nat, i: nat)
    requires P.Inv(v) && IsLaneAct(b) && P.Step(v, b).Some? && P.Runs(v, i, w)
    ensures P.Runs(P.Step(v, b).value, i, w)
  {
    LaneActFrame(v, b, i);
  }

  lemma EngineKeepsBody(s: R.System, b: E.Action, w: nat, i: nat)
    requires R.Inv(s) && IsRunning(s, w, i) && R.Step(s, R.Engine(b)).Some?
    ensures IsRunning(R.Step(s, R.Engine(b)).value, w, i)
    ensures R.Step(s, R.Engine(b)).value.vm.promises[i] == s.vm.promises[i]
  {
    EngineMeans(s, b);
    var lane := R.LaneAction(s.engine, b);
    if lane.Some? {
      LaneActFrame(s.vm, lane.value, i);
      LaneActKeepsRunning(s.vm, lane.value, w, i);
    }
  }

  /** The next step of a running task: it ends, or has fewer steps left. */
  lemma BodyMoves(s: R.System, w: nat, granted: bool, threw: bool, i: nat)
    requires R.Inv(s) && IsRunning(s, w, i) && R.Step(s, R.Body(w, granted, threw)).Some?
    requires !EndsTask(s, w, granted, threw)
    ensures var v := R.Step(s, R.Body(w, granted, threw)).value.vm;
            P.Runs(v, i, w) && BodyRank(v.promises[i].stage.pc) < BodyRank(s.vm.promises[i].stage.pc)
  {
    BodyLowersRank(s.vm, i, w, granted, threw);
  }

  lemma ThreadMovesBody(s: R.System, a: R.Action, w: nat, i: nat)
    requires R.Inv(s) && IsRunning(s, w, i) && R.Step(s, a).Some? && IsThreadAct(a, w)
    ensures || (EngineAct(s, a).WorkerAct? && EngineAct(s, a).w == w)
            || (IsRunning(R.Step(s, a).value, w, i)
                && BodyRank(R.Step(s, a).value.vm.promises[i].stage.pc) < BodyRank(s.vm.promises[i].stage.pc))
  {
    if a.Body? && !EndsTask(s, w, a.granted, a.threw) {
      BodyMoves(s, w, a.granted, a.threw, i);
    }
  }

  lemma BodyStaysOnce(s: States, a: Actions, w: nat, i: nat, m: nat)
    requires IsRun(s, a) && IsRunning(s(m), w, i) && !IsThreadAct(a(m), w)
    ensures IsRunning(s(m + 1), w, i) && s(m + 1).vm.promises[i] == s(m).vm.promises[i]
  {
    RunReachable(s, a, m);
    assert StepsAt(s, a, m);
    OthersKeepBody(s(m), a(m), w, i);
  }

  lemma {:induction false} BodyStays(s: States, a: Actions, w: nat, i: nat, m: nat, n: nat)
    requires IsRun(s, a) && m <= n && IsRunning(s(m), w, i) && forall k | m <= k < n :: !ThreadActs(a, w)(k)
    ensures IsRunning(s(n), w, i) && s(n).vm.promises[i] == s(m).vm.promises[i]
    decreases n - m
  {
    if m < n {
      assert !ThreadActs(a, w)(m);
      BodyStaysOnce(s, a, w, i, m);
      BodyStays(s, a, w, i, m + 1, n);
    }
  }

  /** The next step of the thread of `w`. */
  lemma NextThreadAct(s: States, a: Actions, w: nat, i: nat, m: nat) returns (n: nat)
    requires IsRun(s, a) && IsRunning(s(m), w, i) && T.Again(ThreadActs(a, w), m)
    ensures n >= m && R.Inv(s(n)) && StepsAt(s, a, n) && IsThreadAct(a(n), w)
    ensures IsRunning(s(n), w, i) && s(n).vm.promises[i] == s(m).vm.promises[i]
  {
    var last :| last >= m && ThreadActs(a, w)(last);
    n := T.First(ThreadActs(a, w), m, last);
    BodyStays(s, a, w, i, m, n);
    RunReachable(s, a, n);
    assert StepsAt(s, a, n);
  }

  /** A thread that keeps moving comes to the end of the task that it runs. */
  lemma {:induction false} TaskEndsEventually(s: States, a: Actions, w: nat, i: nat, m: nat)
    requires IsRun(s, a) && IsRunning(s(m), w, i) && forall n :: T.Again(ThreadActs(a, w), n)
    ensures T.Again(T.WorkerActs(EngineActs(s, a), w), m)
    decreases BodyRank(s(m).vm.promises[i].stage.pc)
  {
    assert T.Again(ThreadActs(a, w), m);
    var n := NextThreadAct(s, a, w, i, m);
    ThreadMovesBody(s(n), a(n), w, i);
    if T.ActsAt(EngineActs(s, a), w, n) {
      assert T.WorkerActs(EngineActs(s, a), w)(n);
    } else {
      TaskEndsEventually(s, a, w, i, n + 1);
      var j :| j >= n + 1 && T.WorkerActs(EngineActs(s, a), w)(j);
      assert j >= m;
    }
  }

  /** A thread that keeps moving keeps moving in the engine. */
  lemma EngineActsAgain(s: States, a: Actions, w: nat, m: nat)
    requires IsRun(s, a) && forall n :: T.Again(ThreadActs(a, w), n)
    ensures T.Again(T.WorkerActs(EngineActs(s, a), w), m)
  {
    assert T.Again(ThreadActs(a, w), m);
    var n :| n >= m && ThreadActs(a, w)(n);
    if a(n).Body? {
      RunReachable(s, a, n);
      assert StepsAt(s, a, n);
      var i := s(n).vm.lanes[w].current.value;
      R.RunningIsCurrent(s(n), w);
      TaskEndsEventually(s, a, w, i, n);
      var j :| j >= n && T.WorkerActs(EngineActs(s, a), w)(j);
      assert j >= m;
    } else {
      assert T.WorkerActs(EngineActs(s, a), w)(n);
    }
  }

  /** The engine's part of a fair run is a fair run of the engine, and nothing gets stuck in it. */
  lemma EngineRunsFairly(s: States, a: Actions)
    requires FairRun(s, a)
    ensures T.FairRun(Engines(s), EngineActs(s, a)) && T.NeverStuck(Engines(s))
  {
    RunReachable(s, a, 0);
    forall i: nat
      ensures T.StepsAt(Engines(s), EngineActs(s, a), i) && T.NotStuckAt(Engines(s), i)
    {
      assert StepsAt(s, a, i);
      EngineFollows(s(i), a(i));
      RunReachable(s, a, i);
      NothingIsStuck(s(i));
    }
    forall w: nat
      ensures T.WorkerFair(Engines(s), EngineActs(s, a), w)
    {
      assert ThreadFair(s, a, w);
      if forall i :: T.Again(T.WorkerAble(Engines(s), w), i) {
        forall i: nat
          ensures T.Again(T.WorkerActs(EngineActs(s, a), w), i)
        {
          EngineActsAgain(s, a, w, i);
        }
      }
    }
  }

  // --- Every promise is finished ---

  predicate FinishedAt(s: States, i: nat, j: nat) {
    i < |s(j).vm.promises| && s(j).vm.promises[i].stage.Finished?
  }

  lemma ExecutedIsFinished(s: R.System, w: nat, i: nat)
    requires R.Inv(s) && w < |s.engine.workers| && i in s.engine.workers[w].executed
    ensures i < |s.vm.promises| && s.vm.promises[i].stage.Finished?
  {
    assert R.SameLane(s.engine.workers[w], s.vm.lanes[w]);
    assert P.LaneInv(s.vm.promises, s.vm.lanes[w], w);
  }

  lemma DispatchedIsFinished(s: States, a: Actions, w: nat, target: nat, j: nat)
    requires FairRun(s, a) && (forall u :: T.NeverStopped(Engines(s), u)) && T.Dispatched(s(j).engine, w, target)
    ensures exists k :: k >= j && FinishedAt(s, s(j).engine.workers[w].dispatched[target], k)
  {
    EngineRunsFairly(s, a);
    assert T.NeverStopped(Engines(s), w);
    T.EveryTaskIsExecuted(Engines(s), EngineActs(s, a), w, target, j);
    var task := s(j).engine.workers[w].dispatched[target];
    var k :| k >= j && T.ExecutedAt(Engines(s), w, target, task, k);
    RunReachable(s, a, k);
    ExecutedIsFinished(s(k), w, task);
    assert FinishedAt(s, task, k);
  }

  /** A task on its way to the executor is dispatched. */
  lemma OnItsWayIsDispatched(s: States, a: Actions, i: nat, j: nat) returns (w: nat, target: nat, k: nat)
    requires FairRun(s, a) && s(j).engine.capacity > 0 && R.OnItsWay(s(j).engine, i)
    ensures k > j && T.Dispatched(s(k).engine, w, target) && s(k).engine.workers[w].dispatched[target] == i
  {
    EngineRunsFairly(s, a);
    var e := s(j).engine;
    if R.BeforePush(e) && e.exec.call.task == Some(i) {
      w, target, k := T.ExecIsAccepted(Engines(s), EngineActs(s, a), j);
    } else {
      var n :| 0 <= n < |e.blocked| && e.blocked[n].task == Some(i);
      w, target, k := T.CallIsAccepted(Engines(s), EngineActs(s, a), e.blocked[n], j);
    }
  }

  lemma HeldIsDispatched(s: R.System, w: nat, i: nat) returns (target: nat)
    requires R.Inv(s) && (R.QueuedOn(s.engine, w, i) || R.RunningOn(s.engine, w, i))
    ensures T.Dispatched(s.engine, w, target) && s.engine.workers[w].dispatched[target] == i
  {
    var k := s.engine.workers[w];
    assert S.WorkerInv(k, S.SubOn(s.engine, w), s.engine.jthread);
    if k.phase == E.Running(i) {
      target := |k.executed|;
    } else {
      var n :| 0 <= n < |k.queue| && k.queue[n] == i;
      target := |k.executed| + |S.InFlight(k.phase)| + n;
    }
  }

  /**
   Along every fair run without stops, the task of every promise that was handed over comes to its end,
   whatever attempts to lock fail and whether its callback throws.
   */
  lemma EveryPromiseIsFinished(s: States, a: Actions, i: nat, j: nat)
    requires FairRun(s, a) && (forall u :: T.NeverStopped(Engines(s), u))
    requires s(j).engine.capacity > 0 && i in s(j).sent
    ensures exists k :: k >= j && FinishedAt(s, i, k)
  {
    RunReachable(s, a, j);
    R.EveryTaskIsLocated(s(j), i);
    var stage := s(j).vm.promises[i].stage;
    if stage.Finished? {
      assert FinishedAt(s, i, j);
    } else {
      var w, target, m := 0, 0, j;
      if stage.Submitting? {
        w, target, m := OnItsWayIsDispatched(s, a, i, j);
      } else {
        w := stage.w;
        target := HeldIsDispatched(s(j), w, i);
      }
      DispatchedIsFinished(s, a, w, target, m);
      var k :| k >= m && FinishedAt(s, i, k);
      assert k >= j;
    }
  }

  // --- Exactly the promises that are settled ---

  /** Nothing goes wrong for promise `i` in this step: its task finds the VM, gets the lock and returns. */
  predicate GoesWell(v: P.Vm, a: R.Action, i: nat) {
    a.Body? && P.Runs(v, i, a.w) ==>
      match v.promises[i].stage.pc
      case Starting => P.Referenced(v)
      case Trying(n) => (a.granted && P.CanLock(v, P.LaneThread(a.w))) || n + 1 < P.RETRIES
      case Locked => v.hasContext
      case Calling => !a.threw
      case _ => true
  }

  predicate GoesWellAt(s: States, a: Actions, i: nat, j: nat) {
    GoesWell(s(j).vm, a(j), i)
  }

  /** The promise can still be settled, or is. */
  predicate Hopeful(stage: P.Stage) {
    match stage
    case Run(_, pc, _) => pc.Cleared? ==> pc.outcome.Settled?
    case Finished(_, outcome, _, _) => outcome.Settled?
    case _ => true
  }

  lemma BodyHopes(v: P.Vm, w: nat, granted: bool, threw: bool, i: nat)
    requires P.Inv(v) && P.Runs(v, i, w)
    ensures var after := P.BodyStep(v, i, w, granted, threw);
            && i < |after.promises|
            && (Hopeful(after.promises[i].stage) <==>
                  Hopeful(v.promises[i].stage) && GoesWell(v, R.Body(w, granted, threw), i))
  {
    P.DepthOfBody(v, i, w);
  }

  lemma StepHopes(s: R.System, a: R.Action, i: nat)
    requires R.Inv(s) && R.Step(s, a).Some? && i < |s.vm.promises|
    ensures var after := R.Step(s, a).value.vm;
            && i < |after.promises|
            && (Hopeful(after.promises[i].stage) <==> Hopeful(s.vm.promises[i].stage) && GoesWell(s.vm, a, i))
  {
    match a {
      case Vm(b) => VmHopes(s.vm, b, i);
      case Body(w, granted, threw) =>
        assert P.LaneInv(s.vm.promises, s.vm.lanes[w], w);
        if P.Runs(s.vm, i, w) {
          BodyHopes(s.vm, w, granted, threw, i);
        } else {
          R.BodyFrame(s.vm, s.vm.lanes[w].current.value, w, granted, threw);
        }
      case Engine(b) => EngineHopes(s, b, i);
    }
  }

  lemma VmHopes(v: P.Vm, b: P.Action, i: nat)
    requires R.LeavesLanes(b) && P.Step(v, b).Some? && i < |v.promises|
    ensures var after := P.Step(v, b).value;
            i < |after.promises| && Hopeful(after.promises[i].stage) == Hopeful(v.promises[i].stage)
  {
  }

  lemma EngineHopes(s: R.System, b: E.Action, i: nat)
    requires R.Inv(s) && R.Step(s, R.Engine(b)).Some? && i < |s.vm.promises|
    ensures var after := R.Step(s, R.Engine(b)).value.vm;
            i < |after.promises| && Hopeful(after.promises[i].stage) == Hopeful(s.vm.promises[i].stage)
  {
    EngineMeans(s, b);
    var lane := R.LaneAction(s.engine, b);
    if lane.Some? {
      LaneActFrame(s.vm, lane.value, i);
    }
  }

  predicate HopefulAt(s: States, i: nat, k: nat) {
    i < |s(k).vm.promises| && Hopeful(s(k).vm.promises[i].stage)
  }

  predicate GoesWellUntil(s: States, a: Actions, i: nat, j: nat, k: nat) {
    forall m | j <= m < k :: GoesWellAt(s, a, i, m)
  }

  lemma HopeStep(s: States, a: Actions, i: nat, k: nat)
    requires IsRun(s, a) && i < |s(k).vm.promises|
    ensures i < |s(k + 1).vm.promises|
    ensures HopefulAt(s, i, k + 1) <==> HopefulAt(s, i, k) && GoesWellAt(s, a, i, k)
  {
    RunReachable(s, a, k);
    assert StepsAt(s, a, k);
    StepHopes(s(k), a(k), i);
  }

  lemma {:induction false} HopefulSoFar(s: States, a: Actions, i: nat, j: nat, k: nat)
    requires IsRun(s, a) && j <= k && HopefulAt(s, i, j)
    ensures i < |s(k).vm.promises|
    ensures HopefulAt(s, i, k) <==> GoesWellUntil(s, a, i, j, k)
    decreases k
  {
    if j < k {
      HopefulSoFar(s, a, i, j, k - 1);
      HopeStep(s, a, i, k - 1);
      WellStep(s, a, i, j, k);
    }
  }

  lemma WellStep(s: States, a: Actions, i: nat, j: nat, k: nat)
    requires j < k
    ensures GoesWellUntil(s, a, i, j, k) <==> GoesWellUntil(s, a, i, j, k - 1) && GoesWellAt(s, a, i, k - 1)
  {
  }

  lemma {:induction false} FinishedStays(s: States, a: Actions, i: nat, k: nat, m: nat)
    requires IsRun(s, a) && k <= m && FinishedAt(s, i, k)
    ensures FinishedAt(s, i, m)
    decreases m - k
  {
    if k < m {
      RunReachable(s, a, k);
      assert StepsAt(s, a, k);
      match a(k) {
        case Vm(b) => P.FinishedIsFinal(s(k).vm, b, i);
        case Body(w, granted, threw) => P.FinishedIsFinal(s(k).vm, P.LaneStep(w, granted, threw), i);
        case Engine(b) =>
          EngineMeans(s(k), b);
          if R.LaneAction(s(k).engine, b).Some? {
            P.FinishedIsFinal(s(k).vm, R.LaneAction(s(k).engine, b).value, i);
          }
      }
      FinishedStays(s, a, i, k + 1, m);
    }
  }

  predicate SettledAt(s: States, i: nat, k: nat) {
    FinishedAt(s, i, k) && s(k).vm.promises[i].stage.outcome.Settled? && s(k).vm.promises[i].resolved == 1
  }

  /**
   Along every fair run without stops, a promise that was handed over and whose task has not started yet is
   finished, and its resolver was called exactly when the task found the VM with a context, got the lock in
   one of its attempts, and its callback returned.
   */
  lemma EveryPromiseIsSettledIff(s: States, a: Actions, i: nat, j: nat)
    requires FairRun(s, a) && (forall u :: T.NeverStopped(Engines(s), u))
    requires s(j).engine.capacity > 0 && i in s(j).sent && i < |s(j).vm.promises|
    requires s(j).vm.promises[i].stage.Submitting? || s(j).vm.promises[i].stage.Queued?
    ensures exists k :: k >= j && FinishedAt(s, i, k)
                        && (SettledAt(s, i, k) <==> forall m :: m >= j ==> GoesWellAt(s, a, i, m))
  {
    EveryPromiseIsFinished(s, a, i, j);
    var k :| k >= j && FinishedAt(s, i, k);
    HopefulSoFar(s, a, i, j, k);
    RunReachable(s, a, k);
    assert P.PromiseInv(s(k).vm.lanes, s(k).vm.promises[i]);
    forall m | m >= k
      ensures GoesWellAt(s, a, i, m)
    {
      FinishedStays(s, a, i, k, m);
    }
  }
}
