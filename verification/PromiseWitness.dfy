/** A fair run of promises on the task engine, as `PromiseProgress` speaks of. */
module PromiseWitness {
  import opened Prelude
  import E = TaskEngine
  import S = TaskSafety
  import L = TaskLocks
  import T = TaskProgress
  import W = TaskWitness
  import P = PromiseLedger
  import R = LaneRefinement
  import opened PromiseProgress

  lemma Reach(s: R.System, a: R.Action) returns (after: R.System)
    requires R.Reachable(s) && R.Step(s, a).Some?
    ensures after == R.Step(s, a).value && R.Reachable(after)
  {
    var capacity, jthread, hasContext, others, actions :|
      R.Run(R.Init(capacity, jthread, hasContext, others), actions) == Some(s);
    after := R.Step(s, a).value;
    assert (actions + [a])[..|actions|] == actions;
    assert R.Run(R.Init(capacity, jthread, hasContext, others), actions + [a]) == Some(after);
  }

  // --- One promise on one worker ---

  /** A pool of at most one worker, with the one call of the executor where it is. */
  function Pool(k: seq<E.Worker>, exec: E.Exec, blocked: seq<E.Call>, accepted: seq<E.Task>): E.Engine {
    E.Engine(1, true, k, 0, exec, blocked, accepted)
  }

  /** The one promise, of which no step has gone wrong. */
  function One(stage: P.Stage, lanes: seq<P.Lane>, owner: Option<P.Thread>): P.Vm {
    P.Vm([P.Promise(7, stage, 0)], {7}, {}, lanes, owner, if owner.None? then 0 else 1, true, true, true)
  }

  lemma PromiseIsMade() returns (s: R.System)
    ensures R.Reachable(s) && s == R.System(Pool([], E.Idle, [], []), One(P.Submitting, [], None), {})
  {
    s := R.Init(1, true, true, {});
    assert R.Run(s, []) == Some(s);
    s := Reach(s, R.Vm(P.NewPromise(0, 7)));
    assert s.vm == One(P.Created(0), [], Some(P.Client(0)));
    s := Reach(s, R.Vm(P.LeaveNew(0)));
    assert s.vm == One(P.Submitting, [], None);
  }

  lemma CallEntered() returns (s: R.System)
    ensures R.Reachable(s)
    ensures s == R.System(Pool([], E.Busy(W.FIRST, E.Entered), [], []), One(P.Submitting, [], None), {0})
  {
    s := PromiseIsMade();
    s := Reach(s, R.Engine(E.Submit(W.FIRST)));
    assert s == R.System(Pool([], E.Idle, [W.FIRST], []), One(P.Submitting, [], None), {0});
    s := Reach(s, R.Engine(E.Enter(0)));
  }

  lemma CallIsInside() returns (s: R.System)
    ensures R.Reachable(s)
    ensures s == R.System(
                   Pool([E.NEW_WORKER], E.Busy(W.FIRST, E.WantDaemon), [], []),
                   One(P.Submitting, [P.NEW_LANE], None), {0})
  {
    s := CallEntered();
    s := Reach(s, R.Engine(E.Advance));
  }

  lemma QueueIsHeld() returns (s: R.System)
    ensures R.Reachable(s)
    ensures s == R.System(
                   Pool([E.NEW_WORKER.(dmx := E.BySubmitter, qmx := E.BySubmitter)],
                        E.Busy(W.FIRST, E.HasQueue), [], []),
                   One(P.Submitting, [P.NEW_LANE], None), {0})
  {
    s := CallIsInside();
    s := Reach(s, R.Engine(E.Advance));
    assert s.engine == Pool([E.NEW_WORKER.(dmx := E.BySubmitter)], E.Busy(W.FIRST, E.HasDaemon), [], []);
    s := Reach(s, R.Engine(E.Advance));
  }

  lemma TaskIsPushed() returns (s: R.System)
    ensures R.Reachable(s)
    ensures s == R.System(
                   Pool([E.NEW_WORKER.(queue := [0], dispatched := [0], dmx := E.BySubmitter)],
                        E.Busy(W.FIRST, E.Pushed), [], [0]),
                   One(P.Queued(0), [P.NEW_LANE.(queue := [0])], None), {0})
  {
    s := QueueIsHeld();
    s := Reach(s, R.Engine(E.Advance));
    var none: seq<nat> := [];
    assert none + [0] == [0];
  }

  lemma TaskIsQueued() returns (s: R.System)
    ensures R.Reachable(s)
    ensures s == R.System(W.Alone(E.NEW_WORKER.(queue := [0], dispatched := [0])),
                          One(P.Queued(0), [P.NEW_LANE.(queue := [0])], None), {0})
  {
    s := TaskIsPushed();
    s := Reach(s, R.Engine(E.Advance));
    assert s.engine.workers == [E.NEW_WORKER.(queue := [0], dispatched := [0])];
    s := Reach(s, R.Engine(E.Advance));
  }

  // --- Its run ---

  /** Nobody but the worker's thread has anything to do. */
  ghost predicate Lonely(s: R.System) {
    && R.Inv(s) && |s.engine.workers| == 1
    && s.engine == W.Alone(s.engine.workers[0]) && W.Undisturbed(s.engine.workers[0])
  }

  /** What that thread does next; its attempts to lock are granted and its callback returns. */
  function Turn(s: R.System): R.Action {
    if R.RunsTask(s.engine, 0) then R.Body(0, true, false) else R.Engine(E.WorkerAct(0, L.TIMEOUT))
  }

  lemma LonelyTaskMoves(s: R.System)
    requires Lonely(s) && R.RunsTask(s.engine, 0)
    ensures R.Step(s, Turn(s)).Some? && Lonely(R.Step(s, Turn(s)).value)
  {
    assert R.SameLane(s.engine.workers[0], s.vm.lanes[0]) && P.LaneInv(s.vm.promises, s.vm.lanes[0], 0);
    R.BodyGoesOn(s, 0, true, false);
    EngineFollows(s, Turn(s));
    LonelyEngine(s.engine, R.BodyCause(s, 0, false));
  }

  lemma LonelyLoopMoves(s: R.System)
    requires Lonely(s) && !R.RunsTask(s.engine, 0)
    ensures R.Step(s, Turn(s)).Some? && Lonely(R.Step(s, Turn(s)).value)
  {
    LonelyEngine(s.engine, L.TIMEOUT);
    R.EngineGoesOn(s, E.WorkerAct(0, L.TIMEOUT));
    EngineFollows(s, Turn(s));
  }

  lemma LonelyMoves(s: R.System)
    requires Lonely(s)
    ensures R.Step(s, Turn(s)).Some? && Lonely(R.Step(s, Turn(s)).value)
  {
    if R.RunsTask(s.engine, 0) {
      LonelyTaskMoves(s);
    } else {
      LonelyLoopMoves(s);
    }
  }

  lemma LonelyEngine(e: E.Engine, cause: E.Cause)
    requires S.Inv(e) && |e.workers| == 1 && e == W.Alone(e.workers[0]) && W.Undisturbed(e.workers[0])
    ensures E.Step(e, E.WorkerAct(0, cause)).Some?
    ensures var f := E.Step(e, E.WorkerAct(0, cause)).value;
            |f.workers| == 1 && f == W.Alone(f.workers[0]) && W.Undisturbed(f.workers[0])
  {
    S.WorkerStepKeeps(e.workers[0], None, true, cause, false);
  }

  ghost function Spun(s: R.System, n: nat): (after: R.System)
    requires Lonely(s)
    ensures Lonely(after)
  {
    if n == 0 then s
    else
      var before := Spun(s, n - 1);
      LonelyMoves(before);
      R.Step(before, Turn(before)).value
  }

  ghost predicate LonelyAt(s: States, a: Actions, i: nat) {
    Lonely(s(i)) && a(i) == Turn(s(i)) && StepsAt(s, a, i)
  }

  lemma OthersAreFair(s: States, a: Actions, w: nat)
    requires forall i :: LonelyAt(s, a, i)
    ensures T.NeverStopped(Engines(s), w) && T.StopFair(Engines(s), EngineActs(s, a), w)
    ensures w > 0 ==> ThreadFair(s, a, w)
  {
    forall i: nat
      ensures W.AloneAt(Engines(s), i) && (w > 0 ==> !T.WorkerAble(Engines(s), w)(i))
    {
      assert LonelyAt(s, a, i);
      assert Engines(s)(i) == W.Alone(s(i).engine.workers[0]);
    }
    W.WorkerAloneIsFair(Engines(s), EngineActs(s, a), w);
    if w > 0 {
      W.NeverAble(T.WorkerAble(Engines(s), w), ThreadActs(a, w));
    }
  }

  lemma ThreadIsFair(s: States, a: Actions)
    requires forall i :: LonelyAt(s, a, i)
    ensures ThreadFair(s, a, 0)
  {
    forall i: nat
      ensures T.Again(ThreadActs(a, 0), i)
    {
      assert LonelyAt(s, a, i);
      assert ThreadActs(a, 0)(i);
    }
  }

  lemma LonelyCallersAreFair(s: States, a: Actions, call: E.Call)
    requires forall i :: LonelyAt(s, a, i)
    ensures T.Fair(T.CallerAble(Engines(s)), T.CallerActs(EngineActs(s, a)))
    ensures T.MutexFair(Engines(s), EngineActs(s, a), call)
  {
    forall i: nat
      ensures W.CalmAt(Engines(s), i)
    {
      assert LonelyAt(s, a, i);
      assert Engines(s)(i) == W.Alone(s(i).engine.workers[0]);
    }
    W.CallersAreFair(Engines(s), EngineActs(s, a), call);
  }

  lemma LonelyRunIsFair(s: States, a: Actions)
    requires R.Reachable(s(0)) && forall i :: LonelyAt(s, a, i)
    ensures FairRun(s, a) && forall w :: T.NeverStopped(Engines(s), w)
  {
    forall i: nat
      ensures StepsAt(s, a, i)
    {
      assert LonelyAt(s, a, i);
    }
    forall w: nat
      ensures T.NeverStopped(Engines(s), w) && T.StopFair(Engines(s), EngineActs(s, a), w) && ThreadFair(s, a, w)
    {
      OthersAreFair(s, a, w);
      ThreadIsFair(s, a);
    }
    forall call
      ensures T.MutexFair(Engines(s), EngineActs(s, a), call)
    {
      LonelyCallersAreFair(s, a, call);
    }
    LonelyCallersAreFair(s, a, W.FIRST);
  }

  lemma StartIsLonely(s: R.System)
    requires R.Reachable(s) && s.engine == W.Alone(E.NEW_WORKER.(queue := [0], dispatched := [0]))
    ensures Lonely(s)
  {
    R.ReachableInv(s);
  }

  /** A fair run without stops in which a promise has been handed over, and the lock is granted whenever asked for. */
  lemma FairRunExists() returns (s: States, a: Actions)
    ensures FairRun(s, a) && forall w :: T.NeverStopped(Engines(s), w)
    ensures s(0).engine.capacity > 0 && 0 in s(0).sent
    ensures |s(0).vm.promises| == 1 && s(0).vm.promises[0].stage == P.Queued(0)
    ensures forall i :: a(i) == Turn(s(i))
  {
    var start := TaskIsQueued();
    StartIsLonely(start);
    s, a := (n: nat) => Spun(start, n), (n: nat) => Turn(Spun(start, n));
    forall i: nat
      ensures LonelyAt(s, a, i)
    {
      LonelyMoves(Spun(start, i));
    }
    LonelyRunIsFair(s, a);
  }
}
