/** Concrete runs of the task engine: the deadlocks happen, and the fair runs of `TaskProgress` exist. */
module TaskWitness {
  import opened Prelude
  import opened TaskEngine
  import opened TaskSafety
  import opened TaskLocks
  import opened TaskProgress

  /** A pool of one worker and one accepted task, with no call under way. */
  function Alone(k: Worker): Engine {
    Engine(1, true, [k], 0, Idle, [], [0])
  }

  const FIRST := Call(Some(0), None)

  /** The call of the first task has its worker, and wants the daemon mutex. */
  function Assigned(jthread: bool, k: Worker): Engine {
    Engine(1, jthread, [k], 0, Busy(FIRST, WantDaemon), [], [])
  }

  lemma FirstTaskHasWorker(jthread: bool) returns (e: Engine)
    ensures e == Assigned(jthread, NEW_WORKER) && Reachable(e)
  {
    e := Init(1, jthread);
    assert Run(e, []) == Some(e);
    e := Reach(e, Submit(FIRST));
    assert e == Engine(1, jthread, [], 0, Idle, [FIRST], []);
    e := Reach(e, Enter(0));
    assert e == Engine(1, jthread, [], 0, Busy(FIRST, Entered), [], []);
    e := Reach(e, Advance);
  }

  lemma FirstTaskIsQueued() returns (e: Engine)
    ensures e == Alone(NEW_WORKER.(queue := [0], dispatched := [0])) && Reachable(e)
  {
    var k := NEW_WORKER;
    e := FirstTaskHasWorker(true);
    e := Reach(e, Advance);
    assert e == Engine(1, true, [k.(dmx := BySubmitter)], 0, Busy(FIRST, HasDaemon), [], []);
    e := Reach(e, Advance);
    assert e == Engine(1, true, [k.(dmx := BySubmitter, qmx := BySubmitter)], 0, Busy(FIRST, HasQueue), [], []);
    e := Reach(e, Advance);
    assert k.queue + [0] == [0] && k.dispatched + [0] == [0];
    k := k.(queue := [0], dispatched := [0]);
    assert e == Engine(1, true, [k.(dmx := BySubmitter)], 0, Busy(FIRST, Pushed), [], [0]);
    e := Reach(e, Advance);
    assert e == Engine(1, true, [k], 0, Busy(FIRST, Released), [], [0]);
    e := Reach(e, Advance);
  }

  lemma AloneMoves(k: Worker) returns (after: Worker)
    requires Reachable(Alone(k)) && WorkerStep(k, TIMEOUT, false).Some?
    ensures after == WorkerStep(k, TIMEOUT, false).value && Reachable(Alone(after))
    ensures Step(Alone(k), WorkerAct(0, TIMEOUT)) == Some(Alone(after))
  {
    after := WorkerStep(k, TIMEOUT, false).value;
    var e := Reach(Alone(k), WorkerAct(0, TIMEOUT));
    assert [k][0 := after] == [after];
  }

  lemma FirstTaskIsSeen() returns (k: Worker)
    ensures k == NEW_WORKER.(queue := [0], dispatched := [0], dmx := ByWorker, phase := Poll) && Reachable(Alone(k))
  {
    var e := FirstTaskIsQueued();
    k := AloneMoves(e.workers[0]);
    k := AloneMoves(k);
    k := AloneMoves(k);
    k := AloneMoves(k);
  }

  lemma FirstTaskRuns() returns (k: Worker)
    ensures k.phase == Running(0) && k.executed == [] && Reachable(Alone(k))
  {
    k := FirstTaskIsSeen();
    k := AloneMoves(k);
    k := AloneMoves(k);
    k := AloneMoves(k);
  }

  /** A pool of one worker whose first task hands over a task: it waits for a mutex that it holds itself. */
  lemma SelfCallHappens() returns (e: Engine)
    ensures Reachable(e) && SelfCall(e) && !CrossCall(e)
  {
    var call := Call(Some(1), Some(0));
    var k := FirstTaskRuns();
    e := Reach(Alone(k), Submit(call));
    assert e == Engine(1, true, [k], 0, Idle, [call], [0]);
    e := Reach(e, Enter(0));
    assert e == Engine(1, true, [k], 0, Busy(call, Entered), [], [0]);
    e := Reach(e, Advance);
  }

  /** The same task, but an outside caller gets the executor mutex first: each waits for the other. */
  lemma CrossCallHappens() returns (e: Engine)
    ensures Reachable(e) && CrossCall(e) && !SelfCall(e)
  {
    var outside, inside := Call(Some(2), None), Call(Some(1), Some(0));
    var k := FirstTaskRuns();
    e := Reach(Alone(k), Submit(outside));
    assert e == Engine(1, true, [k], 0, Idle, [outside], [0]);
    e := Reach(e, Submit(inside));
    assert e == Engine(1, true, [k], 0, Idle, [outside, inside], [0]);
    e := Reach(e, Enter(0));
    assert e == Engine(1, true, [k], 0, Busy(outside, Entered), [inside], [0]);
    e := Reach(e, Advance);
    assert e.blocked[0].from == Some(e.index);
  }

  /** A worker that nobody else touches. */
  predicate Undisturbed(k: Worker) {
    WorkerInv(k, None, true) && k.stopper.NotStopped?
  }

  lemma UndisturbedMoves(k: Worker)
    requires Undisturbed(k)
    ensures WorkerStep(k, TIMEOUT, false).Some? && Undisturbed(WorkerStep(k, TIMEOUT, false).value)
    ensures k.dispatched == WorkerStep(k, TIMEOUT, false).value.dispatched
  {
    WorkerStepKeeps(k, None, true, TIMEOUT, false);
  }

  /** The worker after `n` steps in which each of its waits runs into the timeout. */
  ghost function Spun(k: Worker, n: nat): (after: Worker)
    requires Undisturbed(k)
    ensures Undisturbed(after) && after.dispatched == k.dispatched
  {
    if n == 0 then k
    else
      var before := Spun(k, n - 1);
      UndisturbedMoves(before);
      WorkerStep(before, TIMEOUT, false).value
  }

  lemma SpunSteps(k: Worker, n: nat)
    requires Undisturbed(k)
    ensures Step(Alone(Spun(k, n)), WorkerAct(0, TIMEOUT)) == Some(Alone(Spun(k, n + 1)))
  {
    UndisturbedMoves(Spun(k, n));
    assert [Spun(k, n)][0 := Spun(k, n + 1)] == [Spun(k, n + 1)];
  }

  /** A fair run in which a task is queued, nothing gets stuck or stopped, and no notification ever arrives. */
  lemma FairRunExists() returns (s: States, a: Actions)
    ensures FairRun(s, a) && NeverStuck(s) && forall w :: NeverStopped(s, w)
    ensures Dispatched(s(0), 0, 0) && !Done(s(0), 0, 0)
    ensures forall i :: a(i) == WorkerAct(0, TIMEOUT)
  {
    var e := FirstTaskIsQueued();
    var k := NEW_WORKER.(queue := [0], dispatched := [0]);
    s, a := (n: nat) => Alone(Spun(k, n)), (n: nat) => WorkerAct(0, TIMEOUT);
    forall i: nat
      ensures StepsAt(s, a, i) && NotStuckAt(s, i) && WorkerActs(a, 0)(i) && Again(WorkerActs(a, 0), i)
      ensures AloneAt(s, i) && CalmAt(s, i)
    {
      SpunSteps(k, i);
      assert Undisturbed(Spun(k, i)) && AloneAt(s, i);
    }
    forall w: nat
      ensures WorkerFair(s, a, w) && StopFair(s, a, w) && NeverStopped(s, w)
    {
      WorkerAloneIsFair(s, a, w);
    }
    forall call
      ensures Fair(CallerAble(s), CallerActs(a)) && MutexFair(s, a, call)
    {
      CallersAreFair(s, a, call);
    }
    CallersAreFair(s, a, FIRST);
  }

  ghost predicate AloneAt(s: States, i: nat) {
    exists k :: Undisturbed(k) && s(i) == Alone(k)
  }

  lemma NeverAble(able: nat -> bool, acts: nat -> bool)
    requires forall i :: !able(i)
    ensures Fair(able, acts)
  {
    assert !Again(able, 0);
  }

  lemma WorkerAloneIsFair(s: States, a: Actions, w: nat)
    requires forall i :: AloneAt(s, i)
    ensures StopFair(s, a, w) && NeverStopped(s, w) && (w > 0 ==> WorkerFair(s, a, w))
  {
    forall i: nat
      ensures !StopAble(s, w)(i) && UnstoppedAt(s, w, i) && (w > 0 ==> !WorkerAble(s, w)(i))
    {
      assert AloneAt(s, i);
    }
    NeverAble(StopAble(s, w), StopActs(a, w));
    if w > 0 {
      NeverAble(WorkerAble(s, w), WorkerActs(a, w));
    }
  }

  /** Nobody is calling. */
  predicate CalmAt(s: States, i: nat) {
    s(i).exec.Idle? && s(i).blocked == []
  }

  lemma CallersAreFair(s: States, a: Actions, call: Call)
    requires forall i :: CalmAt(s, i)
    ensures Fair(CallerAble(s), CallerActs(a)) && MutexFair(s, a, call)
  {
    forall i: nat
      ensures !CallerAble(s)(i) && !EnterAble(s, call)(i)
    {
      assert CalmAt(s, i);
    }
    NeverAble(CallerAble(s), CallerActs(a));
    NeverAble(EnterAble(s, call), EnterActs(s, a, call));
  }
}
