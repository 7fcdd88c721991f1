/**
 Stopping a worker. Along fair runs a requested stop sets the flag, the thread exits and the call
 returns, except for a worker whose task is inside a call that gets stuck. After the flag is set at
 most one more task starts.
 */
module TaskStop {
  import opened Prelude
  import opened TaskEngine
  import opened TaskSafety
  import opened TaskLocks
  import opened TaskProgress
  import opened TaskWitness

  predicate Stopping(e: Engine, w: nat) {
    w < |e.workers| && !e.workers[w].stopper.NotStopped?
  }

  predicate JoinedAt(s: States, w: nat, i: nat) {
    w < |s(i).workers| && s(i).workers[w].stopper.Joined?
  }

  /** A call is stuck and the task of `w` is inside a call, the stuck one or one blocked behind it. */
  predicate TrappedAt(s: States, w: nat, i: nat) {
    Stuck(s(i)) && InCall(s(i), w)
  }

  ghost predicate NeverTrapped(s: States, w: nat) {
    forall i :: !TrappedAt(s, w, i)
  }

  lemma {:induction false} WorkerStays(s: States, a: Actions, w: nat, i: nat, m: nat)
    requires IsRun(s, a) && w < |s(i).workers| && i <= m
    ensures w < |s(m).workers| && s(m).jthread == s(i).jthread
    decreases m - i
  {
    if i < m {
      assert StepsAt(s, a, i);
      WorkerStays(s, a, w, i + 1, m);
    }
  }

  lemma WorkerAt(s: States, a: Actions, w: nat, i: nat)
    requires IsRun(s, a) && w < |s(i).workers|
    ensures FullInv(s(i)) && WorkerInv(s(i).workers[w], SubOn(s(i), w), s(i).jthread)
  {
    RunFull(s, a, i);
  }

  lemma WorkerChanges(s: States, a: Actions, w: nat, i: nat)
    requires IsRun(s, a) && w < |s(i).workers|
    ensures w < |s(i + 1).workers| && WorkerChange(s(i).workers[w], s(i + 1).workers[w], s(i), a(i), w)
    ensures s(i + 1).jthread == s(i).jthread
  {
    assert StepsAt(s, a, i);
    StepOnWorker(s(i), a(i), w);
  }

  // --- Every daemon mutex gets free again ---

  predicate KeptAt(s: States, w: nat, j: nat) {
    w < |s(j).workers| && s(j).workers[w].dmx.ByWorker?
  }

  ghost predicate KeptFrom(s: States, w: nat, i: nat) {
    forall j: nat :: j >= i ==> KeptAt(s, w, j)
  }

  lemma KeeperLowersRank(k: Worker, cause: Cause, inCall: bool)
    requires k.dmx.ByWorker? && HoldsDaemon(k.phase) && WorkerStep(k, cause, inCall).Some?
    requires WorkerStep(k, cause, inCall).value.dmx.ByWorker?
    ensures HoldRank(WorkerStep(k, cause, inCall).value) < HoldRank(k)
  {
  }

  lemma KeptStep(s: States, a: Actions, w: nat, i: nat)
    requires IsRun(s, a) && KeptAt(s, w, i) && KeptAt(s, w, i + 1)
    ensures var k, after := s(i).workers[w], s(i + 1).workers[w];
            if ActsAt(a, w, i) then HoldRank(after) < HoldRank(k) else HoldRank(after) == HoldRank(k)
  {
    assert StepsAt(s, a, i);
    RunFull(s, a, i);
    if ActsAt(a, w, i) {
      KeeperActs(s(i), a(i), w);
    } else {
      OthersKeepRank(s(i), a(i), w);
    }
  }

  lemma KeeperActs(e: Engine, a: Action, w: nat)
    requires Inv(e) && w < |e.workers| && a.WorkerAct? && a.w == w && Step(e, a).Some?
    requires e.workers[w].dmx.ByWorker? && Step(e, a).value.workers[w].dmx.ByWorker?
    ensures HoldRank(Step(e, a).value.workers[w]) < HoldRank(e.workers[w])
  {
    assert WorkerInv(e.workers[w], SubOn(e, w), e.jthread);
    KeeperLowersRank(e.workers[w], a.cause, InCall(e, w));
  }

  lemma {:induction false} KeptRank(s: States, a: Actions, w: nat, i: nat, m: nat)
    requires IsRun(s, a) && i <= m && KeptFrom(s, w, i)
    ensures KeptAt(s, w, i) && KeptAt(s, w, m) && HoldRank(s(m).workers[w]) <= HoldRank(s(i).workers[w])
    decreases m - i
  {
    assert KeptAt(s, w, i) && KeptAt(s, w, i + 1);
    if i < m {
      KeptStep(s, a, w, i);
      KeptRank(s, a, w, i + 1, m);
    }
  }

  lemma KeeperIsAble(s: States, a: Actions, w: nat, i: nat, m: nat)
    requires FairRun(s, a) && NeverStuck(s) && KeptFrom(s, w, i)
    ensures Again(WorkerAble(s, w), m)
  {
    var n := if m < i then i else m;
    assert KeptAt(s, w, n);
    if InCall(s(n), w) {
      InCallEnds(s, a, w, n);
      var j :| j >= n && WorkerAble(s, w)(j);
      assert j >= m;
    } else {
      RunFull(s, a, n);
      HolderLetsGo(s(n), w, TIMEOUT);
      assert WorkerAble(s, w)(n);
    }
  }

  /** A worker's thread lets go of its mutex, even if its task makes calls. */
  lemma {:induction false} NotKeptForever(s: States, a: Actions, w: nat, i: nat)
    requires FairRun(s, a) && NeverStuck(s)
    ensures !KeptFrom(s, w, i)
    decreases if w < |s(i).workers| then HoldRank(s(i).workers[w]) else 0
  {
    if KeptFrom(s, w, i) {
      assert WorkerFair(s, a, w);
      forall m: nat
        ensures Again(WorkerAble(s, w), m)
      {
        KeeperIsAble(s, a, w, i, m);
      }
      assert Again(WorkerActs(a, w), i);
      var j :| j >= i && WorkerActs(a, w)(j);
      KeptRank(s, a, w, i, j);
      assert KeptAt(s, w, j) && KeptAt(s, w, j + 1);
      KeptStep(s, a, w, j);
      assert KeptFrom(s, w, j + 1);
      NotKeptForever(s, a, w, j + 1);
    }
  }

  function DaemonFree(s: States, w: nat): nat -> bool {
    (j: nat) => w < |s(j).workers| && s(j).workers[w].dmx.Free?
  }

  /** Between two owners the mutex is free. */
  lemma OwnerStep(e: Engine, a: Action, w: nat)
    requires Inv(e) && Step(e, a).Some? && w < |e.workers| && w < |Step(e, a).value.workers|
    requires !e.workers[w].dmx.Free? && !Step(e, a).value.workers[w].dmx.Free?
    ensures Step(e, a).value.workers[w].dmx == e.workers[w].dmx
  {
    assert WorkerInv(e.workers[w], SubOn(e, w), e.jthread);
    StepOnWorker(e, a, w);
  }

  lemma {:induction false} OwnerStays(s: States, a: Actions, w: nat, i: nat, m: nat)
    requires IsRun(s, a) && i <= m && w < |s(i).workers| && forall j | i <= j <= m :: !DaemonFree(s, w)(j)
    ensures w < |s(m).workers| && s(m).workers[w].dmx == s(i).workers[w].dmx
    decreases m - i
  {
    if i < m {
      assert !DaemonFree(s, w)(i) && !DaemonFree(s, w)(i + 1) && StepsAt(s, a, i);
      WorkerStays(s, a, w, i, i + 1);
      RunFull(s, a, i);
      OwnerStep(s(i), a(i), w);
      OwnerStays(s, a, w, i + 1, m);
    }
  }

  lemma StopperLetsGo(s: States, a: Actions, w: nat, i: nat)
    requires FairRun(s, a) && w < |s(i).workers| && s(i).workers[w].dmx.ByStopper?
    ensures Again(DaemonFree(s, w), i)
  {
    if !Again(DaemonFree(s, w), i) {
      forall j: nat | j >= i
        ensures HeldAt(s, w, j)
      {
        OwnerStays(s, a, w, i, j);
      }
      NotHeldForever(s, a, w, i);
    }
  }

  lemma FreeWhenNeverStuck(s: States, a: Actions, w: nat, i: nat)
    requires FairRun(s, a) && NeverStuck(s) && w < |s(i).workers|
    ensures Again(DaemonFree(s, w), i)
  {
    if !Again(DaemonFree(s, w), i) {
      WorkerAt(s, a, w, i);
      match s(i).workers[w].dmx
      case Free =>
        assert DaemonFree(s, w)(i);
      case ByStopper => StopperLetsGo(s, a, w, i);
      case BySubmitter =>
        var n := CallEnds(s, a, i);
        OwnerStays(s, a, w, i, n);
        WorkerAt(s, a, w, n);
      case ByWorker =>
        forall j: nat | j >= i
          ensures KeptAt(s, w, j)
        {
          OwnerStays(s, a, w, i, j);
        }
        NotKeptForever(s, a, w, i);
    }
  }

  lemma {:induction false} StuckFrom(s: States, a: Actions, i: nat, m: nat)
    requires IsRun(s, a) && Stuck(s(i)) && i <= m
    ensures Stuck(s(m)) && s(m).exec == s(i).exec && s(i).blocked <= s(m).blocked
    decreases m - i
  {
    if i < m {
      RunFull(s, a, i);
      assert StepsAt(s, a, i);
      StuckStays(s(i), a(i));
      BlockedGrows(s(i), a(i));
      StuckFrom(s, a, i + 1, m);
    }
  }

  /** Behind a stuck call, too, the mutex of a worker whose task makes no call gets free. */
  lemma FreeWhenStuck(s: States, a: Actions, w: nat, k: nat, i: nat)
    requires FairRun(s, a) && NeverTrapped(s, w) && Stuck(s(k)) && k <= i && w < |s(i).workers|
    ensures Again(DaemonFree(s, w), i)
  {
    if !Again(DaemonFree(s, w), i) {
      forall j: nat | j >= i
        ensures HeldAt(s, w, j)
      {
        StuckFrom(s, a, k, j);
        assert !TrappedAt(s, w, j) && !DaemonFree(s, w)(j);
        WorkerStays(s, a, w, i, j);
        WorkerAt(s, a, w, j);
      }
      NotHeldForever(s, a, w, i);
    }
  }

  lemma DaemonGetsFreeAgain(s: States, a: Actions, w: nat, i: nat)
    requires FairRun(s, a) && NeverTrapped(s, w) && w < |s(i).workers|
    ensures Again(DaemonFree(s, w), i)
  {
    if NeverStuck(s) {
      FreeWhenNeverStuck(s, a, w, i);
    } else {
      var k: nat :| !NotStuckAt(s, k);
      var n := if i < k then k else i;
      WorkerStays(s, a, w, i, n);
      FreeWhenStuck(s, a, w, k, n);
      var j :| j >= n && DaemonFree(s, w)(j);
      assert j >= i;
    }
  }

  // --- With the flag set, the thread exits ---

  /** Steps of the worker's thread, once the flag is set, until it has exited. */
  function ExitRank(phase: Phase): nat {
    match phase
    case Fetch => 13
    case Pop => 12
    case Running(_) => 11
    case Handling => 10
    case Unlocking => 9
    case Waiting => 8
    case Woken(_) => 7
    case Locking => 7
    case Check(_) => 6
    case Peek(_) => 5
    case Probe(_) => 4
    case Poll => 3
    case Head => 1
    case Exited => 0
  }

  predicate FlagAt(s: States, w: nat, i: nat) {
    w < |s(i).workers| && s(i).workers[w].stop
  }

  lemma StopLowersExitRank(k: Worker, cause: Cause, inCall: bool)
    requires k.stop && WorkerStep(k, cause, inCall).Some?
    ensures WorkerStep(k, cause, inCall).value.stop
    ensures ExitRank(WorkerStep(k, cause, inCall).value.phase) < ExitRank(k.phase)
  {
  }

  lemma ExitRankStep(s: States, a: Actions, w: nat, i: nat)
    requires IsRun(s, a) && FlagAt(s, w, i)
    ensures FlagAt(s, w, i + 1)
    ensures var rank, after := ExitRank(s(i).workers[w].phase), ExitRank(s(i + 1).workers[w].phase);
            if ActsAt(a, w, i) then after < rank else after == rank
  {
    WorkerChanges(s, a, w, i);
    if ActsAt(a, w, i) {
      assert StepsAt(s, a, i);
      StopLowersExitRank(s(i).workers[w], a(i).cause, InCall(s(i), w));
    }
  }

  lemma {:induction false} ExitRankStays(s: States, a: Actions, w: nat, i: nat, m: nat)
    requires IsRun(s, a) && FlagAt(s, w, i) && i <= m
    ensures FlagAt(s, w, m) && ExitRank(s(m).workers[w].phase) <= ExitRank(s(i).workers[w].phase)
    decreases m - i
  {
    if i < m {
      ExitRankStep(s, a, w, i);
      ExitRankStays(s, a, w, i + 1, m);
    }
  }

  /** A thread that finds its mutex free and has not exited can make a step. */
  lemma FreeIsAble(s: States, a: Actions, w: nat, i: nat)
    requires IsRun(s, a) && DaemonFree(s, w)(i) && !s(i).workers[w].phase.Exited?
    ensures WorkerAble(s, w)(i)
  {
    WorkerAt(s, a, w, i);
  }

  lemma {:induction false} ThreadExits(s: States, a: Actions, w: nat, i: nat) returns (j: nat)
    requires FairRun(s, a) && NeverTrapped(s, w) && FlagAt(s, w, i)
    ensures j >= i && FlagAt(s, w, j) && s(j).workers[w].phase.Exited?
    decreases ExitRank(s(i).workers[w].phase)
  {
    if e :| e >= i && w < |s(e).workers| && s(e).workers[w].phase.Exited? {
      ExitRankStays(s, a, w, i, e);
      return e;
    }
    forall m: nat
      ensures Again(WorkerAble(s, w), m)
    {
      var n := if m < i then i else m;
      WorkerStays(s, a, w, i, n);
      DaemonGetsFreeAgain(s, a, w, n);
      var f :| f >= n && DaemonFree(s, w)(f);
      FreeIsAble(s, a, w, f);
      assert f >= m;
    }
    assert WorkerFair(s, a, w);
    assert Again(WorkerActs(a, w), i);
    var m :| m >= i && WorkerActs(a, w)(m);
    ExitRankStays(s, a, w, i, m);
    ExitRankStep(s, a, w, m);
    j := ThreadExits(s, a, w, m + 1);
  }

  // --- The call of stopAndJoin gets on ---

  /** Steps of the call until it returns. */
  function StopRank(call: StopCall): nat {
    match call
    case NotStopped => 5
    case Won => 4
    case StopLocked => 3
    case StopStored => 2
    case Flagged => 1
    case Joined => 0
  }

  predicate StopperAt(s: States, w: nat, call: StopCall, i: nat) {
    w < |s(i).workers| && s(i).workers[w].stopper == call
  }

  lemma {:induction false} StopperStays(s: States, a: Actions, w: nat, i: nat, m: nat)
    requires IsRun(s, a) && Stopping(s(i), w) && i <= m && forall j | i <= j < m :: !StopActs(a, w)(j)
    ensures StopperAt(s, w, s(i).workers[w].stopper, m)
    decreases m - i
  {
    if i < m {
      assert !StopActs(a, w)(i);
      WorkerChanges(s, a, w, i);
      StopperStays(s, a, w, i + 1, m);
    }
  }

  lemma StopActLowersRank(s: States, a: Actions, w: nat, i: nat)
    requires IsRun(s, a) && Stopping(s(i), w) && StopActs(a, w)(i)
    ensures Stopping(s(i + 1), w)
    ensures StopRank(s(i + 1).workers[w].stopper) < StopRank(s(i).workers[w].stopper)
  {
    assert StepsAt(s, a, i);
  }

  /** If the call does not move, there comes a moment at which it can. */
  lemma StopIsAble(s: States, a: Actions, w: nat, i: nat) returns (j: nat)
    requires FairRun(s, a) && NeverTrapped(s, w) && Stopping(s(i), w) && !s(i).workers[w].stopper.Joined?
    requires forall m :: m >= i ==> StopperAt(s, w, s(i).workers[w].stopper, m)
    ensures j >= i && StopAble(s, w)(j)
  {
    match s(i).workers[w].stopper
    case Flagged =>
      WorkerAt(s, a, w, i);
      j := ThreadExits(s, a, w, i);
      assert StopperAt(s, w, Flagged, j);
    case Won =>
      DaemonGetsFreeAgain(s, a, w, i);
      j :| j >= i && DaemonFree(s, w)(j);
      assert StopperAt(s, w, Won, j);
    case _ =>
      j := i;
  }

  lemma StopMoves(s: States, a: Actions, w: nat, i: nat) returns (j: nat)
    requires FairRun(s, a) && NeverTrapped(s, w) && Stopping(s(i), w) && !s(i).workers[w].stopper.Joined?
    ensures j >= i && StopActs(a, w)(j) && StopperAt(s, w, s(i).workers[w].stopper, j)
  {
    assert StopFair(s, a, w);
    if !Again(StopActs(a, w), i) {
      forall m | m >= i
        ensures StopperAt(s, w, s(i).workers[w].stopper, m)
      {
        StopperStays(s, a, w, i, m);
      }
      forall m: nat
        ensures Again(StopAble(s, w), m)
      {
        var n := if m < i then i else m;
        assert StopperAt(s, w, s(i).workers[w].stopper, n);
        var f := StopIsAble(s, a, w, n);
        assert f >= m;
      }
    }
    assert Again(StopActs(a, w), i);
    var last :| last >= i && StopActs(a, w)(last);
    j := First(StopActs(a, w), i, last);
    StopperStays(s, a, w, i, j);
  }

  lemma {:induction false} StopJoins(s: States, a: Actions, w: nat, i: nat) returns (j: nat)
    requires FairRun(s, a) && NeverTrapped(s, w) && Stopping(s(i), w)
    ensures j >= i && JoinedAt(s, w, j)
    decreases if w < |s(i).workers| then StopRank(s(i).workers[w].stopper) else 0
  {
    j := i;
    if !s(i).workers[w].stopper.Joined? {
      j := StopMoves(s, a, w, i);
      StopActLowersRank(s, a, w, j);
      j := StopJoins(s, a, w, j + 1);
    }
  }

  // --- Exactly the stops that take effect ---

  lemma {:induction false} JoinedStays(s: States, a: Actions, w: nat, i: nat, m: nat)
    requires IsRun(s, a) && JoinedAt(s, w, i) && i <= m
    ensures JoinedAt(s, w, m)
    decreases m - i
  {
    if i < m {
      WorkerChanges(s, a, w, i);
      JoinedStays(s, a, w, i + 1, m);
    }
  }

  lemma TrappedNeverJoins(s: States, a: Actions, w: nat, k: nat, j: nat)
    requires IsRun(s, a) && TrappedAt(s, w, k)
    ensures !JoinedAt(s, w, j)
  {
    if JoinedAt(s, w, j) {
      var n := if j < k then k else j;
      JoinedStays(s, a, w, j, n);
      StuckFrom(s, a, k, n);
      WorkerAt(s, a, w, n);
      assert InCall(s(n), w) by {
        if s(k).exec.call.from != Some(w) {
          var b :| 0 <= b < |s(k).blocked| && s(k).blocked[b].from == Some(w);
          assert s(n).blocked[b] == s(k).blocked[b];
        }
      }
      InCallRuns(s(n), w);
    }
  }

  /**
   Along every fair run a requested stop takes effect, so that the flag is set, the thread exits and
   `stopAndJoin` returns, exactly when the worker's task is never inside a call while a call is stuck.
   */
  lemma StopJoinsIff(s: States, a: Actions, w: nat, i: nat)
    requires FairRun(s, a) && Stopping(s(i), w)
    ensures (exists j :: j >= i && JoinedAt(s, w, j)) <==> NeverTrapped(s, w)
  {
    if NeverTrapped(s, w) {
      var j := StopJoins(s, a, w, i);
    } else {
      var k: nat :| TrappedAt(s, w, k);
      forall j: nat
        ensures !JoinedAt(s, w, j)
      {
        TrappedNeverJoins(s, a, w, k, j);
      }
    }
  }

  /** In particular every stop takes effect where no call gets stuck. */
  lemma EveryStopJoins(s: States, a: Actions, w: nat, i: nat)
    requires FairRun(s, a) && NeverStuck(s) && w < |s(i).workers| && !s(i).workers[w].stopper.NotStopped?
    ensures exists j :: j >= i && JoinedAt(s, w, j) && s(j).workers[w].stop && s(j).workers[w].phase.Exited?
  {
    forall k: nat
      ensures !TrappedAt(s, w, k)
    {
      assert NotStuckAt(s, k);
    }
    var j := StopJoins(s, a, w, i);
    WorkerAt(s, a, w, j);
  }

  // --- What still starts ---

  /** Tasks that the worker has begun to run. */
  function Started(k: Worker): nat {
    |k.executed| + |InFlight(k.phase)|
  }

  predicate PastItsCheck(k: Worker) {
    k.phase.Fetch? || k.phase.Pop?
  }

  lemma StartedStep(e: Engine, a: Action, w: nat)
    requires Step(e, a).Some? && w < |e.workers| && e.workers[w].stop
    ensures var after := Step(e, a).value;
            && w < |after.workers| && after.workers[w].stop
            && Started(after.workers[w]) + (if PastItsCheck(after.workers[w]) then 1 else 0)
               <= Started(e.workers[w]) + (if PastItsCheck(e.workers[w]) then 1 else 0)
  {
    StepOnWorker(e, a, w);
  }

  lemma {:induction false} StartedRun(e: Engine, actions: seq<Action>, w: nat)
    requires Run(e, actions).Some? && w < |e.workers| && e.workers[w].stop
    ensures var after := Run(e, actions).value;
            && w < |after.workers| && after.workers[w].stop
            && Started(after.workers[w]) + (if PastItsCheck(after.workers[w]) then 1 else 0)
               <= Started(e.workers[w]) + (if PastItsCheck(e.workers[w]) then 1 else 0)
  {
    if actions != [] {
      StartedRun(e, actions[..|actions| - 1], w);
      StartedStep(Run(e, actions[..|actions| - 1]).value, actions[|actions| - 1], w);
    }
  }

  /**
   Whatever happens after the flag is set, a worker begins at most one more task: only if its thread was
   past its last check of the flag, which the build without stop tokens rules out.
   */
  lemma StartedAfterStop(e: Engine, actions: seq<Action>, w: nat)
    requires Reachable(e) && w < |e.workers| && e.workers[w].stop && Run(e, actions).Some?
    ensures var k, after := e.workers[w], Run(e, actions).value;
            && w < |after.workers|
            && Started(after.workers[w])
               <= Started(k) + if e.jthread && (k.phase.Fetch? || k.phase.Pop?) then 1 else 0
  {
    ReachableInv(e);
    assert WorkerInv(e.workers[w], SubOn(e, w), e.jthread);
    StartedRun(e, actions, w);
  }

  // --- Stops happen ---

  lemma StopMove(jthread: bool, k: Worker) returns (after: Worker)
    requires Reachable(Assigned(jthread, k)) && StopStep(k, jthread).Some?
    ensures after == StopStep(k, jthread).value && Reachable(Assigned(jthread, after))
  {
    after := StopStep(k, jthread).value;
    var e := Reach(Assigned(jthread, k), StopAct(0));
    assert [k][0 := after] == [after];
  }

  lemma FlagHappens(jthread: bool) returns (k: Worker)
    ensures k == NEW_WORKER.(stop := true, stopper := Flagged) && Reachable(Assigned(jthread, k))
  {
    k := NEW_WORKER.(stopper := Won);
    var e := FirstTaskHasWorker(jthread);
    e := Reach(e, StopRequest(0));
    assert e == Assigned(jthread, k);
    if !jthread {
      k := StopMove(jthread, k);
      k := StopMove(jthread, k);
    }
    k := StopMove(jthread, k);
  }

  /** In both builds a stop can take effect: here before the worker's first task has been pushed. */
  lemma StopHappens(jthread: bool) returns (e: Engine)
    ensures Reachable(e) && e.jthread == jthread && |e.workers| == 1
    ensures e.workers[0].stop && e.workers[0].stopper.Joined? && e.workers[0].phase.Exited?
  {
    var k := FlagHappens(jthread);
    e := Reach(Assigned(jthread, k), WorkerAct(0, TIMEOUT));
    k := k.(phase := Exited);
    assert e == Assigned(jthread, k);
    k := StopMove(jthread, k);
    e := Assigned(jthread, k);
  }

  lemma AloneStops(k: Worker) returns (after: Worker)
    requires Reachable(Alone(k)) && k.stopper.NotStopped?
    ensures after == k.(stop := true, stopper := Flagged) && Reachable(Alone(after))
  {
    after := k.(stop := true, stopper := Flagged);
    var e := Reach(Alone(k), StopRequest(0));
    assert e == Alone(k.(stopper := Won));
    e := Reach(e, StopAct(0));
    assert e == Alone(after);
  }

  lemma FlagAfterCheck() returns (k: Worker)
    ensures k.phase.Fetch? && k.stop && k.queue == [0] && k.executed == [] && k.qmx.Free? && k.late == 0
    ensures Reachable(Alone(k))
  {
    k := FirstTaskIsSeen();
    k := AloneMoves(k);
    k := AloneStops(k);
  }

  /** With stop tokens a task can start after the stop: the flag is set between the last check and the pop. */
  lemma LateTaskHappens() returns (before: Engine, after: Engine)
    ensures Reachable(before) && |before.workers| == 1 && before.workers[0].stop && Started(before.workers[0]) == 0
    ensures Run(before, [WorkerAct(0, TIMEOUT), WorkerAct(0, TIMEOUT)]) == Some(after)
    ensures |after.workers| == 1 && after.workers[0].phase == Running(0) && after.workers[0].late == 1
  {
    var k := FlagAfterCheck();
    var mid := AloneMoves(k);
    var last := AloneMoves(mid);
    before, after := Alone(k), Alone(last);
    RunTwo(before, WorkerAct(0, TIMEOUT), Alone(mid), WorkerAct(0, TIMEOUT), after);
  }

  lemma RunTwo(e: Engine, a: Action, mid: Engine, b: Action, after: Engine)
    requires Step(e, a) == Some(mid) && Step(mid, b) == Some(after)
    ensures Run(e, [a, b]) == Some(after)
  {
    assert [a, b][..1] == [a] && [a][..0] == [];
    assert Run(e, [a]) == Step(e, a);
  }

  // --- A fair run with a stop ---

  /** The stop was just requested; its call, the worker's thread and the call again make their steps. */
  function Stopped(k: Worker, n: nat): Worker {
    match n
    case 0 => k.(stopper := Won)
    case 1 => k.(stop := true, stopper := Flagged)
    case 2 => k.(stop := true, stopper := Flagged, phase := Exited)
    case _ => k.(stop := true, stopper := Joined, phase := Exited)
  }

  function StoppingAct(n: nat): Action {
    match n
    case 0 => StopAct(0)
    case 1 => WorkerAct(0, TIMEOUT)
    case 2 => StopAct(0)
    case _ => Stutter
  }

  lemma StoppedSteps(k: Worker, n: nat)
    requires k == NEW_WORKER.(queue := [0], dispatched := [0])
    ensures Step(Alone(Stopped(k, n)), StoppingAct(n)) == Some(Alone(Stopped(k, n + 1)))
  {
    assert [Stopped(k, n)][0 := Stopped(k, n + 1)] == [Stopped(k, n + 1)];
  }

  lemma NotAbleFrom(able: nat -> bool, acts: nat -> bool, i: nat)
    requires forall j :: j >= i ==> !able(j)
    ensures Fair(able, acts)
  {
    assert !Again(able, i);
  }

  lemma ExitedIsFair(s: States, a: Actions, k: Worker, w: nat)
    requires forall i :: s(i) == Alone(Stopped(k, i))
    ensures WorkerFair(s, a, w) && StopFair(s, a, w)
  {
    forall j: nat | j >= 3
      ensures !WorkerAble(s, w)(j) && !StopAble(s, w)(j)
    {
      assert s(j) == Alone(Stopped(k, j)) && Stopped(k, j) == Stopped(k, 3);
    }
    NotAbleFrom(WorkerAble(s, w), WorkerActs(a, w), 3);
    NotAbleFrom(StopAble(s, w), StopActs(a, w), 3);
  }

  /** A fair run in which a worker with a queued task is stopped and its thread exits without running the task. */
  lemma FairStopExists() returns (s: States, a: Actions)
    ensures FairRun(s, a) && NeverStuck(s) && Stopping(s(0), 0)
    ensures forall j :: j >= 3 ==> JoinedAt(s, 0, j) && s(j).workers[0].queue == [0] && s(j).workers[0].executed == []
  {
    var e := FirstTaskIsQueued();
    var k := NEW_WORKER.(queue := [0], dispatched := [0]);
    e := Reach(e, StopRequest(0));
    s, a := (n: nat) => Alone(Stopped(k, n)), (n: nat) => StoppingAct(n);
    assert e == s(0);
    forall i: nat
      ensures StepsAt(s, a, i) && NotStuckAt(s, i) && CalmAt(s, i)
    {
      StoppedSteps(k, i);
    }
    forall w: nat
      ensures WorkerFair(s, a, w) && StopFair(s, a, w)
    {
      ExitedIsFair(s, a, k, w);
    }
    forall call
      ensures Fair(CallerAble(s), CallerActs(a)) && MutexFair(s, a, call)
    {
      CallersAreFair(s, a, call);
    }
    CallersAreFair(s, a, FIRST);
  }
}
