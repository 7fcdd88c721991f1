/**
 Progress of the task engine along infinite runs with fair scheduling. Every submitted task is executed,
 even if every notification is missed and even if tasks call their own executor, exactly as long as no
 call ever gets stuck on a worker whose task is inside a call.
 */
module TaskProgress {
  import opened Prelude
  import opened TaskEngine
  import opened TaskSafety
  import opened TaskLocks

  predicate WorkerEnabled(e: Engine, w: nat) {
    Step(e, WorkerAct(w, TIMEOUT)).Some?
  }

  // --- Ranking ---

  /** Steps of the worker's thread until its next task is done, once the queue is not empty. */
  function PhaseRank(phase: Phase): nat {
    match phase
    case Handling => 11
    case Unlocking => 10
    case Head => 9
    case Waiting => 8
    case Locking => 7
    case Woken(_) => 7
    case Check(_) => 6
    case Peek(_) => 5
    case Probe(_) => 4
    case Poll => 3
    case Fetch => 2
    case Pop => 1
    case Running(_) => 0
    case Exited => 0
  }

  /** The task at position `target` of the worker's dispatch history is still to be executed. */
  predicate Outstanding(k: Worker, target: nat) {
    |k.executed| <= target < |k.dispatched|
  }

  /** Tasks left up to the target, then the phase of the loop. */
  function Rank(k: Worker, target: nat): nat
    requires |k.executed| <= target
  {
    (target - |k.executed|) * 16 + PhaseRank(k.phase)
  }

  /** Each step of the worker's thread lowers the rank, whether its wait ends by a wake-up or by the timeout. */
  lemma WorkerStepLowersRank(k: Worker, sub: Option<SubPhase>, jthread: bool, cause: Cause, inCall: bool, target: nat)
    requires WorkerInv(k, sub, jthread) && k.stopper.NotStopped? && Outstanding(k, target)
    requires WorkerStep(k, cause, inCall).Some?
    ensures var after := WorkerStep(k, cause, inCall).value;
            after.dispatched == k.dispatched && (|after.executed| <= target ==> Rank(after, target) < Rank(k, target))
  {
    if !k.phase.Running? {
      assert k.queue != [] by {
        assert |k.dispatched| == |k.executed| + |k.queue|;
      }
    }
  }

  /** What no other thread does: it neither moves the worker's thread nor takes back a dispatched task. */
  predicate SameThread(k: Worker, after: Worker) {
    after.phase == k.phase && after.executed == k.executed && k.dispatched <= after.dispatched
  }

  lemma OthersKeepRank(e: Engine, a: Action, w: nat)
    requires Inv(e) && Step(e, a).Some? && w < |e.workers|
    requires !(a.WorkerAct? && a.w == w)
    ensures var after := Step(e, a).value; w < |after.workers| && SameThread(e.workers[w], after.workers[w])
  {
    StepOnWorker(e, a, w);
  }

  // --- Infinite runs ---

  type States = nat -> Engine
  type Actions = nat -> Action

  ghost predicate StepsAt(s: States, a: Actions, i: nat) {
    Step(s(i), a(i)) == Some(s(i + 1))
  }

  /** Some moment from `i` on. */
  ghost predicate Again(p: nat -> bool, i: nat) {
    exists j :: j >= i && p(j)
  }

  /** Who is able again and again acts again and again. */
  ghost predicate Fair(able: nat -> bool, acts: nat -> bool) {
    (forall i :: Again(able, i)) ==> forall i :: Again(acts, i)
  }

  function CallerAble(s: States): nat -> bool {
    (j: nat) => AdvanceStep(s(j)).Some?
  }

  function CallerActs(a: Actions): nat -> bool {
    (j: nat) => a(j).Advance?
  }

  predicate ActsAt(a: Actions, w: nat, j: nat) {
    a(j).WorkerAct? && a(j).w == w
  }

  function WorkerAble(s: States, w: nat): nat -> bool {
    (j: nat) => WorkerEnabled(s(j), w)
  }

  function WorkerActs(a: Actions, w: nat): nat -> bool {
    (j: nat) => ActsAt(a, w, j)
  }

  function StopAble(s: States, w: nat): nat -> bool {
    (j: nat) => Step(s(j), StopAct(w)).Some?
  }

  function StopActs(a: Actions, w: nat): nat -> bool {
    (j: nat) => a(j) == StopAct(w)
  }

  function EnterAble(s: States, call: Call): nat -> bool {
    (j: nat) => s(j).exec.Idle? && call in s(j).blocked
  }

  function EnterActs(s: States, a: Actions, call: Call): nat -> bool {
    (j: nat) => a(j).Enter? && a(j).k < |s(j).blocked| && s(j).blocked[a(j).k] == call
  }

  /** A worker's thread is scheduled, its mutexes are fair to it, its wait ends by the timeout, and its tasks return. */
  ghost predicate WorkerFair(s: States, a: Actions, w: nat) {
    Fair(WorkerAble(s, w), WorkerActs(a, w))
  }

  ghost predicate StopFair(s: States, a: Actions, w: nat) {
    Fair(StopAble(s, w), StopActs(a, w))
  }

  /** The executor mutex is fair to every blocked call. */
  ghost predicate MutexFair(s: States, a: Actions, call: Call) {
    Fair(EnterAble(s, call), EnterActs(s, a, call))
  }

  ghost predicate IsRun(s: States, a: Actions) {
    Reachable(s(0)) && forall i :: StepsAt(s, a, i)
  }

  ghost predicate FairRun(s: States, a: Actions) {
    && IsRun(s, a)
    && Fair(CallerAble(s), CallerActs(a))
    && (forall w :: WorkerFair(s, a, w))
    && (forall w :: StopFair(s, a, w))
    && (forall call :: MutexFair(s, a, call))
  }

  predicate NotStuckAt(s: States, i: nat) {
    !Stuck(s(i))
  }

  ghost predicate NeverStuck(s: States) {
    forall i :: NotStuckAt(s, i)
  }

  predicate UnstoppedAt(s: States, w: nat, i: nat) {
    w < |s(i).workers| ==> s(i).workers[w].stopper.NotStopped?
  }

  ghost predicate NeverStopped(s: States, w: nat) {
    forall i :: UnstoppedAt(s, w, i)
  }

  lemma {:induction false} RunFull(s: States, a: Actions, i: nat)
    requires IsRun(s, a)
    ensures FullInv(s(i))
  {
    if i == 0 {
      ReachableFull(s(0));
    } else {
      RunFull(s, a, i - 1);
      assert StepsAt(s, a, i - 1);
      StepKeepsFull(s(i - 1), a(i - 1));
    }
  }

  lemma {:induction false} WorkersStay(s: States, a: Actions, i: nat, m: nat)
    requires IsRun(s, a) && i <= m
    ensures |s(i).workers| <= |s(m).workers| && s(i).capacity == s(m).capacity
    decreases m - i
  {
    if i < m {
      assert StepsAt(s, a, i);
      WorkersStay(s, a, i + 1, m);
    }
  }

  lemma {:induction false} First(p: nat -> bool, i: nat, last: nat) returns (j: nat)
    requires i <= last && p(last)
    ensures i <= j <= last && p(j) && forall k | i <= k < j :: !p(k)
    decreases last - i
  {
    j := i;
    if !p(i) {
      j := First(p, i + 1, last);
    }
  }

  // --- A daemon mutex does not stay held ---

  predicate HeldAt(s: States, w: nat, j: nat) {
    && w < |s(j).workers|
    && (s(j).workers[w].dmx.ByWorker? || s(j).workers[w].dmx.ByStopper?)
    && (s(j).workers[w].dmx.ByWorker? ==> !InCall(s(j), w))
  }

  ghost predicate HeldFrom(s: States, w: nat, i: nat) {
    forall j: nat :: j >= i ==> HeldAt(s, w, j)
  }

  /** The act of whoever holds the daemon mutex. */
  predicate IsHolderAct(k: Worker, a: Action, w: nat) {
    if k.dmx.ByStopper? then a == StopAct(w) else a.WorkerAct? && a.w == w
  }

  lemma HoldStep(s: States, a: Actions, w: nat, i: nat)
    requires IsRun(s, a) && HeldAt(s, w, i) && HeldAt(s, w, i + 1)
    ensures var k, after := s(i).workers[w], s(i + 1).workers[w];
            && after.dmx == k.dmx
            && if IsHolderAct(k, a(i), w) then HoldRank(after) < HoldRank(k) else HoldRank(after) == HoldRank(k)
  {
    RunFull(s, a, i);
    assert StepsAt(s, a, i);
    assert WorkerInv(s(i).workers[w], SubOn(s(i), w), s(i).jthread);
    if IsHolderAct(s(i).workers[w], a(i), w) {
      HolderLetsGo(s(i), w, if a(i).WorkerAct? then a(i).cause else TIMEOUT);
    }
    StepOnWorker(s(i), a(i), w);
  }

  lemma {:induction false} HoldRankStays(s: States, a: Actions, w: nat, i: nat, m: nat)
    requires IsRun(s, a) && i <= m && HeldFrom(s, w, i)
    ensures HeldAt(s, w, i) && HeldAt(s, w, m)
    ensures s(m).workers[w].dmx == s(i).workers[w].dmx && HoldRank(s(m).workers[w]) <= HoldRank(s(i).workers[w])
    decreases m - i
  {
    assert HeldAt(s, w, i) && HeldAt(s, w, i + 1);
    if i < m {
      HoldStep(s, a, w, i);
      HoldRankStays(s, a, w, i + 1, m);
    }
  }

  /** The holder is able to move at every moment from `i` on. */
  lemma HolderIsAble(s: States, a: Actions, w: nat, i: nat, m: nat)
    requires FairRun(s, a) && HeldFrom(s, w, i)
    ensures w < |s(i).workers|
    ensures s(i).workers[w].dmx.ByStopper? ==> Again(StopAble(s, w), m)
    ensures !s(i).workers[w].dmx.ByStopper? ==> Again(WorkerAble(s, w), m)
  {
    var n := if m < i then i else m;
    assert HeldAt(s, w, n);
    RunFull(s, a, n);
    HoldRankStays(s, a, w, i, n);
    HolderLetsGo(s(n), w, TIMEOUT);
    if s(i).workers[w].dmx.ByStopper? {
      assert StopAble(s, w)(n);
    } else {
      assert WorkerAble(s, w)(n);
    }
  }

  lemma HolderActsAgain(s: States, a: Actions, w: nat, i: nat) returns (j: nat)
    requires FairRun(s, a) && HeldFrom(s, w, i)
    ensures j >= i && HeldAt(s, w, j) && IsHolderAct(s(j).workers[w], a(j), w)
  {
    assert WorkerFair(s, a, w) && StopFair(s, a, w);
    HoldRankStays(s, a, w, i, i);
    forall m: nat
      ensures s(i).workers[w].dmx.ByStopper? ==> Again(StopAble(s, w), m)
      ensures !s(i).workers[w].dmx.ByStopper? ==> Again(WorkerAble(s, w), m)
    {
      HolderIsAble(s, a, w, i, m);
    }
    if s(i).workers[w].dmx.ByStopper? {
      assert Again(StopActs(a, w), i);
      j :| j >= i && StopActs(a, w)(j);
    } else {
      assert Again(WorkerActs(a, w), i);
      j :| j >= i && WorkerActs(a, w)(j);
    }
    HoldRankStays(s, a, w, i, j);
  }

  /** With a holder that can move, a daemon mutex is not held for ever. */
  lemma {:induction false} NotHeldForever(s: States, a: Actions, w: nat, i: nat)
    requires FairRun(s, a)
    ensures !HeldFrom(s, w, i)
    decreases if w < |s(i).workers| then HoldRank(s(i).workers[w]) else 0
  {
    if HeldFrom(s, w, i) {
      var j := HolderActsAgain(s, a, w, i);
      HoldRankStays(s, a, w, i, j);
      assert HeldAt(s, w, i) && HeldAt(s, w, j) && HeldAt(s, w, j + 1);
      HoldStep(s, a, w, j);
      assert HeldFrom(s, w, j + 1);
      NotHeldForever(s, a, w, j + 1);
    }
  }

  // --- A call gets on, and ends ---

  predicate ExecAt(s: States, exec: Exec, index: nat, j: nat) {
    s(j).exec == exec && s(j).index == index
  }

  lemma {:induction false} ExecStays(s: States, a: Actions, i: nat, m: nat)
    requires IsRun(s, a) && i <= m && s(i).exec.Busy? && forall k | i <= k < m :: !CallerActs(a)(k)
    ensures ExecAt(s, s(i).exec, s(i).index, m)
    decreases m - i
  {
    if i < m {
      assert StepsAt(s, a, i) && !CallerActs(a)(i);
      ExecStays(s, a, i + 1, m);
    }
  }

  /** The daemon mutex that the caller wants gets free. */
  lemma DaemonGetsFree(s: States, a: Actions, i: nat)
    requires FairRun(s, a) && NeverStuck(s) && s(i).exec.Busy? && s(i).exec.at.WantDaemon?
    requires forall j :: j >= i ==> ExecAt(s, s(i).exec, s(i).index, j)
    ensures Again(CallerAble(s), i)
  {
    var w := s(i).index;
    if !Again(CallerAble(s), i) {
      forall j | j >= i
        ensures HeldAt(s, w, j)
      {
        RunFull(s, a, j);
        assert ExecAt(s, s(i).exec, w, j) && NotStuckAt(s, j);
        assert !CallerAble(s)(j);
        NotStuckMoves(s(j));
      }
      NotHeldForever(s, a, w, i);
    }
  }

  lemma CallerIsAble(s: States, a: Actions, i: nat, m: nat)
    requires FairRun(s, a) && NeverStuck(s) && s(i).exec.Busy?
    requires forall j :: j >= i ==> ExecAt(s, s(i).exec, s(i).index, j)
    ensures Again(CallerAble(s), m)
  {
    var n := if m < i then i else m;
    assert ExecAt(s, s(i).exec, s(i).index, n) && NotStuckAt(s, n);
    RunFull(s, a, n);
    if AdvanceStep(s(n)).Some? {
      assert CallerAble(s)(n);
    } else {
      NotStuckMoves(s(n));
      DaemonGetsFree(s, a, n);
      var j :| j >= n && CallerAble(s)(j);
      assert j >= m;
    }
  }

  lemma CallAdvances(s: States, a: Actions, i: nat) returns (j: nat)
    requires FairRun(s, a) && NeverStuck(s) && s(i).exec.Busy?
    ensures j >= i && a(j).Advance? && s(j).exec == s(i).exec && AdvanceStep(s(j)) == Some(s(j + 1))
  {
    if !Again(CallerActs(a), i) {
      forall m | m >= i
        ensures ExecAt(s, s(i).exec, s(i).index, m)
      {
        forall k | i <= k < m
          ensures !CallerActs(a)(k)
        {
        }
        ExecStays(s, a, i, m);
      }
      forall m: nat
        ensures Again(CallerAble(s), m)
      {
        CallerIsAble(s, a, i, m);
      }
    }
    assert Again(CallerActs(a), i);
    var last :| last >= i && CallerActs(a)(last);
    j := First(CallerActs(a), i, last);
    ExecStays(s, a, i, j);
    assert StepsAt(s, a, j);
  }

  /** `j` is the first moment after the call. */
  lemma {:induction false} CallEnds(s: States, a: Actions, i: nat) returns (j: nat)
    requires FairRun(s, a) && NeverStuck(s) && s(i).exec.Busy?
    ensures j > i && s(j).exec.Idle? && AdvanceStep(s(j - 1)) == Some(s(j))
    ensures s(j - 1).exec.Busy? && s(j - 1).exec.call == s(i).exec.call
    decreases CallRank(s(i).exec)
  {
    j := CallAdvances(s, a, i);
    AdvanceLowersRank(s(j));
    j := j + 1;
    if s(j).exec.Busy? {
      j := CallEnds(s, a, j);
    }
  }

  lemma BlockedStep(e: Engine, a: Action, call: Call)
    requires call in e.blocked && Step(e, a).Some?
    requires a.Enter? && a.k < |e.blocked| ==> e.blocked[a.k] != call
    ensures call in Step(e, a).value.blocked
  {
    var k :| 0 <= k < |e.blocked| && e.blocked[k] == call;
    var after := Step(e, a).value;
    if a.Enter? {
      assert after.blocked[if k < a.k then k else k - 1] == call;
    } else {
      BlockedGrows(e, a);
      assert after.blocked[k] == call;
    }
  }

  lemma BlockedGrows(e: Engine, a: Action)
    requires !a.Enter? && Step(e, a).Some?
    ensures e.blocked <= Step(e, a).value.blocked
  {
  }

  lemma {:induction false} StaysBlocked(s: States, a: Actions, call: Call, i: nat, m: nat)
    requires IsRun(s, a) && i <= m && call in s(i).blocked && forall k | i <= k < m :: !EnterActs(s, a, call)(k)
    ensures call in s(m).blocked
    decreases m - i
  {
    if i < m {
      assert StepsAt(s, a, i) && !EnterActs(s, a, call)(i);
      BlockedStep(s(i), a(i), call);
      StaysBlocked(s, a, call, i + 1, m);
    }
  }

  /** A blocked call gets the executor mutex. */
  lemma CallEnters(s: States, a: Actions, call: Call, i: nat) returns (j: nat)
    requires FairRun(s, a) && NeverStuck(s) && call in s(i).blocked
    ensures j > i && s(j).exec == Busy(call, Entered)
  {
    assert MutexFair(s, a, call);
    if !Again(EnterActs(s, a, call), i) {
      forall m: nat
        ensures Again(EnterAble(s, call), m)
      {
        var n := if m < i then i else m;
        if s(n).exec.Busy? {
          n := CallEnds(s, a, n);
        }
        forall k | i <= k < n
          ensures !EnterActs(s, a, call)(k)
        {
        }
        StaysBlocked(s, a, call, i, n);
        assert EnterAble(s, call)(n);
      }
    }
    assert Again(EnterActs(s, a, call), i);
    var at :| at >= i && EnterActs(s, a, call)(at);
    assert StepsAt(s, a, at);
    j := at + 1;
  }

  // --- A worker's thread gets on ---

  predicate CallerHolds(e: Engine, w: nat) {
    w < |e.workers| && e.workers[w].dmx == BySubmitter
  }

  lemma FreeMutexEnables(e: Engine, w: nat)
    requires FullInv(e) && w < |e.workers| && e.workers[w].stopper.NotStopped?
    requires !CallerHolds(e, w) && !InCall(e, w)
    ensures WorkerEnabled(e, w)
  {
    assert WorkerInv(e.workers[w], SubOn(e, w), e.jthread);
  }

  /** When a call made by its task has returned, the worker's thread runs on. */
  lemma ReturnEnables(e: Engine, w: nat)
    requires FullInv(e) && AdvanceStep(e).Some? && AdvanceStep(e).value.exec.Idle? && e.exec.call.from == Some(w)
    ensures WorkerEnabled(AdvanceStep(e).value, w)
  {
    assert RunsTask(e, e.exec.call.from);
    ReturnChangesNoWorker(e);
    ReturnedRuns(AdvanceStep(e).value, w);
  }

  lemma ReturnedRuns(e: Engine, w: nat)
    requires w < |e.workers| && e.workers[w].phase.Running? && e.exec.Idle?
    requires forall k | 0 <= k < |e.blocked| :: e.blocked[k].from != Some(w)
    ensures WorkerEnabled(e, w)
  {
    assert !InCall(e, w);
  }

  lemma ReturnChangesNoWorker(e: Engine)
    requires AdvanceStep(e).Some? && AdvanceStep(e).value.exec.Idle?
    ensures AdvanceStep(e).value.blocked == e.blocked && e.workers <= AdvanceStep(e).value.workers
  {
  }

  lemma InCallEnds(s: States, a: Actions, w: nat, i: nat)
    requires FairRun(s, a) && NeverStuck(s) && InCall(s(i), w)
    ensures Again(WorkerAble(s, w), i)
  {
    var start := i;
    if !(s(i).exec.Busy? && s(i).exec.call.from == Some(w)) {
      var k :| 0 <= k < |s(i).blocked| && s(i).blocked[k].from == Some(w);
      start := CallEnters(s, a, s(i).blocked[k], i);
    }
    var j := CallEnds(s, a, start);
    RunFull(s, a, j - 1);
    ReturnEnables(s(j - 1), w);
    assert WorkerAble(s, w)(j);
  }

  lemma EnabledEventually(s: States, a: Actions, w: nat, i: nat)
    requires FairRun(s, a) && NeverStuck(s) && NeverStopped(s, w) && w < |s(i).workers|
    ensures Again(WorkerAble(s, w), i)
  {
    var n := i;
    RunFull(s, a, i);
    assert WorkerInv(s(i).workers[w], SubOn(s(i), w), s(i).jthread);
    if CallerHolds(s(i), w) {
      n := CallEnds(s, a, i);
      WorkersStay(s, a, i, n);
      RunFull(s, a, n);
      assert WorkerInv(s(n).workers[w], SubOn(s(n), w), s(n).jthread);
    }
    if InCall(s(n), w) {
      InCallEnds(s, a, w, n);
      var j :| j >= n && WorkerAble(s, w)(j);
      assert j >= i;
    } else {
      assert UnstoppedAt(s, w, n);
      FreeMutexEnables(s(n), w);
      assert WorkerAble(s, w)(n);
    }
  }

  // --- Every dispatched task gets executed ---

  predicate Dispatched(e: Engine, w: nat, target: nat) {
    w < |e.workers| && target < |e.workers[w].dispatched|
  }

  predicate Done(e: Engine, w: nat, target: nat) {
    w < |e.workers| && target < |e.workers[w].executed|
  }

  lemma StepLowersRank(s: States, a: Actions, w: nat, target: nat, i: nat)
    requires IsRun(s, a) && NeverStopped(s, w) && Dispatched(s(i), w, target) && !Done(s(i), w, target)
    ensures Dispatched(s(i + 1), w, target) && s(i).workers[w].dispatched <= s(i + 1).workers[w].dispatched
    ensures var k, after := s(i).workers[w], s(i + 1).workers[w];
            !Done(s(i + 1), w, target) ==>
              if ActsAt(a, w, i) then Rank(after, target) < Rank(k, target) else Rank(after, target) == Rank(k, target)
  {
    RunFull(s, a, i);
    assert StepsAt(s, a, i) && UnstoppedAt(s, w, i);
    var k := s(i).workers[w];
    if ActsAt(a, w, i) {
      assert WorkerInv(k, SubOn(s(i), w), s(i).jthread);
      WorkerStepLowersRank(k, SubOn(s(i), w), s(i).jthread, a(i).cause, InCall(s(i), w), target);
    } else {
      OthersKeepRank(s(i), a(i), w);
    }
  }

  /** From `i` to `m` the target gets done, or the rank has not grown. */
  lemma {:induction false} RankNeverGrows(s: States, a: Actions, w: nat, target: nat, i: nat, m: nat) returns (j: nat)
    requires IsRun(s, a) && NeverStopped(s, w) && Dispatched(s(i), w, target) && !Done(s(i), w, target) && i <= m
    ensures i <= j <= m && Dispatched(s(j), w, target)
    ensures s(i).workers[w].dispatched <= s(j).workers[w].dispatched
    ensures Done(s(j), w, target) || (j == m && Rank(s(m).workers[w], target) <= Rank(s(i).workers[w], target))
    decreases m - i
  {
    if i == m {
      j := i;
    } else {
      StepLowersRank(s, a, w, target, i);
      if Done(s(i + 1), w, target) {
        j := i + 1;
      } else {
        j := RankNeverGrows(s, a, w, target, i + 1, m);
      }
    }
  }

  lemma {:induction false} Descend(s: States, a: Actions, w: nat, target: nat, i: nat) returns (j: nat)
    requires IsRun(s, a) && NeverStopped(s, w) && Dispatched(s(i), w, target) && !Done(s(i), w, target)
    requires forall m :: Again(WorkerActs(a, w), m)
    ensures j >= i && Done(s(j), w, target) && s(i).workers[w].dispatched <= s(j).workers[w].dispatched
    decreases Rank(s(i).workers[w], target)
  {
    assert Again(WorkerActs(a, w), i);
    var m :| m >= i && WorkerActs(a, w)(m);
    j := RankNeverGrows(s, a, w, target, i, m);
    if !Done(s(j), w, target) {
      StepLowersRank(s, a, w, target, m);
      if Done(s(m + 1), w, target) {
        j := m + 1;
      } else {
        j := Descend(s, a, w, target, m + 1);
      }
    }
  }

  /** At `j` the task at position `target` of the dispatch history has been executed, as that task. */
  ghost predicate ExecutedAt(s: States, w: nat, target: nat, task: Task, j: nat) {
    Done(s(j), w, target) && s(j).workers[w].executed[target] == task
  }

  /**
   Along every fair run in which no call gets stuck, each task dispatched to an unstopped worker is
   executed, in its turn. No notification is ever relied on, and tasks may call their executor.
   */
  lemma EveryTaskIsExecuted(s: States, a: Actions, w: nat, target: nat, i: nat)
    requires FairRun(s, a) && NeverStuck(s) && NeverStopped(s, w) && Dispatched(s(i), w, target)
    ensures exists j :: j >= i && ExecutedAt(s, w, target, s(i).workers[w].dispatched[target], j)
  {
    forall m: nat
      ensures Again(WorkerAble(s, w), m)
    {
      var n := if m < i then i else m;
      WorkersStay(s, a, i, n);
      EnabledEventually(s, a, w, n);
      var j :| j >= n && WorkerAble(s, w)(j);
      assert j >= m;
    }
    assert WorkerFair(s, a, w);
    var j := i;
    if !Done(s(i), w, target) {
      j := Descend(s, a, w, target, i);
    }
    RunFull(s, a, j);
    assert WorkerInv(s(j).workers[w], SubOn(s(j), w), s(j).jthread);
    ExecutedIsPrefix(s(j).workers[w]);
    assert ExecutedAt(s, w, target, s(i).workers[w].dispatched[target], j);
  }

  // --- Every submitted task gets executed ---

  lemma {:induction false} CallGetsToPush(s: States, a: Actions, i: nat) returns (j: nat)
    requires FairRun(s, a) && NeverStuck(s) && s(i).capacity > 0 && s(i).exec.Busy? && s(i).exec.call.task.Some?
    requires CallRank(s(i).exec) >= 3
    ensures j >= i && AdvanceStep(s(j)) == Some(s(j + 1))
    ensures s(j).exec == Busy(s(i).exec.call, HasQueue)
    decreases CallRank(s(i).exec)
  {
    j := CallAdvances(s, a, i);
    RunFull(s, a, j);
    WorkersStay(s, a, i, j);
    if !s(j).exec.at.HasQueue? {
      AdvanceLowersRank(s(j));
      EnteredGetsWorker(s(j));
      WorkersStay(s, a, j, j + 1);
      j := CallGetsToPush(s, a, j + 1);
    }
  }

  lemma EnteredGetsWorker(e: Engine)
    requires Inv(e) && e.capacity > 0 && AdvanceStep(e).Some? && e.exec.call.task.Some?
    ensures CallRank(e.exec) > 3 ==> AdvanceStep(e).value.exec.Busy? && CallRank(AdvanceStep(e).value.exec) >= 3
  {
    IndexInRange(|e.accepted|, e.capacity);
  }

  /** Dispatch histories only grow. */
  lemma {:induction false} HistoriesGrow(s: States, a: Actions, w: nat, i: nat, m: nat)
    requires IsRun(s, a) && i <= m && w < |s(i).workers|
    ensures w < |s(m).workers| && s(i).workers[w].dispatched <= s(m).workers[w].dispatched
    decreases m - i
  {
    if i < m {
      RunFull(s, a, i);
      assert StepsAt(s, a, i);
      StepGrowsHistory(s(i), a(i), w);
      HistoriesGrow(s, a, w, i + 1, m);
    }
  }

  lemma StepGrowsHistory(e: Engine, a: Action, w: nat)
    requires Step(e, a).Some? && w < |e.workers|
    ensures w < |Step(e, a).value.workers| && e.workers[w].dispatched <= Step(e, a).value.workers[w].dispatched
  {
    StepOnWorker(e, a, w);
  }

  /** A call inside the executor that has not pushed its task yet hands it to a worker, as its newest task. */
  lemma ExecIsAccepted(s: States, a: Actions, i: nat) returns (w: nat, target: nat, j: nat)
    requires FairRun(s, a) && NeverStuck(s) && s(i).capacity > 0 && s(i).exec.Busy? && s(i).exec.call.task.Some?
    requires CallRank(s(i).exec) >= 3
    ensures j > i && Dispatched(s(j), w, target) && s(j).workers[w].dispatched[target] == s(i).exec.call.task.value
    ensures !Dispatched(s(i), w, target) && s(i).exec.call.task.value in s(j).accepted
  {
    j := CallGetsToPush(s, a, i);
    w, target := s(j).index, |s(j).workers[s(j).index].dispatched|;
    if w < |s(i).workers| {
      HistoriesGrow(s, a, w, i, j);
    }
    j := j + 1;
  }

  /** So does a blocked one. */
  lemma CallIsAccepted(s: States, a: Actions, call: Call, i: nat) returns (w: nat, target: nat, j: nat)
    requires FairRun(s, a) && NeverStuck(s) && s(i).capacity > 0 && call in s(i).blocked && call.task.Some?
    ensures j > i && Dispatched(s(j), w, target) && s(j).workers[w].dispatched[target] == call.task.value
    ensures !Dispatched(s(i), w, target) && call.task.value in s(j).accepted
  {
    var start := CallEnters(s, a, call, i);
    WorkersStay(s, a, i, start);
    w, target, j := ExecIsAccepted(s, a, start);
    if w < |s(i).workers| {
      HistoriesGrow(s, a, w, i, start);
    }
  }

  /**
   Along every fair run without stops in which no call gets stuck, every task whose submission has come to
   the executor mutex is dispatched anew and that dispatch is executed.
   */
  lemma EverySubmittedTaskIsExecuted(s: States, a: Actions, call: Call, i: nat)
    requires FairRun(s, a) && NeverStuck(s) && forall w :: NeverStopped(s, w)
    requires s(i).capacity > 0 && call in s(i).blocked && call.task.Some?
    ensures exists j, w, target ::
              j > i && !Dispatched(s(i), w, target) && ExecutedAt(s, w, target, call.task.value, j)
  {
    var w, target, start := CallIsAccepted(s, a, call, i);
    assert NeverStopped(s, w);
    EveryTaskIsExecuted(s, a, w, target, start);
    var j :| j >= start && ExecutedAt(s, w, target, call.task.value, j);
    assert j > i;
  }

  // --- Exactly the runs that make progress ---

  lemma {:induction false} StuckStaysInRun(s: States, a: Actions, i: nat, m: nat)
    requires IsRun(s, a) && Stuck(s(i)) && i <= m
    ensures Stuck(s(m)) && s(m).index == s(i).index
    ensures s(i).index < |s(i).workers| && s(i).index < |s(m).workers|
    ensures s(m).workers[s(i).index].executed == s(i).workers[s(i).index].executed
    decreases m - i
  {
    RunFull(s, a, i);
    InCallRuns(s(i), s(i).index);
    if i < m {
      assert StepsAt(s, a, i);
      StuckStays(s(i), a(i));
      StuckStaysInRun(s, a, i + 1, m);
    }
  }

  ghost predicate GetsDone(s: States, w: nat, target: nat, i: nat) {
    exists j :: j >= i && Done(s(j), w, target)
  }

  /** A fair run without stops executes all that is dispatched exactly when no call in it gets stuck. */
  lemma AllIsExecutedIff(s: States, a: Actions)
    requires FairRun(s, a) && forall w :: NeverStopped(s, w)
    ensures NeverStuck(s) <==>
            forall w: nat, target: nat, i: nat | Dispatched(s(i), w, target) :: GetsDone(s, w, target, i)
  {
    if NeverStuck(s) {
      forall w: nat, target: nat, i: nat | Dispatched(s(i), w, target)
        ensures GetsDone(s, w, target, i)
      {
        assert NeverStopped(s, w);
        EveryTaskIsExecuted(s, a, w, target, i);
        var j :| j >= i && ExecutedAt(s, w, target, s(i).workers[w].dispatched[target], j);
        assert Done(s(j), w, target);
      }
    } else {
      var i :| !NotStuckAt(s, i);
      StuckLeavesUndone(s, a, i);
    }
  }

  /** The task that runs on the worker of a stuck call is never done. */
  lemma StuckLeavesUndone(s: States, a: Actions, i: nat)
    requires IsRun(s, a) && Stuck(s(i))
    ensures var w := s(i).index;
            w < |s(i).workers| && Dispatched(s(i), w, |s(i).workers[w].executed|)
            && !GetsDone(s, w, |s(i).workers[w].executed|, i)
  {
    RunFull(s, a, i);
    var w := s(i).index;
    InCallRuns(s(i), w);
    assert WorkerInv(s(i).workers[w], SubOn(s(i), w), s(i).jthread);
    forall j | j >= i
      ensures !Done(s(j), w, |s(i).workers[w].executed|)
    {
      StuckStaysInRun(s, a, i, j);
    }
  }
}
