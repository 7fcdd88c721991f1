/**
 Promises on the task engine: the composition of both models, in which a worker of the engine carries the
 tasks that settle promises. The engine's workers refine the ledger's lanes: neither side ever keeps the
 other from a step, so what is proved of either holds of the whole.
 */
module LaneRefinement {
  import opened Prelude
  import E = TaskEngine
  import S = TaskSafety
  import P = PromiseLedger

  /** A task is the promise that it settles; `sent` are the promises whose task has been handed over. */
  datatype System = System(engine: E.Engine, vm: P.Vm, sent: set<nat>)

  datatype Action =
    | Vm(step: P.Action)                             // clients, other VMs, and the life of the VM
    | Body(w: nat, granted: bool, threw: bool)       // the task running on worker `w` makes a step
    | Engine(act: E.Action)                          // any step of the engine outside of tasks

  function Init(capacity: nat, jthread: bool, hasContext: bool, others: set<P.Handle>): System {
    System(E.Init(capacity, jthread), P.Init(hasContext, others), {})
  }

  /** What a step of the engine means to the lanes, if anything. */
  function LaneAction(e: E.Engine, a: E.Action): Option<P.Action> {
    match a
    case Advance =>
      if e.exec.Idle? || e.exec.call.task.None? then None
      else if e.exec.at.Entered? && |e.workers| < e.capacity then Some(P.OpenLane)
      else if e.exec.at.HasQueue? then Some(P.Dispatch(e.exec.call.task.value, e.index))
      else None
    case WorkerAct(w, _) =>
      if w < |e.workers| && e.workers[w].phase.Pop? && e.workers[w].queue != [] then Some(P.StartTask(w)) else None
    case StopAct(w) => if w < |e.workers| && e.workers[w].stopper.Flagged? then Some(P.CloseLane(w)) else None
    case _ => None
  }

  predicate RunsTask(e: E.Engine, w: nat) {
    w < |e.workers| && e.workers[w].phase.Running?
  }

  /** The task of promise `i` has still to be handed over. */
  predicate ToBeSent(s: System, i: nat) {
    i < |s.vm.promises| && s.vm.promises[i].stage.Submitting? && i !in s.sent
  }

  /** Calls of the executor hand over the tasks of promises, each once; what a task does is `Body`. */
  predicate MayAct(s: System, a: E.Action) {
    match a
    case Submit(call) => call.from.None? && call.task.Some? && ToBeSent(s, call.task.value)
    case WorkerAct(w, _) => !RunsTask(s.engine, w)
    case _ => true
  }

  predicate LeavesLanes(a: P.Action) {
    !a.OpenLane? && !a.Dispatch? && !a.StartTask? && !a.LaneStep? && !a.CloseLane?
  }

  /** The exception of a callback reaches the loop of the worker. */
  predicate Throws(v: P.Vm, w: nat, threw: bool) {
    && threw && w < |v.lanes| && v.lanes[w].current.Some? && v.lanes[w].current.value < |v.promises|
    && var stage := v.promises[v.lanes[w].current.value].stage;
       stage.Run? && stage.pc.Calling?
  }

  function BodyCause(s: System, w: nat, threw: bool): E.Cause {
    E.Cause(false, Throws(s.vm, w, threw))
  }

  function Step(s: System, a: Action): Option<System> {
    match a
    case Vm(b) =>
      var v := P.Step(s.vm, b);
      if v.None? || !LeavesLanes(b) then None else Some(s.(vm := v.value))
    case Body(w, granted, threw) =>
      var v := P.Step(s.vm, P.LaneStep(w, granted, threw));
      if v.None? || w >= |v.value.lanes| then None
      else if v.value.lanes[w].current.Some? then Some(s.(vm := v.value))
      else
        var e := E.Step(s.engine, E.WorkerAct(w, BodyCause(s, w, threw)));
        if e.None? then None else Some(s.(vm := v.value, engine := e.value))
    case Engine(b) =>
      var e := E.Step(s.engine, b);
      if e.None? || !MayAct(s, b) then None
      else
        var sent := if b.Submit? && b.call.task.Some? then s.sent + {b.call.task.value} else s.sent;
        var lane := LaneAction(s.engine, b);
        if lane.None? then Some(System(e.value, s.vm, sent))
        else
          var v := P.Step(s.vm, lane.value);
          if v.None? then None else Some(System(e.value, v.value, sent))
  }

  function Run(s: System, actions: seq<Action>): Option<System> {
    if actions == [] then Some(s)
    else
      var before := Run(s, actions[..|actions| - 1]);
      if before.None? then None else Step(before.value, actions[|actions| - 1])
  }

  ghost predicate Reachable(s: System) {
    exists capacity, jthread, hasContext, others, actions ::
      Run(Init(capacity, jthread, hasContext, others), actions) == Some(s)
  }

  // --- The relation between workers and lanes ---

  /** The lane that a worker amounts to; it is closed once its stop has been joined. */
  function LaneOf(k: E.Worker): P.Lane {
    P.Lane(k.executed, if k.phase.Running? then Some(k.phase.task) else None, k.queue, k.stopper.Joined?, 0)
  }

  predicate SameLane(k: E.Worker, l: P.Lane) {
    LaneOf(k) == l.(leaked := 0)
  }

  predicate SameLanes(e: E.Engine, v: P.Vm) {
    |e.workers| == |v.lanes| && forall w | 0 <= w < |e.workers| :: SameLane(e.workers[w], v.lanes[w])
  }

  /** The call inside the executor has not pushed its task yet. */
  predicate BeforePush(e: E.Engine) {
    e.exec.Busy? && !e.exec.at.Pushed? && !e.exec.at.Released?
  }

  predicate Carries(s: System, call: E.Call) {
    call.from.None? && call.task.Some? && call.task.value in s.sent
  }

  predicate Waits(s: System, call: E.Call) {
    && Carries(s, call)
    && call.task.value < |s.vm.promises| && s.vm.promises[call.task.value].stage.Submitting?
  }

  /** Calls carry different tasks, each of a promise that is on its way to the executor. */
  predicate CallsInv(s: System) {
    && (s.engine.exec.Busy? ==> Carries(s, s.engine.exec.call))
    && (BeforePush(s.engine) ==> Waits(s, s.engine.exec.call))
    && (forall k | 0 <= k < |s.engine.blocked| :: Waits(s, s.engine.blocked[k]))
    && (BeforePush(s.engine) ==>
          forall k | 0 <= k < |s.engine.blocked| :: s.engine.blocked[k].task != s.engine.exec.call.task)
    && (forall j, k | 0 <= j < k < |s.engine.blocked| :: s.engine.blocked[j].task != s.engine.blocked[k].task)
  }

  predicate OnItsWay(e: E.Engine, i: nat) {
    || (BeforePush(e) && e.exec.call.task == Some(i))
    || exists k | 0 <= k < |e.blocked| :: e.blocked[k].task == Some(i)
  }

  /** No task that was handed over gets lost before it is queued, unless the executor has no worker at all. */
  predicate SentInv(s: System) {
    forall i | i in s.sent ::
      && i < |s.vm.promises| && !s.vm.promises[i].stage.Created?
      && (s.vm.promises[i].stage.Submitting? ==> OnItsWay(s.engine, i) || s.engine.capacity == 0)
  }

  ghost predicate Inv(s: System) {
    S.Inv(s.engine) && P.Inv(s.vm) && SameLanes(s.engine, s.vm) && CallsInv(s) && SentInv(s)
  }

  /** What the lane of worker `w` becomes, and that the others stay. */
  predicate LaneChanges(e: E.Engine, after: E.Engine, w: nat, lane: P.Lane) {
    && w < |e.workers| == |after.workers| && LaneOf(after.workers[w]) == lane
    && forall u | 0 <= u < |e.workers| && u != w :: after.workers[u] == e.workers[u]
  }

  lemma LanesFollow(e: E.Engine, after: E.Engine, v: P.Vm, w: nat, lane: P.Lane)
    requires SameLanes(e, v) && LaneChanges(e, after, w, lane.(leaked := 0))
    ensures forall vm: P.Vm | vm.lanes == v.lanes[w := lane] :: SameLanes(after, vm)
  {
    forall vm: P.Vm | vm.lanes == v.lanes[w := lane]
      ensures SameLanes(after, vm)
    {
      forall u | 0 <= u < |after.workers|
        ensures SameLane(after.workers[u], vm.lanes[u])
      {
        assert SameLane(e.workers[u], v.lanes[u]);
      }
    }
  }

  // --- Steps of the VM outside of lanes ---

  lemma VmStepFrame(v: P.Vm, b: P.Action)
    requires LeavesLanes(b) && P.Step(v, b).Some?
    ensures var after := P.Step(v, b).value;
            && after.lanes == v.lanes && |v.promises| <= |after.promises|
            && forall i | 0 <= i < |v.promises| && !v.promises[i].stage.Created? :: after.promises[i] == v.promises[i]
  {
  }

  lemma VmStepKeeps(s: System, b: P.Action)
    requires Inv(s) && Step(s, Vm(b)).Some?
    ensures Inv(Step(s, Vm(b)).value)
  {
    var after := Step(s, Vm(b)).value;
    P.StepKeepsInv(s.vm, b);
    VmStepFrame(s.vm, b);
    PromisesKept(s, after);
  }

  /** Calls and lanes only depend on the promises that are on their way. */
  lemma PromisesKept(s: System, after: System)
    requires CallsInv(s) && SentInv(s) && after.sent == s.sent && |s.vm.promises| <= |after.vm.promises|
    requires after.engine.(workers := s.engine.workers) == s.engine
    requires forall i | 0 <= i < |s.vm.promises| ::
               s.vm.promises[i].stage.Submitting? ==> after.vm.promises[i].stage.Submitting?
    requires forall i | 0 <= i < |s.vm.promises| && !s.vm.promises[i].stage.Created? ::
               !after.vm.promises[i].stage.Created?
               && (after.vm.promises[i].stage.Submitting? ==> s.vm.promises[i].stage.Submitting?)
    ensures CallsInv(after) && SentInv(after)
  {
    forall k | 0 <= k < |s.engine.blocked|
      ensures Waits(after, after.engine.blocked[k])
    {
      assert Waits(s, s.engine.blocked[k]);
    }
    forall i | i in s.sent
      ensures OnItsWay(after.engine, i) == OnItsWay(s.engine, i)
    {
    }
  }

  // --- Steps of a running task ---

  /** The task that a worker runs is the one that its lane runs, and it is outside every call. */
  lemma RunningIsCurrent(s: System, w: nat)
    requires Inv(s) && w < |s.vm.lanes| && s.vm.lanes[w].current.Some?
    ensures w < |s.engine.workers| && s.engine.workers[w].phase == E.Running(s.vm.lanes[w].current.value)
    ensures P.Runs(s.vm, s.vm.lanes[w].current.value, w) && !E.InCall(s.engine, w)
  {
    assert SameLane(s.engine.workers[w], s.vm.lanes[w]);
    assert P.LaneInv(s.vm.promises, s.vm.lanes[w], w);
    forall k | 0 <= k < |s.engine.blocked|
      ensures s.engine.blocked[k].from.None?
    {
      assert Waits(s, s.engine.blocked[k]);
    }
  }

  /** A step of a body leaves the lanes alone, or ends what its own lane runs. */
  lemma BodyFrame(v: P.Vm, i: nat, w: nat, granted: bool, threw: bool)
    requires P.Inv(v) && P.Runs(v, i, w)
    ensures var after, l := P.BodyStep(v, i, w, granted, threw), v.lanes[w];
            && |after.promises| == |v.promises| && |after.lanes| == |v.lanes|
            && (forall j | 0 <= j < |v.promises| && j != i :: after.promises[j] == v.promises[j])
            && (after.promises[i].stage.Run? || after.promises[i].stage.Finished?)
            && after.lanes ==
                 if after.lanes[w].current.Some? then v.lanes
                 else v.lanes[w := l.(current := None, done := l.done + [i], leaked := after.lanes[w].leaked)]
  {
    P.DepthOfBody(v, i, w);
    P.EffectIsSound(v, i, w, granted, threw);
    match P.BodyEffect(v, i, w, granted, threw) {
      case Moves(vm, p) =>
      case Ends(vm, outcome) =>
    }
  }

  /** The end of a running task, as the engine sees it. */
  lemma TaskEnds(e: E.Engine, w: nat, cause: E.Cause)
    requires S.Inv(e) && w < |e.workers| && e.workers[w].phase.Running? && !E.InCall(e, w)
    ensures var a, l := E.WorkerAct(w, cause), LaneOf(e.workers[w]);
            && E.Step(e, a).Some? && E.Step(e, a).value.(workers := e.workers) == e
            && LaneChanges(e, E.Step(e, a).value, w, l.(current := None, done := l.done + [e.workers[w].phase.task]))
  {
  }

  /** A step of a body that goes on. */
  lemma BodyRunsOn(s: System, w: nat, granted: bool, threw: bool)
    requires Inv(s) && P.Step(s.vm, P.LaneStep(w, granted, threw)).Some?
    requires w < |s.vm.lanes|
    requires var v := P.Step(s.vm, P.LaneStep(w, granted, threw)).value; w < |v.lanes| && v.lanes[w].current.Some?
    ensures var v := P.Step(s.vm, P.LaneStep(w, granted, threw)).value;
            Step(s, Body(w, granted, threw)) == Some(s.(vm := v)) && v.lanes == s.vm.lanes && SameLanes(s.engine, v)
  {
    RunningIsCurrent(s, w);
    BodyFrame(s.vm, s.vm.lanes[w].current.value, w, granted, threw);
  }

  /** A step that ends the body. */
  lemma BodyIsOver(s: System, w: nat, granted: bool, threw: bool)
    requires Inv(s) && P.Step(s.vm, P.LaneStep(w, granted, threw)).Some?
    requires w < |s.vm.lanes|
    requires var v := P.Step(s.vm, P.LaneStep(w, granted, threw)).value; w < |v.lanes| && v.lanes[w].current.None?
    ensures var v, e := P.Step(s.vm, P.LaneStep(w, granted, threw)).value,
                        E.Step(s.engine, E.WorkerAct(w, BodyCause(s, w, threw)));
            && e.Some? && Step(s, Body(w, granted, threw)) == Some(s.(vm := v, engine := e.value))
            && e.value.(workers := s.engine.workers) == s.engine && SameLanes(e.value, v)
  {
    RunningIsCurrent(s, w);
    BodyFrame(s.vm, s.vm.lanes[w].current.value, w, granted, threw);
    TaskEnds(s.engine, w, BodyCause(s, w, threw));
    var l, after := s.vm.lanes[w], P.Step(s.vm, P.LaneStep(w, granted, threw)).value;
    assert SameLane(s.engine.workers[w], l);
    LanesFollow(s.engine, E.Step(s.engine, E.WorkerAct(w, BodyCause(s, w, threw))).value, s.vm, w, after.lanes[w]);
  }

  /** The engine never keeps a task from a step, and both sides end it together. */
  lemma BodyGoesOn(s: System, w: nat, granted: bool, threw: bool)
    requires Inv(s) && P.Step(s.vm, P.LaneStep(w, granted, threw)).Some?
    ensures Step(s, Body(w, granted, threw)).Some? && Inv(Step(s, Body(w, granted, threw)).value)
  {
    RunningIsCurrent(s, w);
    BodyFrame(s.vm, s.vm.lanes[w].current.value, w, granted, threw);
    P.StepKeepsInv(s.vm, P.LaneStep(w, granted, threw));
    if P.Step(s.vm, P.LaneStep(w, granted, threw)).value.lanes[w].current.Some? {
      BodyRunsOn(s, w, granted, threw);
    } else {
      BodyIsOver(s, w, granted, threw);
      S.StepKeepsInv(s.engine, E.WorkerAct(w, BodyCause(s, w, threw)));
    }
    BodyKeepsCalls(s, Step(s, Body(w, granted, threw)).value, w, granted, threw);
  }

  lemma BodyKeepsCalls(s: System, after: System, w: nat, granted: bool, threw: bool)
    requires Inv(s) && P.Step(s.vm, P.LaneStep(w, granted, threw)) == Some(after.vm)
    requires after.sent == s.sent && after.engine.(workers := s.engine.workers) == s.engine
    ensures CallsInv(after) && SentInv(after)
  {
    RunningIsCurrent(s, w);
    BodyFrame(s.vm, s.vm.lanes[w].current.value, w, granted, threw);
    PromisesKept(s, after);
  }

  // --- Steps of the engine ---

  /** A step of the engine that means nothing to the lanes leaves them alone. */
  lemma QuietWorker(e: E.Engine, a: E.Action, w: nat)
    requires S.Inv(e) && E.Step(e, a).Some? && LaneAction(e, a).None? && w < |e.workers|
    requires a.WorkerAct? ==> !RunsTask(e, a.w)
    ensures |E.Step(e, a).value.workers| == |e.workers|
    ensures LaneOf(E.Step(e, a).value.workers[w]) == LaneOf(e.workers[w])
  {
    assert S.WorkerInv(e.workers[w], S.SubOn(e, w), e.jthread);
    if a.Advance? {
      QuietAdvance(e);
    }
    S.StepOnWorker(e, a, w);
  }

  lemma QuietAdvance(e: E.Engine)
    requires S.Inv(e) && E.AdvanceStep(e).Some? && LaneAction(e, E.Advance).None?
    ensures |E.AdvanceStep(e).value.workers| == |e.workers| && !(e.exec.Busy? && e.exec.at.HasQueue?)
  {
  }

  lemma QuietKeepsLanes(e: E.Engine, v: P.Vm, a: E.Action)
    requires S.Inv(e) && SameLanes(e, v) && E.Step(e, a).Some? && LaneAction(e, a).None?
    requires a.WorkerAct? ==> !RunsTask(e, a.w)
    ensures SameLanes(E.Step(e, a).value, v)
  {
    var after := E.Step(e, a).value;
    if e.workers == [] && a.Advance? {
      QuietAdvance(e);
    }
    forall w | 0 <= w < |e.workers|
      ensures |after.workers| == |e.workers| && SameLane(after.workers[w], v.lanes[w])
    {
      QuietWorker(e, a, w);
      assert SameLane(e.workers[w], v.lanes[w]);
    }
  }

  lemma PopIsStart(e: E.Engine, w: nat, cause: E.Cause)
    requires S.Inv(e) && E.Step(e, E.WorkerAct(w, cause)).Some? && LaneAction(e, E.WorkerAct(w, cause)).Some?
    ensures !LaneOf(e.workers[w]).closed && LaneOf(e.workers[w]).current.None? && e.workers[w].queue != []
    ensures var after, l := E.Step(e, E.WorkerAct(w, cause)).value, LaneOf(e.workers[w]);
            LaneChanges(e, after, w, l.(current := Some(l.queue[0]), queue := l.queue[1..]))
  {
    assert S.WorkerInv(e.workers[w], S.SubOn(e, w), e.jthread);
  }

  /** A worker that takes a task off its queue finds the lane ready to start it. */
  lemma StartFollows(s: System, w: nat, cause: E.Cause)
    requires Inv(s) && E.Step(s.engine, E.WorkerAct(w, cause)).Some?
    requires LaneAction(s.engine, E.WorkerAct(w, cause)) == Some(P.StartTask(w))
    ensures P.Step(s.vm, P.StartTask(w)).Some?
    ensures SameLanes(E.Step(s.engine, E.WorkerAct(w, cause)).value, P.Step(s.vm, P.StartTask(w)).value)
    ensures StagesFollow(s.vm, P.Step(s.vm, P.StartTask(w)).value)
  {
    PopIsStart(s.engine, w, cause);
    var l := s.vm.lanes[w];
    assert SameLane(s.engine.workers[w], l);
    assert P.LaneInv(s.vm.promises, l, w) && l.queue[0] in l.queue;
    LanesFollow(s.engine, E.Step(s.engine, E.WorkerAct(w, cause)).value, s.vm, w,
                l.(current := Some(l.queue[0]), queue := l.queue[1..]));
  }

  /** No promise gets on its way, or off it. */
  predicate StagesFollow(v: P.Vm, after: P.Vm) {
    && |after.promises| == |v.promises|
    && forall i | 0 <= i < |v.promises| ::
         && after.promises[i].stage.Submitting? == v.promises[i].stage.Submitting?
         && after.promises[i].stage.Created? == v.promises[i].stage.Created?
  }

  lemma JoinIsClose(e: E.Engine, w: nat)
    requires S.Inv(e) && E.Step(e, E.StopAct(w)).Some? && LaneAction(e, E.StopAct(w)).Some?
    ensures w < |e.workers| && LaneOf(e.workers[w]).current.None?
    ensures LaneChanges(e, E.Step(e, E.StopAct(w)).value, w, LaneOf(e.workers[w]).(closed := true))
  {
  }

  lemma CloseFollows(s: System, w: nat)
    requires Inv(s) && E.Step(s.engine, E.StopAct(w)).Some?
    requires LaneAction(s.engine, E.StopAct(w)) == Some(P.CloseLane(w))
    ensures P.Step(s.vm, P.CloseLane(w)).Some?
    ensures SameLanes(E.Step(s.engine, E.StopAct(w)).value, P.Step(s.vm, P.CloseLane(w)).value)
    ensures StagesFollow(s.vm, P.Step(s.vm, P.CloseLane(w)).value)
  {
    JoinIsClose(s.engine, w);
    var l := s.vm.lanes[w];
    assert SameLane(s.engine.workers[w], l);
    LanesFollow(s.engine, E.Step(s.engine, E.StopAct(w)).value, s.vm, w, l.(closed := true));
  }

  lemma PushIsDispatch(e: E.Engine)
    requires S.Inv(e) && e.exec.Busy? && e.exec.at.HasQueue?
    ensures e.exec.call.task.Some? && E.AdvanceStep(e).Some? && e.index < |e.workers|
    ensures var after, l := E.AdvanceStep(e).value, LaneOf(e.workers[e.index]);
            && after.exec == e.exec.(at := E.Pushed) && after.blocked == e.blocked && after.capacity == e.capacity
            && LaneChanges(e, after, e.index, l.(queue := l.queue + [e.exec.call.task.value]))
  {
    S.IndexInRange(|e.accepted|, e.capacity);
  }

  /** A push finds the promise on its way. */
  lemma DispatchFollows(s: System)
    requires Inv(s) && s.engine.exec.Busy? && s.engine.exec.at.HasQueue?
    ensures E.AdvanceStep(s.engine).Some? && s.engine.exec.call.task.Some?
    ensures var t, w := s.engine.exec.call.task.value, s.engine.index;
            && P.Step(s.vm, P.Dispatch(t, w)).Some?
            && SameLanes(E.AdvanceStep(s.engine).value, P.Step(s.vm, P.Dispatch(t, w)).value)
  {
    PushIsDispatch(s.engine);
    var t, w := s.engine.exec.call.task.value, s.engine.index;
    var l := s.vm.lanes[w];
    assert SameLane(s.engine.workers[w], l);
    LanesFollow(s.engine, E.AdvanceStep(s.engine).value, s.vm, w, l.(queue := l.queue + [t]));
  }

  lemma GrowIsOpen(e: E.Engine)
    requires S.Inv(e) && LaneAction(e, E.Advance) == Some(P.OpenLane)
    ensures E.AdvanceStep(e).Some?
    ensures var after := E.AdvanceStep(e).value;
            after == e.(workers := e.workers + [E.NEW_WORKER], exec := e.exec.(at := E.WantDaemon))
  {
    S.IndexInRange(|e.accepted|, e.capacity);
  }

  // --- Calls on their way ---

  lemma SubmitKeepsCalls(s: System, call: E.Call)
    requires CallsInv(s) && SentInv(s) && MayAct(s, E.Submit(call)) && E.Step(s.engine, E.Submit(call)).Some?
    ensures var after := System(E.Step(s.engine, E.Submit(call)).value, s.vm, s.sent + {call.task.value});
            CallsInv(after) && SentInv(after)
  {
    var after := System(E.Step(s.engine, E.Submit(call)).value, s.vm, s.sent + {call.task.value});
    forall k | 0 <= k < |after.engine.blocked|
      ensures Waits(after, after.engine.blocked[k])
      ensures k < |s.engine.blocked| ==> after.engine.blocked[k].task != call.task
    {
      if k < |s.engine.blocked| {
        assert Waits(s, s.engine.blocked[k]);
      }
    }
    forall i | i in after.sent && after.vm.promises[i].stage.Submitting? && after.engine.capacity > 0
      ensures OnItsWay(after.engine, i)
    {
      if i == call.task.value {
        assert after.engine.blocked[|s.engine.blocked|].task == Some(i);
      } else {
        StillOnItsWay(s.engine, after.engine, i);
      }
    }
  }

  lemma StillOnItsWay(e: E.Engine, after: E.Engine, i: nat)
    requires OnItsWay(e, i) && e.blocked <= after.blocked && after.exec == e.exec
    ensures OnItsWay(after, i)
  {
    if !(BeforePush(e) && e.exec.call.task == Some(i)) {
      var k :| 0 <= k < |e.blocked| && e.blocked[k].task == Some(i);
      assert after.blocked[k] == e.blocked[k];
    }
  }

  lemma EnterKeepsCalls(s: System, k: nat)
    requires CallsInv(s) && SentInv(s) && E.Step(s.engine, E.Enter(k)).Some?
    ensures var after := s.(engine := E.Step(s.engine, E.Enter(k)).value); CallsInv(after) && SentInv(after)
  {
    var after := s.(engine := E.Step(s.engine, E.Enter(k)).value);
    var b, c := s.engine.blocked, after.engine.blocked;
    assert forall j | 0 <= j < |c| :: c[j] == b[if j < k then j else j + 1];
    assert Waits(s, b[k]);
    forall j | 0 <= j < |c|
      ensures Waits(after, c[j]) && c[j].task != b[k].task
    {
      assert Waits(s, b[if j < k then j else j + 1]);
    }
    forall i | i in s.sent && OnItsWay(s.engine, i)
      ensures OnItsWay(after.engine, i)
    {
      var j :| 0 <= j < |b| && b[j].task == Some(i);
      if j != k {
        assert c[if j < k then j else j - 1].task == Some(i);
      }
    }
  }

  /** The caller inside goes on without a push: it keeps its task until then, and only an empty pool loses it. */
  lemma AdvanceKeepsCalls(s: System, after: System)
    requires S.Inv(s.engine) && CallsInv(s) && SentInv(s) && E.AdvanceStep(s.engine) == Some(after.engine)
    requires !s.engine.exec.at.HasQueue? && after.sent == s.sent && StagesFollow(s.vm, after.vm)
    ensures CallsInv(after) && SentInv(after)
  {
    var e, f := s.engine, after.engine;
    AdvanceFrame(e);
    forall k | 0 <= k < |f.blocked|
      ensures Waits(after, f.blocked[k])
    {
      assert Waits(s, e.blocked[k]);
    }
    forall i | i in s.sent && f.capacity > 0 && OnItsWay(e, i)
      ensures OnItsWay(f, i)
    {
    }
  }

  lemma AdvanceFrame(e: E.Engine)
    requires S.Inv(e) && E.AdvanceStep(e).Some? && !e.exec.at.HasQueue?
    ensures var f := E.AdvanceStep(e).value;
            && f.blocked == e.blocked && f.capacity == e.capacity && (f.exec.Busy? ==> f.exec.call == e.exec.call)
            && (BeforePush(f) ==> BeforePush(e))
            && (BeforePush(e) && f.capacity > 0 && e.exec.call.task.Some? ==> BeforePush(f))
  {
    if e.capacity > 0 {
      S.IndexInRange(|e.accepted|, e.capacity);
    }
  }

  lemma PushKeepsCalls(s: System, after: System)
    requires Inv(s) && s.engine.exec.Busy? && s.engine.exec.at.HasQueue? && s.engine.exec.call.task.Some?
    requires E.AdvanceStep(s.engine) == Some(after.engine) && after.sent == s.sent
    requires P.Step(s.vm, P.Dispatch(s.engine.exec.call.task.value, s.engine.index)) == Some(after.vm)
    ensures CallsInv(after) && SentInv(after)
  {
    var e, f, t := s.engine, after.engine, s.engine.exec.call.task.value;
    PushIsDispatch(e);
    forall k | 0 <= k < |f.blocked|
      ensures Waits(after, f.blocked[k])
    {
      assert Waits(s, e.blocked[k]);
    }
    forall i | i in s.sent && i != t && OnItsWay(e, i)
      ensures OnItsWay(f, i)
    {
      var k :| 0 <= k < |e.blocked| && e.blocked[k].task == Some(i);
      assert f.blocked[k] == e.blocked[k];
    }
  }

  // --- Both sides together ---

  lemma GrowGoesOn(s: System)
    requires Inv(s) && LaneAction(s.engine, E.Advance) == Some(P.OpenLane)
    ensures Step(s, Engine(E.Advance)).Some? && Inv(Step(s, Engine(E.Advance)).value)
  {
    GrowIsOpen(s.engine);
    S.StepKeepsInv(s.engine, E.Advance);
    P.StepKeepsInv(s.vm, P.OpenLane);
    var after := Step(s, Engine(E.Advance)).value;
    AdvanceKeepsCalls(s, after);
    forall w | 0 <= w < |s.vm.lanes|
      ensures SameLane(after.engine.workers[w], after.vm.lanes[w])
    {
      assert SameLane(s.engine.workers[w], s.vm.lanes[w]);
    }
  }

  lemma PushGoesOn(s: System)
    requires Inv(s) && s.engine.exec.Busy? && s.engine.exec.at.HasQueue?
    ensures Step(s, Engine(E.Advance)).Some? && Inv(Step(s, Engine(E.Advance)).value)
  {
    DispatchFollows(s);
    S.StepKeepsInv(s.engine, E.Advance);
    P.StepKeepsInv(s.vm, P.Dispatch(s.engine.exec.call.task.value, s.engine.index));
    PushKeepsCalls(s, Step(s, Engine(E.Advance)).value);
  }

  lemma AdvanceGoesOn(s: System)
    requires Inv(s) && E.AdvanceStep(s.engine).Some?
    ensures Step(s, Engine(E.Advance)).Some? && Inv(Step(s, Engine(E.Advance)).value)
  {
    var lane := LaneAction(s.engine, E.Advance);
    if lane.None? {
      S.StepKeepsInv(s.engine, E.Advance);
      QuietKeepsLanes(s.engine, s.vm, E.Advance);
      QuietAdvance(s.engine);
      AdvanceKeepsCalls(s, Step(s, Engine(E.Advance)).value);
    } else if lane.value.OpenLane? {
      GrowGoesOn(s);
    } else {
      PushGoesOn(s);
    }
  }

  lemma CallerGoesOn(s: System, a: E.Action)
    requires Inv(s) && (a.Submit? || a.Enter?) && E.Step(s.engine, a).Some? && MayAct(s, a)
    ensures Step(s, Engine(a)).Some? && Inv(Step(s, Engine(a)).value)
  {
    S.StepKeepsInv(s.engine, a);
    QuietKeepsLanes(s.engine, s.vm, a);
    if a.Submit? {
      SubmitKeepsCalls(s, a.call);
    } else {
      EnterKeepsCalls(s, a.k);
    }
  }

  lemma StartGoesOn(s: System, w: nat, cause: E.Cause)
    requires Inv(s) && E.Step(s.engine, E.WorkerAct(w, cause)).Some? && MayAct(s, E.WorkerAct(w, cause))
    requires LaneAction(s.engine, E.WorkerAct(w, cause)).Some?
    ensures Step(s, Engine(E.WorkerAct(w, cause))).Some? && Inv(Step(s, Engine(E.WorkerAct(w, cause))).value)
  {
    S.StepKeepsInv(s.engine, E.WorkerAct(w, cause));
    StartFollows(s, w, cause);
    P.StepKeepsInv(s.vm, P.StartTask(w));
    PromisesKept(s, Step(s, Engine(E.WorkerAct(w, cause))).value);
  }

  lemma CloseGoesOn(s: System, w: nat)
    requires Inv(s) && E.Step(s.engine, E.StopAct(w)).Some? && LaneAction(s.engine, E.StopAct(w)).Some?
    ensures Step(s, Engine(E.StopAct(w))).Some? && Inv(Step(s, Engine(E.StopAct(w))).value)
  {
    S.StepKeepsInv(s.engine, E.StopAct(w));
    CloseFollows(s, w);
    P.StepKeepsInv(s.vm, P.CloseLane(w));
    PromisesKept(s, Step(s, Engine(E.StopAct(w))).value);
  }

  lemma QuietGoesOn(s: System, a: E.Action)
    requires Inv(s) && E.Step(s.engine, a).Some? && MayAct(s, a) && LaneAction(s.engine, a).None?
    requires a.WorkerAct? || a.StopRequest? || a.StopAct? || a.Stutter?
    ensures Step(s, Engine(a)).Some? && Inv(Step(s, Engine(a)).value)
  {
    S.StepKeepsInv(s.engine, a);
    QuietKeepsLanes(s.engine, s.vm, a);
    PromisesKept(s, Step(s, Engine(a)).value);
  }

  /** The ledger never keeps the engine from a step: whatever it means to a lane, that lane is ready for it. */
  lemma EngineGoesOn(s: System, a: E.Action)
    requires Inv(s) && E.Step(s.engine, a).Some? && MayAct(s, a)
    ensures Step(s, Engine(a)).Some? && Inv(Step(s, Engine(a)).value)
  {
    if a.Advance? {
      AdvanceGoesOn(s);
    } else if a.Submit? || a.Enter? {
      CallerGoesOn(s, a);
    } else if LaneAction(s.engine, a).None? {
      QuietGoesOn(s, a);
    } else if a.WorkerAct? {
      StartGoesOn(s, a.w, a.cause);
    } else {
      CloseGoesOn(s, a.w);
    }
  }

  lemma StepKeepsInv(s: System, a: Action)
    requires Inv(s) && Step(s, a).Some?
    ensures Inv(Step(s, a).value)
  {
    match a {
      case Vm(b) => VmStepKeeps(s, b);
      case Body(w, granted, threw) => BodyGoesOn(s, w, granted, threw);
      case Engine(b) => EngineGoesOn(s, b);
    }
  }

  // --- Runs of the composition ---

  lemma {:induction false} RunKeepsInv(s: System, actions: seq<Action>)
    requires Inv(s) && Run(s, actions).Some?
    ensures Inv(Run(s, actions).value)
  {
    if actions != [] {
      RunKeepsInv(s, actions[..|actions| - 1]);
      StepKeepsInv(Run(s, actions[..|actions| - 1]).value, actions[|actions| - 1]);
    }
  }

  lemma ReachableInv(s: System)
    requires Reachable(s)
    ensures Inv(s)
  {
    var capacity, jthread, hasContext, others, actions :|
      Run(Init(capacity, jthread, hasContext, others), actions) == Some(s);
    P.InitInv(hasContext, others);
    RunKeepsInv(Init(capacity, jthread, hasContext, others), actions);
  }

  lemma EngineReach(e: E.Engine, a: E.Action)
    requires E.Reachable(e) && E.Step(e, a).Some?
    ensures E.Reachable(E.Step(e, a).value)
  {
    var after := S.Reach(e, a);
  }

  lemma VmReach(v: P.Vm, a: P.Action)
    requires P.Reachable(v) && P.Step(v, a).Some?
    ensures P.Reachable(P.Step(v, a).value)
  {
    var after := P.Reach(v, a);
  }

  lemma PartsStep(s: System, a: Action)
    requires E.Reachable(s.engine) && P.Reachable(s.vm) && Step(s, a).Some?
    ensures E.Reachable(Step(s, a).value.engine) && P.Reachable(Step(s, a).value.vm)
  {
    var after := Step(s, a).value;
    match a {
      case Vm(b) => VmReach(s.vm, b);
      case Body(w, granted, threw) =>
        VmReach(s.vm, P.LaneStep(w, granted, threw));
        if after.engine != s.engine {
          EngineReach(s.engine, E.WorkerAct(w, BodyCause(s, w, threw)));
        }
      case Engine(b) =>
        EngineReach(s.engine, b);
        if LaneAction(s.engine, b).Some? {
          VmReach(s.vm, LaneAction(s.engine, b).value);
        }
    }
  }

  lemma {:induction false} PartsRun(s: System, actions: seq<Action>)
    requires E.Reachable(s.engine) && P.Reachable(s.vm) && Run(s, actions).Some?
    ensures E.Reachable(Run(s, actions).value.engine) && P.Reachable(Run(s, actions).value.vm)
  {
    if actions != [] {
      PartsRun(s, actions[..|actions| - 1]);
      PartsStep(Run(s, actions[..|actions| - 1]).value, actions[|actions| - 1]);
    }
  }

  /** Every run of the composition is a run of the engine and a run of the ledger. */
  lemma PartsAreReachable(s: System)
    requires Reachable(s)
    ensures E.Reachable(s.engine) && P.Reachable(s.vm)
  {
    var capacity, jthread, hasContext, others, actions :|
      Run(Init(capacity, jthread, hasContext, others), actions) == Some(s);
    assert E.Run(E.Init(capacity, jthread), []) == Some(E.Init(capacity, jthread));
    assert P.Exec(P.Init(hasContext, others), []) == Some(P.Init(hasContext, others));
    PartsRun(Init(capacity, jthread, hasContext, others), actions);
  }

  /**
   Neither side keeps the other from a step: what the engine can do, and what a running task can do, the
   composition can do.
   */
  lemma NeitherSideWaits(s: System)
    requires Reachable(s)
    ensures forall a | E.Step(s.engine, a).Some? && MayAct(s, a) :: Step(s, Engine(a)).Some?
    ensures forall w, granted, threw | P.Step(s.vm, P.LaneStep(w, granted, threw)).Some? ::
              Step(s, Body(w, granted, threw)).Some?
    ensures forall w: nat | RunsTask(s.engine, w) :: P.Step(s.vm, P.LaneStep(w, true, false)).Some?
  {
    ReachableInv(s);
    forall a | E.Step(s.engine, a).Some? && MayAct(s, a)
      ensures Step(s, Engine(a)).Some?
    {
      EngineGoesOn(s, a);
    }
    forall w, granted, threw | P.Step(s.vm, P.LaneStep(w, granted, threw)).Some?
      ensures Step(s, Body(w, granted, threw)).Some?
    {
      BodyGoesOn(s, w, granted, threw);
    }
    forall w: nat | RunsTask(s.engine, w)
      ensures P.Step(s.vm, P.LaneStep(w, true, false)).Some?
    {
      assert SameLane(s.engine.workers[w], s.vm.lanes[w]);
      assert P.LaneInv(s.vm.promises, s.vm.lanes[w], w);
    }
  }

  // --- The ledger across both components ---

  predicate QueuedOn(e: E.Engine, w: nat, i: nat) {
    w < |e.workers| && i in e.workers[w].queue
  }

  predicate RunningOn(e: E.Engine, w: nat, i: nat) {
    w < |e.workers| && e.workers[w].phase == E.Running(i)
  }

  /** Where the one task of a live promise is, in the engine. */
  ghost predicate Located(s: System, i: nat)
    requires i < |s.vm.promises|
  {
    match s.vm.promises[i].stage
    case Created(_) => true
    case Submitting => i !in s.sent || OnItsWay(s.engine, i) || s.engine.capacity == 0
    case Queued(w) => QueuedOn(s.engine, w, i)
    case Run(w, _, _) => RunningOn(s.engine, w, i)
    case Finished(w, _, _, _) => w < |s.engine.workers| && i in s.engine.workers[w].executed
  }

  /** Workers queue and run the tasks of promises in just those stages, so no task is in two places. */
  lemma WorkersHoldTheirTasks(s: System, w: nat, i: nat)
    requires Inv(s)
    ensures QueuedOn(s.engine, w, i) <==> i < |s.vm.promises| && s.vm.promises[i].stage == P.Queued(w)
    ensures RunningOn(s.engine, w, i) <==>
              i < |s.vm.promises| && s.vm.promises[i].stage.Run? && s.vm.promises[i].stage.w == w
  {
    if w < |s.engine.workers| {
      assert SameLane(s.engine.workers[w], s.vm.lanes[w]);
      assert P.LaneInv(s.vm.promises, s.vm.lanes[w], w);
    }
    if i < |s.vm.promises| {
      assert P.StageInv(s.vm.lanes, i, s.vm.promises[i].stage);
    }
  }

  lemma EveryTaskIsLocated(s: System, i: nat)
    requires Inv(s) && i < |s.vm.promises|
    ensures Located(s, i)
  {
    var stage := s.vm.promises[i].stage;
    assert P.StageInv(s.vm.lanes, i, stage);
    if stage.Queued? || stage.Run? {
      WorkersHoldTheirTasks(s, stage.w, i);
    } else if stage.Finished? {
      assert SameLane(s.engine.workers[stage.w], s.vm.lanes[stage.w]);
    }
  }

  /**
   In every run of engine and promises together, each handle that the VM put into the cache belongs to
   exactly one promise, and its one task is with the creator, in a call of the executor, queued on exactly
   one worker, running on exactly one worker, or was executed and threw.
   */
  lemma LedgerOnEngine(s: System, h: P.Handle)
    requires Reachable(s) && h in s.vm.Own()
    ensures exists i | 0 <= i < |s.vm.promises| ::
              && s.vm.promises[i].handle == h && P.Live(s.vm.promises[i].stage) && Located(s, i)
              && (forall j | 0 <= j < |s.vm.promises| ::
                    s.vm.promises[j].handle == h && P.Live(s.vm.promises[j].stage) ==> j == i)
              && (forall w: nat :: QueuedOn(s.engine, w, i) ==> s.vm.promises[i].stage == P.Queued(w))
              && (forall w: nat :: RunningOn(s.engine, w, i) ==>
                    s.vm.promises[i].stage.Run? && s.vm.promises[i].stage.w == w)
  {
    ReachableInv(s);
    PartsAreReachable(s);
    P.Ledger(s.vm, h);
    var i :| 0 <= i < |s.vm.promises| && s.vm.promises[i].handle == h && P.Live(s.vm.promises[i].stage)
             && forall j | 0 <= j < |s.vm.promises| ::
                  s.vm.promises[j].handle == h && P.Live(s.vm.promises[j].stage) ==> j == i;
    EveryTaskIsLocated(s, i);
    forall w: nat
      ensures QueuedOn(s.engine, w, i) ==> s.vm.promises[i].stage == P.Queued(w)
      ensures RunningOn(s.engine, w, i) ==> s.vm.promises[i].stage.Run? && s.vm.promises[i].stage.w == w
    {
      WorkersHoldTheirTasks(s, w, i);
    }
  }
}
