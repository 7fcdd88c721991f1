/**
 Promises of the script VM: a cache of pending promises, tasks that settle them on the lanes of the
 task engine, and the re-entrant VM lock, interleaved in every order.

 A lane is what a worker of the engine amounts to for its tasks (`LaneRefinement` proves that): the
 tasks done, the one running, and those queued.
 */
module PromiseLedger {
  import opened Prelude

  /** Addresses of promise objects; a removed one can be handed out again. */
  type Handle = nat

  datatype Thread = Client(c: nat) | LaneThread(w: nat)

  const RETRIES := 10

  datatype Outcome =
    | Settled      // resolver called
    | Expired      // the VM is gone
    | NoLock       // the lock could not be had
    | NoContext    // the VM has no context
    | Missing      // the promise was not in the cache any more
    | Threw        // the callback threw

  /** Where the body of a started task is. */
  datatype Pc =
    | Starting
    | Trying(n: nat)
    | Locked
    | Calling
    | Returned
    | Resolved
    | Cleared(outcome: Outcome)

  datatype Stage =
    | Created(c: nat)              // in the cache, its creator still inside the lock
    | Submitting                   // on its way to the executor
    | Queued(w: nat)
    | Run(w: nat, pc: Pc, entry: nat)
    | Finished(w: nat, outcome: Outcome, entry: nat, exit: nat)

  /** `resolved` counts calls of the resolver; `entry` and `exit` are lock depths of the running thread. */
  datatype Promise = Promise(handle: Handle, stage: Stage, resolved: nat)

  datatype Lane = Lane(done: seq<nat>, current: Option<nat>, queue: seq<nat>, closed: bool, leaked: nat)

  /** The cache is shared by all VMs of the process; `others` are the entries that other VMs made. */
  datatype Vm = Vm(
    promises: seq<Promise>, cache: set<Handle>, others: set<Handle>, lanes: seq<Lane>,
    owner: Option<Thread>, depth: nat, external: bool, alive: bool, hasContext: bool) {

    function Own(): set<Handle> {
      cache - others
    }
  }

  const NEW_LANE := Lane([], None, [], false, 0)

  function Init(hasContext: bool, others: set<Handle>): Vm {
    Vm([], others, others, [], None, 0, true, true, hasContext)
  }

  datatype Action =
    | ClientLock(c: nat)
    | ClientUnlock(c: nat)
    | NewPromise(c: nat, handle: Handle)   // the lock is had and the object added
    | LeaveNew(i: nat)                     // the creator reads the object and unlocks
    | OpenLane
    | Dispatch(i: nat, w: nat)             // the executor queues the task
    | StartTask(w: nat)
    | LaneStep(w: nat, granted: bool, threw: bool)
    | CloseLane(w: nat)                    // the worker has been stopped and joined
    | DropExternal                         // the last outside reference goes away
    | Destroy(t: Thread)                   // the last reference of all goes away, on thread `t`
    | OtherAdds(handle: Handle)            // another VM makes an entry
    | OtherRemoves(handle: Handle)

  function OwnDepth(v: Vm, t: Thread): nat {
    if v.owner == Some(t) then v.depth else 0
  }

  predicate CanLock(v: Vm, t: Thread) {
    v.owner.None? || v.owner == Some(t)
  }

  function Lock(v: Vm, t: Thread): Vm {
    v.(owner := Some(t), depth := v.depth + 1)
  }

  /** Unlocking a mutex that nobody holds has no meaning; here it changes nothing. */
  function Unlock(v: Vm): Vm {
    if v.depth == 0 then v else v.(owner := if v.depth == 1 then None else v.owner, depth := v.depth - 1)
  }

  function At(v: Vm, i: nat, stage: Stage): Vm
    requires i < |v.promises|
  {
    v.(promises := v.promises[i := v.promises[i].(stage := stage)])
  }

  function Remove(v: Vm, i: nat): Vm
    requires i < |v.promises|
  {
    v.(cache := v.cache - {v.promises[i].handle})
  }

  /** The task of promise `i` is over; its lane is free again. */
  function Finish(v: Vm, i: nat, w: nat, outcome: Outcome, entry: nat): Vm
    requires i < |v.promises| && w < |v.lanes|
  {
    var lane := v.lanes[w];
    var leaked := if outcome.Threw? then lane.leaked + 1 else lane.leaked;
    At(v, i, Finished(w, outcome, entry, OwnDepth(v, LaneThread(w))))
      .(lanes := v.lanes[w := lane.(current := None, done := lane.done + [i], leaked := leaked)])
  }

  /** Stages whose task holds a strong reference to the VM. */
  predicate HoldsVm(stage: Stage) {
    stage.Run? && !stage.pc.Starting?
  }

  /** Some strong reference is left, so that a weak one can still be turned into one. */
  predicate Referenced(v: Vm) {
    v.external || exists i | 0 <= i < |v.promises| :: HoldsVm(v.promises[i].stage)
  }

  /** What one step of a body does: go on with a new record, or end, after changing lock and cache in `vm`. */
  datatype Effect = Moves(vm: Vm, p: Promise) | Ends(vm: Vm, outcome: Outcome)

  /** The body of the submitted task, one access to shared state at a time. */
  function BodyEffect(v: Vm, i: nat, w: nat, granted: bool, threw: bool): Effect
    requires i < |v.promises| && w < |v.lanes| && v.promises[i].stage.Run?
  {
    var p := v.promises[i];
    var entry := p.stage.entry;
    match p.stage.pc
    case Starting =>
      if Referenced(v) then Moves(v, p.(stage := Run(w, Trying(0), entry))) else Ends(Remove(v, i), Expired)
    case Trying(n) =>
      if granted && CanLock(v, LaneThread(w)) then Moves(Lock(v, LaneThread(w)), p.(stage := Run(w, Locked, entry)))
      else if n + 1 < RETRIES then Moves(v, p.(stage := Run(w, Trying(n + 1), entry)))
      else Ends(Remove(v, i), NoLock)
    case Locked =>
      if !v.hasContext then Moves(Remove(v, i), p.(stage := Run(w, Cleared(NoContext), entry)))
      else Moves(v, p.(stage := Run(w, Calling, entry)))
    case Calling =>
      // an exception leaves the body without touching lock or cache
      if threw then Ends(v, Threw) else Moves(v, p.(stage := Run(w, Returned, entry)))
    case Returned =>
      if p.handle in v.cache then Moves(v, p.(stage := Run(w, Resolved, entry), resolved := p.resolved + 1))
      else Ends(Unlock(v), Missing)
    case Resolved => Moves(Remove(v, i), p.(stage := Run(w, Cleared(Settled), entry)))
    case Cleared(outcome) => Ends(Unlock(v), outcome)
  }

  function BodyStep(v: Vm, i: nat, w: nat, granted: bool, threw: bool): Vm
    requires i < |v.promises| && w < |v.lanes| && v.promises[i].stage.Run?
  {
    var effect := BodyEffect(v, i, w, granted, threw);
    match effect
    case Moves(vm, p) => vm.(promises := v.promises[i := p])
    case Ends(vm, outcome) =>
      Finish(vm.(promises := v.promises, lanes := v.lanes), i, w, outcome, v.promises[i].stage.entry)
  }

  function Step(v: Vm, a: Action): Option<Vm> {
    match a
    case ClientLock(c) => if CanLock(v, Client(c)) && v.alive then Some(Lock(v, Client(c))) else None
    case ClientUnlock(c) =>
      if v.owner == Some(Client(c)) && v.depth > 0
         && (forall i | 0 <= i < |v.promises| :: !v.promises[i].stage.Created?)
      then Some(Unlock(v)) else None
    case NewPromise(c, handle) =>
      if v.external && CanLock(v, Client(c)) && handle !in v.cache
         && (forall i | 0 <= i < |v.promises| :: !v.promises[i].stage.Created?)
      then Some(Lock(v, Client(c)).(promises := v.promises + [Promise(handle, Created(c), 0)],
                                    cache := v.cache + {handle}))
      else None
    case LeaveNew(i) =>
      if i < |v.promises| && v.promises[i].stage.Created? && v.promises[i].handle in v.cache && v.depth > 0
      then Some(At(Unlock(v), i, Submitting)) else None
    case OpenLane => Some(v.(lanes := v.lanes + [NEW_LANE]))
    case Dispatch(i, w) =>
      if i < |v.promises| && v.promises[i].stage.Submitting? && w < |v.lanes| then
        Some(At(v, i, Queued(w)).(lanes := v.lanes[w := v.lanes[w].(queue := v.lanes[w].queue + [i])]))
      else None
    case StartTask(w) =>
      if w < |v.lanes| && v.lanes[w].current.None? && v.lanes[w].queue != [] && !v.lanes[w].closed
         && v.lanes[w].queue[0] < |v.promises|
      then
        var lane := v.lanes[w];
        Some(At(v, lane.queue[0], Run(w, Starting, OwnDepth(v, LaneThread(w))))
               .(lanes := v.lanes[w := lane.(current := Some(lane.queue[0]), queue := lane.queue[1..])]))
      else None
    case LaneStep(w, granted, threw) =>
      if w < |v.lanes| && v.lanes[w].current.Some? && v.lanes[w].current.value < |v.promises|
         && v.promises[v.lanes[w].current.value].stage.Run?
      then Some(BodyStep(v, v.lanes[w].current.value, w, granted, threw))
      else None
    case CloseLane(w) =>
      if w < |v.lanes| && v.lanes[w].current.None? then Some(v.(lanes := v.lanes[w := v.lanes[w].(closed := true)]))
      else None
    case DropExternal => Some(v.(external := false))
    case Destroy(t) =>
      // the destructor runs when no reference is left; it takes the lock, which its thread may hold already
      if !Referenced(v) && v.alive && CanLock(v, t) then Some(v.(alive := false)) else None
    case OtherAdds(handle) =>
      if handle !in v.cache then Some(v.(cache := v.cache + {handle}, others := v.others + {handle})) else None
    case OtherRemoves(handle) =>
      if handle in v.others then Some(v.(cache := v.cache - {handle}, others := v.others - {handle})) else None
  }

  function Exec(v: Vm, actions: seq<Action>): Option<Vm> {
    if actions == [] then Some(v)
    else
      var before := Exec(v, actions[..|actions| - 1]);
      if before.None? then None else Step(before.value, actions[|actions| - 1])
  }

  ghost predicate Reachable(v: Vm) {
    exists hasContext, others, actions :: Exec(Init(hasContext, others), actions) == Some(v)
  }

  // --- The invariant ---

  /** The handle of a promise in this stage is in the cache. */
  predicate Live(stage: Stage) {
    match stage
    case Run(_, pc, _) => !pc.Cleared?
    case Finished(_, outcome, _, _) => outcome.Threw?
    case _ => true
  }

  ghost function LiveHandles(ps: seq<Promise>): set<Handle> {
    set i | 0 <= i < |ps| && Live(ps[i].stage) :: ps[i].handle
  }

  /** These handles are exactly those of live promises, and no two promises share one. */
  ghost predicate CacheInv(ps: seq<Promise>, own: set<Handle>) {
    && own == LiveHandles(ps)
    && forall i, j | 0 <= i < j < |ps| :: Live(ps[i].stage) && Live(ps[j].stage) ==> ps[i].handle != ps[j].handle
  }

  predicate InLock(pc: Pc) {
    !pc.Starting? && !pc.Trying?
  }

  function CurrentLocks(v: Vm, w: nat): nat
    requires w < |v.lanes|
  {
    var c := v.lanes[w].current;
    if c.None? || c.value >= |v.promises| then 0
    else
      var stage := v.promises[c.value].stage;
      if stage.Run? && InLock(stage.pc) then 1 else 0
  }

  /** The thread of a lane owns the lock once for its running body and once for every callback that threw. */
  predicate LockInv(v: Vm) {
    && (v.owner.None? <==> v.depth == 0)
    && (v.owner.Some? && v.owner.value.LaneThread? ==> v.owner.value.w < |v.lanes|)
    && (forall w | 0 <= w < |v.lanes| :: OwnDepth(v, LaneThread(w)) == v.lanes[w].leaked + CurrentLocks(v, w))
    && (forall i | 0 <= i < |v.promises| ::
          v.promises[i].stage.Created? ==> v.owner == Some(Client(v.promises[i].stage.c)))
    && (forall i, j | 0 <= i < j < |v.promises| :: !(v.promises[i].stage.Created? && v.promises[j].stage.Created?))
  }

  /** What is recorded of one promise. */
  predicate PromiseInv(lanes: seq<Lane>, p: Promise) {
    match p.stage
    case Run(w, pc, entry) =>
      && w < |lanes| && entry == lanes[w].leaked
      && (pc.Cleared? ==> pc.outcome in {Settled, NoContext})
      && p.resolved == (if pc.Resolved? || pc == Cleared(Settled) then 1 else 0)
    case Finished(w, outcome, entry, exit) =>
      && w < |lanes| && !outcome.Missing?
      && exit == (if outcome.Threw? then entry + 1 else entry)
      && (outcome.Threw? ==> lanes[w].leaked > 0)
      && p.resolved == (if outcome.Settled? then 1 else 0)
    case _ => p.resolved == 0
  }

  predicate PromisesInv(ps: seq<Promise>, lanes: seq<Lane>) {
    forall i | 0 <= i < |ps| :: PromiseInv(lanes, ps[i])
  }

  predicate LaneInv(ps: seq<Promise>, lane: Lane, w: nat) {
    && Distinct(lane.queue)
    && (forall x | x in lane.queue :: x < |ps| && ps[x].stage == Queued(w))
    && (forall x | x in lane.done :: x < |ps| && ps[x].stage.Finished? && ps[x].stage.w == w)
    && (lane.current.Some? ==>
          lane.current.value < |ps| && ps[lane.current.value].stage.Run? && ps[lane.current.value].stage.w == w)
  }

  predicate StageInv(lanes: seq<Lane>, i: nat, stage: Stage) {
    match stage
    case Queued(w) => w < |lanes| && i in lanes[w].queue
    case Run(w, _, _) => w < |lanes| && lanes[w].current == Some(i)
    case Finished(w, _, _, _) => w < |lanes| && i in lanes[w].done
    case _ => true
  }

  /** Lanes and stages agree: a task is queued, running or done on exactly one lane. */
  predicate LanesInv(ps: seq<Promise>, lanes: seq<Lane>) {
    && (forall w | 0 <= w < |lanes| :: LaneInv(ps, lanes[w], w))
    && (forall i | 0 <= i < |ps| :: StageInv(lanes, i, ps[i].stage))
  }

  predicate AliveInv(v: Vm) {
    && (v.external ==> v.alive)
    && forall i | 0 <= i < |v.promises| :: HoldsVm(v.promises[i].stage) ==> v.alive
  }

  ghost predicate Inv(v: Vm) {
    && v.others <= v.cache && CacheInv(v.promises, v.Own()) && LockInv(v) && AliveInv(v)
    && PromisesInv(v.promises, v.lanes) && LanesInv(v.promises, v.lanes)
  }

  // --- Changes of one promise ---

  lemma CacheKept(ps: seq<Promise>, cache: set<Handle>, i: nat, p: Promise)
    requires CacheInv(ps, cache) && i < |ps| && p.handle == ps[i].handle && Live(p.stage) == Live(ps[i].stage)
    ensures CacheInv(ps[i := p], cache)
  {
    var after := ps[i := p];
    forall h
      ensures h in LiveHandles(after) <==> h in LiveHandles(ps)
    {
      if h in LiveHandles(ps) {
        var k :| 0 <= k < |ps| && Live(ps[k].stage) && ps[k].handle == h;
        assert Live(after[k].stage) && after[k].handle == h;
      }
    }
  }

  lemma CacheEnded(ps: seq<Promise>, cache: set<Handle>, i: nat, p: Promise)
    requires CacheInv(ps, cache) && i < |ps| && p.handle == ps[i].handle && Live(ps[i].stage) && !Live(p.stage)
    ensures CacheInv(ps[i := p], cache - {p.handle})
  {
    var after := ps[i := p];
    forall h
      ensures h in LiveHandles(after) <==> h in LiveHandles(ps) && h != p.handle
    {
      if h in LiveHandles(ps) && h != p.handle {
        var k :| 0 <= k < |ps| && Live(ps[k].stage) && ps[k].handle == h;
        assert Live(after[k].stage) && after[k].handle == h;
      }
    }
  }

  lemma CacheGrows(ps: seq<Promise>, cache: set<Handle>, p: Promise)
    requires CacheInv(ps, cache) && p.handle !in cache && Live(p.stage)
    ensures CacheInv(ps + [p], cache + {p.handle})
  {
    var after := ps + [p];
    assert after[|ps|] == p;
    forall h
      ensures h in LiveHandles(after) <==> h in LiveHandles(ps) || h == p.handle
    {
      if h in LiveHandles(ps) {
        var k :| 0 <= k < |ps| && Live(ps[k].stage) && ps[k].handle == h;
        assert after[k] == ps[k];
      }
    }
    forall k | 0 <= k < |ps| && Live(ps[k].stage)
      ensures ps[k].handle != p.handle
    {
      assert ps[k].handle in LiveHandles(ps);
    }
  }

  /** The running body of lane `w` moves on. */
  lemma BodyMoves(ps: seq<Promise>, lanes: seq<Lane>, i: nat, p: Promise)
    requires LanesInv(ps, lanes) && PromisesInv(ps, lanes) && i < |ps|
    requires ps[i].stage.Run? && p.stage.Run? && p.stage.w == ps[i].stage.w && PromiseInv(lanes, p)
    ensures LanesInv(ps[i := p], lanes) && PromisesInv(ps[i := p], lanes)
  {
    var after := ps[i := p];
    forall w | 0 <= w < |lanes|
      ensures LaneInv(after, lanes[w], w)
    {
      assert LaneInv(ps, lanes[w], w);
    }
    forall k | 0 <= k < |ps|
      ensures StageInv(lanes, k, after[k].stage)
    {
      assert StageInv(lanes, k, ps[k].stage);
    }
  }

  /** The running body of lane `w` ends. */
  lemma BodyEnds(ps: seq<Promise>, lanes: seq<Lane>, i: nat, w: nat, p: Promise, lane: Lane)
    requires LanesInv(ps, lanes) && PromisesInv(ps, lanes) && i < |ps| && w < |lanes|
    requires ps[i].stage.Run? && ps[i].stage.w == w && p.stage.Finished? && p.stage.w == w
    requires lane == lanes[w].(current := None, done := lanes[w].done + [i], leaked := lane.leaked)
    requires lane.leaked >= lanes[w].leaked && PromiseInv(lanes[w := lane], p)
    ensures LanesInv(ps[i := p], lanes[w := lane]) && PromisesInv(ps[i := p], lanes[w := lane])
  {
    var after, now := ps[i := p], lanes[w := lane];
    assert StageInv(lanes, i, ps[i].stage);
    forall u | 0 <= u < |lanes|
      ensures LaneInv(after, now[u], u)
    {
      assert LaneInv(ps, lanes[u], u);
    }
    forall k | 0 <= k < |ps|
      ensures StageInv(now, k, after[k].stage) && PromiseInv(now, after[k])
    {
      assert StageInv(lanes, k, ps[k].stage) && PromiseInv(lanes, ps[k]);
    }
  }

  // --- Every step keeps the invariant ---

  lemma FinishKeeps(v: Vm, i: nat, w: nat, outcome: Outcome, entry: nat)
    requires i < |v.promises| && w < |v.lanes|
    requires LanesInv(v.promises, v.lanes) && PromisesInv(v.promises, v.lanes) && AliveInv(v)
    requires v.promises[i].stage.Run? && v.promises[i].stage.w == w && !outcome.Missing?
    requires v.promises[i].resolved == if outcome.Settled? then 1 else 0
    requires OwnDepth(v, LaneThread(w)) == if outcome.Threw? then entry + 1 else entry
    ensures var after := Finish(v, i, w, outcome, entry);
            LanesInv(after.promises, after.lanes) && PromisesInv(after.promises, after.lanes) && AliveInv(after)
  {
    var after := Finish(v, i, w, outcome, entry);
    BodyEnds(v.promises, v.lanes, i, w, after.promises[i], after.lanes[w]);
  }

  predicate Runs(v: Vm, i: nat, w: nat) {
    && w < |v.lanes| && i < |v.promises| && v.lanes[w].current == Some(i)
    && v.promises[i].stage.Run? && v.promises[i].stage.w == w
  }

  /** The thread of the running body owns the lock as often as its entry depth and its position say. */
  lemma DepthOfBody(v: Vm, i: nat, w: nat)
    requires Inv(v) && Runs(v, i, w)
    ensures BodyFacts(v, i, w)
  {
    assert OwnDepth(v, LaneThread(w)) == v.lanes[w].leaked + CurrentLocks(v, w);
    assert PromiseInv(v.lanes, v.promises[i]);
    if Live(v.promises[i].stage) {
      assert v.promises[i].handle in LiveHandles(v.promises);
    }
  }

  /** The invariant but for the lock. */
  ghost predicate RecordsInv(v: Vm) {
    && v.others <= v.cache && CacheInv(v.promises, v.Own()) && AliveInv(v)
    && PromisesInv(v.promises, v.lanes) && LanesInv(v.promises, v.lanes)
  }

  /** What the proofs need to know of the running body. */
  predicate BodyFacts(v: Vm, i: nat, w: nat) {
    && w < |v.lanes| && i < |v.promises| && v.promises[i].stage.Run? && v.promises[i].stage.w == w
    && PromiseInv(v.lanes, v.promises[i])
    && (v.owner.None? <==> v.depth == 0)
    && OwnDepth(v, LaneThread(w)) == v.promises[i].stage.entry + (if InLock(v.promises[i].stage.pc) then 1 else 0)
    && (Live(v.promises[i].stage) ==> v.promises[i].handle in v.cache)
    && (HoldsVm(v.promises[i].stage) || Referenced(v) ==> v.alive)
  }

  /** Lock and cache after a step that changes nothing else outside the record of promise `i`. */
  predicate EffectFrame(v: Vm, vm: Vm, i: nat, w: nat, live: bool)
    requires i < |v.promises|
  {
    && vm == v.(cache := vm.cache, owner := vm.owner, depth := vm.depth)
    && (vm.owner.None? <==> vm.depth == 0)
    && ((vm.owner == v.owner && vm.depth == v.depth) || (CanLock(v, LaneThread(w)) && CanLock(vm, LaneThread(w))))
    && vm.cache == (if Live(v.promises[i].stage) && !live then v.cache - {v.promises[i].handle} else v.cache)
    && (live ==> Live(v.promises[i].stage))
  }

  /** Lock and cache are in step with the position that the body has after the step. */
  predicate SoundEffect(v: Vm, i: nat, w: nat, effect: Effect)
    requires BodyFacts(v, i, w)
  {
    match effect
    case Moves(vm, p) =>
      && EffectFrame(v, vm, i, w, Live(p.stage))
      && p.handle == v.promises[i].handle && p.stage.Run? && p.stage.w == w && PromiseInv(v.lanes, p)
      && (HoldsVm(p.stage) ==> v.alive)
      && OwnDepth(vm, LaneThread(w)) == v.promises[i].stage.entry + if InLock(p.stage.pc) then 1 else 0
    case Ends(vm, outcome) =>
      && EffectFrame(v, vm, i, w, outcome.Threw?)
      && !outcome.Missing? && v.promises[i].resolved == (if outcome.Settled? then 1 else 0)
      && OwnDepth(vm, LaneThread(w)) == v.promises[i].stage.entry + if outcome.Threw? then 1 else 0
  }

  lemma EarlyEffectIsSound(v: Vm, i: nat, w: nat, granted: bool, threw: bool)
    requires BodyFacts(v, i, w) && !InLock(v.promises[i].stage.pc)
    ensures SoundEffect(v, i, w, BodyEffect(v, i, w, granted, threw))
  {
  }

  lemma LateEffectIsSound(v: Vm, i: nat, w: nat, granted: bool, threw: bool)
    requires BodyFacts(v, i, w) && InLock(v.promises[i].stage.pc)
    ensures SoundEffect(v, i, w, BodyEffect(v, i, w, granted, threw))
  {
  }

  /** Every path of the body keeps lock and cache in step with its position. */
  lemma EffectIsSound(v: Vm, i: nat, w: nat, granted: bool, threw: bool)
    requires BodyFacts(v, i, w)
    ensures SoundEffect(v, i, w, BodyEffect(v, i, w, granted, threw))
  {
    if InLock(v.promises[i].stage.pc) {
      LateEffectIsSound(v, i, w, granted, threw);
    } else {
      EarlyEffectIsSound(v, i, w, granted, threw);
    }
  }

  lemma CacheFollows(v: Vm, vm: Vm, i: nat, w: nat, p: Promise)
    requires v.others <= v.cache && CacheInv(v.promises, v.Own())
    requires i < |v.promises| && p.handle == v.promises[i].handle
    requires EffectFrame(v, vm, i, w, Live(p.stage))
    ensures vm.others <= vm.cache && CacheInv(v.promises[i := p], vm.Own())
  {
    if Live(v.promises[i].stage) == Live(p.stage) {
      CacheKept(v.promises, v.Own(), i, p);
    } else {
      CacheEnded(v.promises, v.Own(), i, p);
      assert vm.Own() == v.Own() - {p.handle};
    }
  }

  lemma BodyKeepsRecords(v: Vm, i: nat, w: nat, granted: bool, threw: bool)
    requires Inv(v) && Runs(v, i, w)
    ensures RecordsInv(BodyStep(v, i, w, granted, threw))
  {
    DepthOfBody(v, i, w);
    EffectIsSound(v, i, w, granted, threw);
    var after := BodyStep(v, i, w, granted, threw);
    match BodyEffect(v, i, w, granted, threw) {
      case Moves(vm, p) =>
        CacheFollows(v, vm, i, w, p);
        BodyMoves(v.promises, v.lanes, i, p);
      case Ends(vm, outcome) =>
        CacheFollows(v, vm, i, w, after.promises[i]);
        FinishKeeps(vm, i, w, outcome, v.promises[i].stage.entry);
    }
  }

  lemma BodyKeepsLock(v: Vm, i: nat, w: nat, granted: bool, threw: bool)
    requires Inv(v) && Runs(v, i, w)
    ensures LockInv(BodyStep(v, i, w, granted, threw))
  {
    DepthOfBody(v, i, w);
    EffectIsSound(v, i, w, granted, threw);
    LockFollowsBody(v, BodyStep(v, i, w, granted, threw), i, w);
  }

  /** The depth of the body's thread changes with its locks; no other thread's does. */
  lemma LockFollowsBody(v: Vm, after: Vm, i: nat, w: nat)
    requires Inv(v) && Runs(v, i, w) && |after.promises| == |v.promises| && |after.lanes| == |v.lanes|
    requires forall k | 0 <= k < |v.promises| && k != i :: after.promises[k] == v.promises[k]
    requires forall u | 0 <= u < |v.lanes| && u != w :: after.lanes[u] == v.lanes[u]
    requires !after.promises[i].stage.Created?
    requires after.owner.None? <==> after.depth == 0
    requires (after.owner == v.owner && after.depth == v.depth)
             || (CanLock(v, LaneThread(w)) && CanLock(after, LaneThread(w)))
    requires OwnDepth(after, LaneThread(w)) == after.lanes[w].leaked + CurrentLocks(after, w)
    ensures LockInv(after)
  {
    forall u | 0 <= u < |after.lanes|
      ensures OwnDepth(after, LaneThread(u)) == after.lanes[u].leaked + CurrentLocks(after, u)
    {
      assert OwnDepth(v, LaneThread(u)) == v.lanes[u].leaked + CurrentLocks(v, u);
      if u != w {
        assert LaneInv(v.promises, v.lanes[u], u);
      }
    }
  }

  // --- The other steps ---

  lemma ClientKeeps(v: Vm, a: Action)
    requires a.ClientLock? || a.ClientUnlock? || a.DropExternal? || a.Destroy?
    requires Inv(v) && Step(v, a).Some?
    ensures Inv(Step(v, a).value)
  {
    var after := Step(v, a).value;
    forall w | 0 <= w < |after.lanes|
      ensures OwnDepth(after, LaneThread(w)) == after.lanes[w].leaked + CurrentLocks(after, w)
    {
      assert OwnDepth(v, LaneThread(w)) == v.lanes[w].leaked + CurrentLocks(v, w);
    }
  }

  lemma OpenKeeps(v: Vm)
    requires Inv(v)
    ensures Inv(Step(v, OpenLane).value)
  {
    var after := Step(v, OpenLane).value;
    forall w | 0 <= w < |after.lanes|
      ensures LaneInv(after.promises, after.lanes[w], w)
      ensures OwnDepth(after, LaneThread(w)) == after.lanes[w].leaked + CurrentLocks(after, w)
    {
      if w < |v.lanes| {
        assert LaneInv(v.promises, v.lanes[w], w);
        assert OwnDepth(v, LaneThread(w)) == v.lanes[w].leaked + CurrentLocks(v, w);
      }
    }
    forall i | 0 <= i < |after.promises|
      ensures StageInv(after.lanes, i, after.promises[i].stage) && PromiseInv(after.lanes, after.promises[i])
    {
      assert StageInv(v.lanes, i, v.promises[i].stage) && PromiseInv(v.lanes, v.promises[i]);
    }
  }

  /** A lane is closed while it rests. */
  lemma CloseKeeps(v: Vm, w: nat)
    requires Inv(v) && Step(v, CloseLane(w)).Some?
    ensures Inv(Step(v, CloseLane(w)).value)
  {
    var after := Step(v, CloseLane(w)).value;
    forall u | 0 <= u < |v.lanes|
      ensures LaneInv(after.promises, after.lanes[u], u)
      ensures OwnDepth(after, LaneThread(u)) == after.lanes[u].leaked + CurrentLocks(after, u)
    {
      assert LaneInv(v.promises, v.lanes[u], u);
      assert OwnDepth(v, LaneThread(u)) == v.lanes[u].leaked + CurrentLocks(v, u);
    }
    forall i | 0 <= i < |v.promises|
      ensures StageInv(after.lanes, i, after.promises[i].stage) && PromiseInv(after.lanes, after.promises[i])
    {
      assert StageInv(v.lanes, i, v.promises[i].stage) && PromiseInv(v.lanes, v.promises[i]);
    }
  }

  /** What other VMs do to the cache. */
  lemma OtherVmKeeps(v: Vm, a: Action)
    requires Inv(v) && (a.OtherAdds? || a.OtherRemoves?) && Step(v, a).Some?
    ensures Inv(Step(v, a).value)
  {
    var after := Step(v, a).value;
    assert after.Own() == v.Own();
    forall w | 0 <= w < |after.lanes|
      ensures OwnDepth(after, LaneThread(w)) == after.lanes[w].leaked + CurrentLocks(after, w)
    {
      assert OwnDepth(v, LaneThread(w)) == v.lanes[w].leaked + CurrentLocks(v, w);
    }
  }

  lemma NewPromiseKeeps(v: Vm, c: nat, handle: Handle)
    requires Inv(v) && Step(v, NewPromise(c, handle)).Some?
    ensures Inv(Step(v, NewPromise(c, handle)).value)
  {
    var p := Promise(handle, Created(c), 0);
    var after := Step(v, NewPromise(c, handle)).value;
    CacheGrows(v.promises, v.Own(), p);
    assert after.Own() == v.Own() + {handle};
    forall w | 0 <= w < |v.lanes|
      ensures LaneInv(after.promises, after.lanes[w], w)
      ensures OwnDepth(after, LaneThread(w)) == after.lanes[w].leaked + CurrentLocks(after, w)
    {
      assert LaneInv(v.promises, v.lanes[w], w);
      assert OwnDepth(v, LaneThread(w)) == v.lanes[w].leaked + CurrentLocks(v, w);
    }
    forall i | 0 <= i < |after.promises|
      ensures StageInv(after.lanes, i, after.promises[i].stage) && PromiseInv(after.lanes, after.promises[i])
    {
      if i < |v.promises| {
        assert StageInv(v.lanes, i, v.promises[i].stage) && PromiseInv(v.lanes, v.promises[i]);
      }
    }
  }

  lemma LeaveKeeps(v: Vm, i: nat)
    requires Inv(v) && Step(v, LeaveNew(i)).Some?
    ensures Inv(Step(v, LeaveNew(i)).value)
  {
    var after := Step(v, LeaveNew(i)).value;
    CacheKept(v.promises, v.Own(), i, after.promises[i]);
    forall w | 0 <= w < |after.lanes|
      ensures LaneInv(after.promises, after.lanes[w], w)
      ensures OwnDepth(after, LaneThread(w)) == after.lanes[w].leaked + CurrentLocks(after, w)
    {
      assert LaneInv(v.promises, v.lanes[w], w);
      assert OwnDepth(v, LaneThread(w)) == v.lanes[w].leaked + CurrentLocks(v, w);
    }
    forall k | 0 <= k < |after.promises|
      ensures StageInv(after.lanes, k, after.promises[k].stage) && PromiseInv(after.lanes, after.promises[k])
    {
      assert StageInv(v.lanes, k, v.promises[k].stage) && PromiseInv(v.lanes, v.promises[k]);
    }
  }

  /** A task enters or leaves the queue of lane `w`; the lock is not touched. */
  lemma QueueKeeps(v: Vm, i: nat, w: nat, stage: Stage, lane: Lane)
    requires Inv(v) && i < |v.promises| && w < |v.lanes|
    requires Live(stage) && !HoldsVm(stage) && !stage.Created? && StageInv(v.lanes[w := lane], i, stage)
    requires Live(v.promises[i].stage) && !v.promises[i].stage.Run? && !v.promises[i].stage.Finished?
    requires lane == v.lanes[w].(current := lane.current, queue := lane.queue)
    requires LaneInv(v.promises[i := v.promises[i].(stage := stage)], lane, w)
    requires forall k | 0 <= k < |v.promises| && k != i :: StageInv(v.lanes[w := lane], k, v.promises[k].stage)
    requires forall u | 0 <= u < |v.lanes| && u != w :: i !in v.lanes[u].queue && v.lanes[u].current != Some(i)
    requires PromiseInv(v.lanes[w := lane], v.promises[i].(stage := stage))
    requires CurrentLocks(v, w) == CurrentLocks(At(v, i, stage).(lanes := v.lanes[w := lane]), w)
    ensures Inv(At(v, i, stage).(lanes := v.lanes[w := lane]))
  {
    var after := At(v, i, stage).(lanes := v.lanes[w := lane]);
    CacheKept(v.promises, v.Own(), i, after.promises[i]);
    forall u | 0 <= u < |v.lanes|
      ensures LaneInv(after.promises, after.lanes[u], u)
      ensures OwnDepth(after, LaneThread(u)) == after.lanes[u].leaked + CurrentLocks(after, u)
    {
      assert LaneInv(v.promises, v.lanes[u], u);
      assert OwnDepth(v, LaneThread(u)) == v.lanes[u].leaked + CurrentLocks(v, u);
    }
    forall k | 0 <= k < |v.promises|
      ensures PromiseInv(after.lanes, after.promises[k])
    {
      assert PromiseInv(v.lanes, v.promises[k]);
    }
  }

  lemma DispatchKeeps(v: Vm, i: nat, w: nat)
    requires Inv(v) && Step(v, Dispatch(i, w)).Some?
    ensures Inv(Step(v, Dispatch(i, w)).value)
  {
    var lane := v.lanes[w].(queue := v.lanes[w].queue + [i]);
    assert LaneInv(v.promises, v.lanes[w], w) && PromiseInv(v.lanes, v.promises[i]);
    forall u | 0 <= u < |v.lanes|
      ensures i !in v.lanes[u].queue && v.lanes[u].current != Some(i)
    {
      assert LaneInv(v.promises, v.lanes[u], u);
    }
    forall k | 0 <= k < |v.promises| && k != i
      ensures StageInv(v.lanes[w := lane], k, v.promises[k].stage)
    {
      assert StageInv(v.lanes, k, v.promises[k].stage);
    }
    QueueKeeps(v, i, w, Queued(w), lane);
  }

  /** The oldest task of a queue becomes the running one. */
  lemma LaneStarts(ps: seq<Promise>, lane: Lane, w: nat, p: Promise)
    requires LaneInv(ps, lane, w) && lane.queue != [] && lane.queue[0] < |ps| && p.stage.Run? && p.stage.w == w
    ensures LaneInv(ps[lane.queue[0] := p], lane.(current := Some(lane.queue[0]), queue := lane.queue[1..]), w)
  {
    var i, rest := lane.queue[0], lane.queue[1..];
    forall j, k | 0 <= j < k < |rest|
      ensures rest[j] != rest[k]
    {
      assert rest[j] == lane.queue[j + 1] && rest[k] == lane.queue[k + 1];
    }
    forall x | x in rest
      ensures x != i && x < |ps| && ps[x].stage == Queued(w)
    {
      var j :| 0 <= j < |rest| && rest[j] == x;
      assert lane.queue[0] != lane.queue[j + 1] && lane.queue[j + 1] in lane.queue;
    }
  }

  lemma StartKeeps(v: Vm, w: nat)
    requires Inv(v) && Step(v, StartTask(w)).Some?
    ensures Inv(Step(v, StartTask(w)).value)
  {
    var before := v.lanes[w];
    var i := before.queue[0];
    var lane := before.(current := Some(i), queue := before.queue[1..]);
    assert LaneInv(v.promises, before, w) && PromiseInv(v.lanes, v.promises[i]);
    assert OwnDepth(v, LaneThread(w)) == before.leaked + CurrentLocks(v, w);
    forall u | 0 <= u < |v.lanes| && u != w
      ensures i !in v.lanes[u].queue && v.lanes[u].current != Some(i)
    {
      assert LaneInv(v.promises, v.lanes[u], u);
    }
    forall k | 0 <= k < |v.promises| && k != i
      ensures StageInv(v.lanes[w := lane], k, v.promises[k].stage)
    {
      assert StageInv(v.lanes, k, v.promises[k].stage);
    }
    var stage := Run(w, Starting, OwnDepth(v, LaneThread(w)));
    LaneStarts(v.promises, before, w, v.promises[i].(stage := stage));
    QueueKeeps(v, i, w, stage, lane);
  }

  lemma StepKeepsInv(v: Vm, a: Action)
    requires Inv(v) && Step(v, a).Some?
    ensures Inv(Step(v, a).value)
  {
    match a {
      case NewPromise(c, handle) => NewPromiseKeeps(v, c, handle);
      case LeaveNew(i) => LeaveKeeps(v, i);
      case Dispatch(i, w) => DispatchKeeps(v, i, w);
      case StartTask(w) => StartKeeps(v, w);
      case LaneStep(w, granted, threw) =>
        var i := v.lanes[w].current.value;
        assert LaneInv(v.promises, v.lanes[w], w);
        BodyKeepsRecords(v, i, w, granted, threw);
        BodyKeepsLock(v, i, w, granted, threw);
      case OpenLane => OpenKeeps(v);
      case CloseLane(w) => CloseKeeps(v, w);
      case OtherAdds(_) => OtherVmKeeps(v, a);
      case OtherRemoves(_) => OtherVmKeeps(v, a);
      case _ => ClientKeeps(v, a);
    }
  }

  lemma {:induction false} ExecKeepsInv(v: Vm, actions: seq<Action>)
    requires Inv(v) && Exec(v, actions).Some?
    ensures Inv(Exec(v, actions).value)
  {
    if actions != [] {
      ExecKeepsInv(v, actions[..|actions| - 1]);
      StepKeepsInv(Exec(v, actions[..|actions| - 1]).value, actions[|actions| - 1]);
    }
  }

  lemma InitInv(hasContext: bool, others: set<Handle>)
    ensures Inv(Init(hasContext, others))
  {
    assert CacheInv([], others - others);
  }

  lemma ReachableInv(v: Vm)
    requires Reachable(v)
    ensures Inv(v)
  {
    var hasContext, others, actions :| Exec(Init(hasContext, others), actions) == Some(v);
    InitInv(hasContext, others);
    ExecKeepsInv(Init(hasContext, others), actions);
  }

  // --- The ledger ---

  /** Where the one task of a live promise is. */
  ghost predicate Accounted(v: Vm, i: nat)
    requires i < |v.promises|
  {
    var stage := v.promises[i].stage;
    && (stage.Created? || stage.Submitting? || stage.Queued? || stage.Run? || (stage.Finished? && stage.outcome.Threw?))
    && forall w | 0 <= w < |v.lanes| ::
         (i in v.lanes[w].queue <==> stage == Queued(w))
         && (v.lanes[w].current == Some(i) <==> stage.Run? && stage.w == w)
  }

  /**
   Every handle that this VM put into the cache belongs to exactly one promise, whose task is still with its
   creator, queued on exactly one lane (for good, if that lane is closed), running on exactly one lane, or
   has thrown.
   */
  lemma Ledger(v: Vm, h: Handle)
    requires Reachable(v) && h in v.Own()
    ensures exists i | 0 <= i < |v.promises| ::
              v.promises[i].handle == h && Live(v.promises[i].stage) && Accounted(v, i)
              && forall j | 0 <= j < |v.promises| :: v.promises[j].handle == h && Live(v.promises[j].stage) ==> j == i
  {
    ReachableInv(v);
    assert h in LiveHandles(v.promises);
    var i :| 0 <= i < |v.promises| && Live(v.promises[i].stage) && v.promises[i].handle == h;
    assert StageInv(v.lanes, i, v.promises[i].stage);
    forall w | 0 <= w < |v.lanes|
      ensures i in v.lanes[w].queue <==> v.promises[i].stage == Queued(w)
      ensures v.lanes[w].current == Some(i) <==> v.promises[i].stage.Run? && v.promises[i].stage.w == w
    {
      assert LaneInv(v.promises, v.lanes[w], w);
    }
    assert Accounted(v, i);
  }

  /** A promise whose handle is to be kept has it in the cache, so a task never misses its own promise. */
  lemma LiveHandleIsCached(v: Vm, i: nat)
    requires Reachable(v) && i < |v.promises| && Live(v.promises[i].stage)
    ensures v.promises[i].handle in v.cache
  {
    ReachableInv(v);
    assert v.promises[i].handle in LiveHandles(v.promises);
  }

  // --- A handle is released once, by its own task ---

  /** In this step the running body of promise `i` takes its handle out of the cache. */
  predicate ReleasesHandle(v: Vm, a: Action, i: nat) {
    && a.LaneStep? && Runs(v, i, a.w) && Step(v, a).Some?
    && v.promises[i].handle in v.cache && v.promises[i].handle !in Step(v, a).value.cache
  }

  /** How often the body of promise `i` takes its handle out of the cache in a run. */
  function Releases(v: Vm, actions: seq<Action>, i: nat): nat {
    if actions == [] then 0
    else
      var init, last := actions[..|actions| - 1], actions[|actions| - 1];
      var before := Exec(v, init);
      Releases(v, init, i) + if before.Some? && ReleasesHandle(before.value, last, i) then 1 else 0
  }

  /** In a step of its body, the handle leaves the cache exactly when the promise stops being live. */
  lemma BodyReleases(v: Vm, w: nat, granted: bool, threw: bool, i: nat)
    requires Inv(v) && Runs(v, i, w)
    ensures var after := BodyStep(v, i, w, granted, threw);
            && i < |after.promises|
            && (v.promises[i].handle in v.cache && v.promises[i].handle !in after.cache <==>
                  Live(v.promises[i].stage) && !Live(after.promises[i].stage))
            && (!Live(v.promises[i].stage) ==> !Live(after.promises[i].stage))
  {
    DepthOfBody(v, i, w);
    EffectIsSound(v, i, w, granted, threw);
    match BodyEffect(v, i, w, granted, threw) {
      case Moves(vm, p) =>
      case Ends(vm, outcome) =>
    }
  }

  /** A promise stops being live in exactly the step in which its body takes its handle out of the cache. */
  lemma ReleaseEndsLife(v: Vm, a: Action, i: nat)
    requires Inv(v) && Step(v, a).Some? && i < |v.promises|
    ensures i < |Step(v, a).value.promises|
    ensures ReleasesHandle(v, a, i) <==> Live(v.promises[i].stage) && !Live(Step(v, a).value.promises[i].stage)
    ensures !Live(v.promises[i].stage) ==> !Live(Step(v, a).value.promises[i].stage)
  {
    if a.LaneStep? {
      assert LaneInv(v.promises, v.lanes[a.w], a.w);
      var current := v.lanes[a.w].current.value;
      assert Step(v, a) == Some(BodyStep(v, current, a.w, a.granted, a.threw));
      if current == i {
        BodyReleases(v, a.w, a.granted, a.threw, i);
      } else {
        BodyLeavesOthers(v, current, a.w, a.granted, a.threw, i);
      }
    } else {
      OthersKeepLife(v, a, i);
    }
  }

  lemma BodyLeavesOthers(v: Vm, i: nat, w: nat, granted: bool, threw: bool, k: nat)
    requires i < |v.promises| && w < |v.lanes| && v.promises[i].stage.Run? && k < |v.promises| && k != i
    ensures |BodyStep(v, i, w, granted, threw).promises| == |v.promises|
    ensures BodyStep(v, i, w, granted, threw).promises[k] == v.promises[k]
  {
  }

  lemma OthersKeepLife(v: Vm, a: Action, i: nat)
    requires Inv(v) && Step(v, a).Some? && i < |v.promises| && !a.LaneStep?
    ensures i < |Step(v, a).value.promises|
    ensures Live(v.promises[i].stage) == Live(Step(v, a).value.promises[i].stage)
  {
    if a.StartTask? {
      assert LaneInv(v.promises, v.lanes[a.w], a.w);
    }
  }

  lemma NewIsLive(v: Vm, a: Action, i: nat)
    requires Step(v, a).Some? && |v.promises| <= i < |Step(v, a).value.promises|
    ensures Live(Step(v, a).value.promises[i].stage)
  {
  }

  /** In every run the body of a live promise has not released its handle, and that of any other has, once. */
  lemma {:induction false} ReleasedOnce(v: Vm, actions: seq<Action>, i: nat)
    requires Inv(v) && v.promises == [] && Exec(v, actions).Some?
    ensures var after := Exec(v, actions).value;
            && Inv(after)
            && Releases(v, actions, i) == if i < |after.promises| && !Live(after.promises[i].stage) then 1 else 0
  {
    if actions != [] {
      var init, last := actions[..|actions| - 1], actions[|actions| - 1];
      ReleasedOnce(v, init, i);
      var before := Exec(v, init).value;
      StepKeepsInv(before, last);
      if i < |before.promises| {
        ReleaseEndsLife(before, last, i);
      } else if i < |Step(before, last).value.promises| {
        NewIsLive(before, last, i);
      }
    }
  }

  /** Nothing but the body of its own promise takes a handle of this VM out of the cache. */
  lemma HandleLeavesWithItsBody(v: Vm, a: Action, h: Handle)
    requires Reachable(v) && Step(v, a).Some? && h in v.Own() && h !in Step(v, a).value.cache
    ensures exists i: nat :: ReleasesHandle(v, a, i) && v.promises[i].handle == h
  {
    ReachableInv(v);
    if a.LaneStep? {
      var i := v.lanes[a.w].current.value;
      assert LaneInv(v.promises, v.lanes[a.w], a.w);
      BodyTakesOnlyItsHandle(v, i, a.w, a.granted, a.threw);
      assert ReleasesHandle(v, a, i) && v.promises[i].handle == h;
    } else {
      OthersKeepHandles(v, a);
    }
  }

  lemma BodyTakesOnlyItsHandle(v: Vm, i: nat, w: nat, granted: bool, threw: bool)
    requires Inv(v) && Runs(v, i, w)
    ensures v.cache - {v.promises[i].handle} <= BodyStep(v, i, w, granted, threw).cache
  {
    DepthOfBody(v, i, w);
    EffectIsSound(v, i, w, granted, threw);
  }

  lemma OthersKeepHandles(v: Vm, a: Action)
    requires Step(v, a).Some? && !a.LaneStep?
    ensures v.Own() <= Step(v, a).value.cache
  {
  }

  /**
   In every run, a finished task has balanced its lock and its body has taken its handle out of the cache,
   once, unless its callback threw; a thrown one has done neither, and its handle is still there. The
   resolver was called once if the task settled, else never.
   */
  lemma FinishedTask(hasContext: bool, others: set<Handle>, actions: seq<Action>, v: Vm, i: nat)
    requires Exec(Init(hasContext, others), actions) == Some(v)
    requires i < |v.promises| && v.promises[i].stage.Finished?
    ensures var stage := v.promises[i].stage;
            && Releases(Init(hasContext, others), actions, i) == (if stage.outcome.Threw? then 0 else 1)
            && stage.exit == (if stage.outcome.Threw? then stage.entry + 1 else stage.entry)
            && (stage.outcome.Threw? ==> v.promises[i].handle in v.cache)
            && !stage.outcome.Missing?
            && v.promises[i].resolved == if stage.outcome.Settled? then 1 else 0
  {
    InitInv(hasContext, others);
    ReleasedOnce(Init(hasContext, others), actions, i);
    assert PromiseInv(v.lanes, v.promises[i]);
    if v.promises[i].stage.outcome.Threw? {
      LiveHandleIsCached(v, i);
    }
  }

  lemma OnlyBodiesResolve(v: Vm, a: Action, i: nat)
    requires Inv(v) && Step(v, a).Some? && i < |v.promises|
    requires Step(v, a).value.promises[i].resolved != v.promises[i].resolved
    ensures a.LaneStep? && Runs(v, i, a.w) && v.promises[i].stage.pc.Returned?
    ensures Step(v, a).value.promises[i].resolved == v.promises[i].resolved + 1
  {
    if a.LaneStep? {
      assert LaneInv(v.promises, v.lanes[a.w], a.w);
    }
  }

  /** Whenever a resolver is called, it is for the first time and by a thread that holds the VM lock. */
  lemma ResolverRunsOnceUnderLock(v: Vm, a: Action, i: nat)
    requires Reachable(v) && Step(v, a).Some? && i < |v.promises|
    requires Step(v, a).value.promises[i].resolved != v.promises[i].resolved
    ensures a.LaneStep? && v.owner == Some(LaneThread(a.w)) && v.depth > 0
    ensures v.promises[i].resolved == 0 && Step(v, a).value.promises[i].resolved == 1
  {
    ReachableInv(v);
    OnlyBodiesResolve(v, a, i);
    DepthOfBody(v, i, a.w);
  }

  // --- After a callback has thrown ---

  lemma ThrownOwnsLock(v: Vm, i: nat)
    requires Inv(v) && i < |v.promises| && v.promises[i].stage.Finished? && v.promises[i].stage.outcome.Threw?
    ensures v.owner == Some(LaneThread(v.promises[i].stage.w)) && v.promises[i].handle in v.cache
  {
    var w := v.promises[i].stage.w;
    assert PromiseInv(v.lanes, v.promises[i]);
    assert OwnDepth(v, LaneThread(w)) == v.lanes[w].leaked + CurrentLocks(v, w);
    assert v.promises[i].handle in LiveHandles(v.promises);
  }

  lemma FinishedIsFinal(v: Vm, a: Action, i: nat)
    requires Inv(v) && Step(v, a).Some? && i < |v.promises| && v.promises[i].stage.Finished?
    ensures i < |Step(v, a).value.promises| && Step(v, a).value.promises[i] == v.promises[i]
  {
    if a.StartTask? || a.LaneStep? {
      assert LaneInv(v.promises, v.lanes[a.w], a.w);
    }
  }

  lemma {:induction false} FinishedStays(v: Vm, actions: seq<Action>, i: nat)
    requires Inv(v) && Exec(v, actions).Some? && i < |v.promises| && v.promises[i].stage.Finished?
    ensures Inv(Exec(v, actions).value)
    ensures i < |Exec(v, actions).value.promises| && Exec(v, actions).value.promises[i] == v.promises[i]
  {
    if actions != [] {
      FinishedStays(v, actions[..|actions| - 1], i);
      StepKeepsInv(Exec(v, actions[..|actions| - 1]).value, actions[|actions| - 1]);
      FinishedIsFinal(Exec(v, actions[..|actions| - 1]).value, actions[|actions| - 1], i);
    }
  }

  /**
   After a throw the lane's thread owns the VM lock in every later state: no client ever gets it again, only
   that thread can destroy the VM, and the handle stays in the cache.
   */
  lemma ThrowIsForever(v: Vm, actions: seq<Action>, i: nat)
    requires Reachable(v) && i < |v.promises| && v.promises[i].stage.Finished? && v.promises[i].stage.outcome.Threw?
    requires Exec(v, actions).Some?
    ensures var after := Exec(v, actions).value;
            && after.owner == Some(LaneThread(v.promises[i].stage.w))
            && v.promises[i].handle in after.cache
            && (forall t :: Step(after, Destroy(t)).Some? ==> t == LaneThread(v.promises[i].stage.w))
            && forall c :: Step(after, ClientLock(c)).None?
  {
    ReachableInv(v);
    FinishedStays(v, actions, i);
    ThrownOwnsLock(Exec(v, actions).value, i);
  }

  lemma Reach(v: Vm, a: Action) returns (after: Vm)
    requires Reachable(v) && Step(v, a).Some?
    ensures after == Step(v, a).value && Reachable(after)
  {
    var hasContext, others, actions :| Exec(Init(hasContext, others), actions) == Some(v);
    after := Step(v, a).value;
    assert (actions + [a])[..|actions|] == actions;
    assert Exec(Init(hasContext, others), actions + [a]) == Some(after);
  }

  /** A VM with one promise on one lane, owned as said, and with an outside reference or without. */
  function OnePromise(stage: Stage, lane: Lane, owner: Option<Thread>, depth: nat, external: bool): Vm {
    Vm([Promise(7, stage, 0)], {7}, {}, [lane], owner, depth, external, true, true)
  }

  const RUNNING_LANE := NEW_LANE.(current := Some(0))

  lemma TaskIsQueued() returns (v: Vm)
    ensures Reachable(v) && v == OnePromise(Queued(0), NEW_LANE.(queue := [0]), None, 0, true)
  {
    v := Init(true, {});
    assert Exec(v, []) == Some(v);
    v := Reach(v, OpenLane);
    v := Reach(v, NewPromise(0, 7));
    assert v == OnePromise(Created(0), NEW_LANE, Some(Client(0)), 1, true);
    v := Reach(v, LeaveNew(0));
    assert v == OnePromise(Submitting, NEW_LANE, None, 0, true);
    v := Reach(v, Dispatch(0, 0));
    assert NEW_LANE.queue + [0] == [0];
  }

  lemma TaskIsTrying() returns (v: Vm)
    ensures Reachable(v) && v == OnePromise(Run(0, Trying(0), 0), RUNNING_LANE, None, 0, true)
  {
    v := TaskIsQueued();
    v := Reach(v, StartTask(0));
    assert [0][1..] == [];
    assert v == OnePromise(Run(0, Starting, 0), RUNNING_LANE, None, 0, true);
    v := Reach(v, LaneStep(0, true, true));
  }

  lemma CallbackIsCalled(v: Vm) returns (after: Vm)
    requires Reachable(v) && v == OnePromise(Run(0, Trying(0), 0), RUNNING_LANE, None, 0, v.external)
    ensures Reachable(after)
    ensures after == OnePromise(Run(0, Calling, 0), RUNNING_LANE, Some(LaneThread(0)), 1, v.external)
  {
    after := Reach(v, LaneStep(0, true, true));
    assert after == OnePromise(Run(0, Locked, 0), RUNNING_LANE, Some(LaneThread(0)), 1, v.external);
    after := Reach(after, LaneStep(0, true, true));
  }

  /** A call that throws ends the task and leaves the rest as it is. */
  lemma ThrowStep(external: bool)
    ensures var v := OnePromise(Run(0, Calling, 0), RUNNING_LANE, Some(LaneThread(0)), 1, external);
            Step(v, LaneStep(0, true, true)) == Some(OnePromise(
              Finished(0, Threw, 0, 1), NEW_LANE.(done := [0], leaked := 1), Some(LaneThread(0)), 1, external))
  {
    var v := OnePromise(Run(0, Calling, 0), RUNNING_LANE, Some(LaneThread(0)), 1, external);
    var ended := NEW_LANE.(done := [0], leaked := 1);
    assert BodyEffect(v, 0, 0, true, true) == Ends(v, Threw);
    assert RUNNING_LANE.done + [0] == [0];
    assert Finish(v, 0, 0, Threw, 0).lanes == [ended];
    assert Finish(v, 0, 0, Threw, 0).promises == [Promise(7, Finished(0, Threw, 0, 1), 0)];
  }

  /** The callback of a task that has its reference to the VM throws. */
  lemma CallbackThrows(v: Vm) returns (after: Vm)
    requires Reachable(v) && v == OnePromise(Run(0, Trying(0), 0), RUNNING_LANE, None, 0, v.external)
    ensures Reachable(after)
    ensures after == OnePromise(
              Finished(0, Threw, 0, 1), NEW_LANE.(done := [0], leaked := 1), Some(LaneThread(0)), 1, v.external)
  {
    after := CallbackIsCalled(v);
    ThrowStep(v.external);
    after := Reach(after, LaneStep(0, true, true));
  }

  /** One promise whose callback throws: the lock stays at depth one and the handle stays in the cache. */
  lemma ThrowHappens() returns (v: Vm)
    ensures Reachable(v) && |v.promises| == 1 && v.promises[0].stage == Finished(0, Threw, 0, 1)
    ensures v.owner == Some(LaneThread(0)) && v.depth == 1 && 7 in v.cache && v.alive
  {
    v := TaskIsTrying();
    v := CallbackThrows(v);
  }

  /**
   When the outside reference goes away while the callback runs, its task holds the last one, and the throw
   destroys the VM on the lane's thread, inside its own lock.
   */
  lemma DestroyAfterThrow() returns (v: Vm)
    ensures Reachable(v) && !v.alive && |v.promises| == 1 && v.promises[0].stage == Finished(0, Threw, 0, 1)
    ensures v.owner == Some(LaneThread(0)) && v.depth == 1 && 7 in v.cache
  {
    v := TaskIsTrying();
    v := Reach(v, DropExternal);
    v := CallbackThrows(v);
    v := Reach(v, Destroy(LaneThread(0)));
  }

  // --- Tasks dropped at shutdown ---

  predicate Dropped(v: Vm, i: nat, w: nat) {
    && i < |v.promises| && v.promises[i].stage == Queued(w) && v.promises[i].resolved == 0
    && w < |v.lanes| && v.lanes[w].closed
  }

  lemma DroppedStep(v: Vm, a: Action, i: nat, w: nat)
    requires Inv(v) && Step(v, a).Some? && Dropped(v, i, w)
    ensures Dropped(Step(v, a).value, i, w) && Step(v, a).value.promises[i] == v.promises[i]
  {
    if a.StartTask? || a.LaneStep? {
      assert LaneInv(v.promises, v.lanes[a.w], a.w);
      if a.LaneStep? {
        BodyKeepsClosed(v, v.lanes[a.w].current.value, a.w, a.granted, a.threw, w);
      }
    }
  }

  lemma BodyKeepsClosed(v: Vm, i: nat, w: nat, granted: bool, threw: bool, u: nat)
    requires Inv(v) && Runs(v, i, w) && u < |v.lanes|
    ensures var after := BodyStep(v, i, w, granted, threw);
            |after.lanes| == |v.lanes| && after.lanes[u].closed == v.lanes[u].closed
  {
    DepthOfBody(v, i, w);
    EffectIsSound(v, i, w, granted, threw);
  }

  /** A task still queued when its lane is closed never starts: its promise stays pending, its handle cached. */
  lemma {:induction false} DroppedForever(v: Vm, actions: seq<Action>, i: nat, w: nat)
    requires Reachable(v) && Dropped(v, i, w) && Exec(v, actions).Some?
    ensures var after := Exec(v, actions).value;
            && Inv(after) && Dropped(after, i, w)
            && after.promises[i] == v.promises[i] && v.promises[i].handle in after.cache
  {
    ReachableInv(v);
    if actions != [] {
      var init, last := actions[..|actions| - 1], actions[|actions| - 1];
      DroppedForever(v, init, i, w);
      StepKeepsInv(Exec(v, init).value, last);
      DroppedStep(Exec(v, init).value, last, i, w);
    }
    var after := Exec(v, actions).value;
    assert after.promises[i].handle in LiveHandles(after.promises);
  }
}
