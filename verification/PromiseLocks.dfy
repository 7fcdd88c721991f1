/**
 Who gets the VM lock, and when: exactly when a client does, that the calls in pairs leave lock and cache as
 they found them, and how often and against what a task tries.
 */
module PromiseLocks {
  import opened Prelude
  import opened PromiseLedger

  // --- A lane holds the lock only for a body inside it, or for a callback that threw ---

  predicate ThrewOn(stage: Stage, w: nat) {
    stage.Finished? && stage.outcome.Threw? && stage.w == w
  }

  predicate SomeThrewOn(v: Vm, w: nat) {
    exists i | 0 <= i < |v.promises| :: ThrewOn(v.promises[i].stage, w)
  }

  predicate LeaksExplained(v: Vm) {
    forall w | 0 <= w < |v.lanes| && v.lanes[w].leaked > 0 :: SomeThrewOn(v, w)
  }

  /** A finished promise stays as it is. */
  lemma ThrewStays(v: Vm, a: Action, w: nat)
    requires Inv(v) && Step(v, a).Some? && SomeThrewOn(v, w)
    ensures SomeThrewOn(Step(v, a).value, w)
  {
    var i :| 0 <= i < |v.promises| && ThrewOn(v.promises[i].stage, w);
    FinishedIsFinal(v, a, i);
    assert ThrewOn(Step(v, a).value.promises[i].stage, w);
  }

  /** A new leak comes from the body that has just thrown. */
  lemma BodyLeaks(v: Vm, i: nat, w: nat, granted: bool, threw: bool, u: nat)
    requires Inv(v) && Runs(v, i, w) && u < |v.lanes|
    ensures var after := BodyStep(v, i, w, granted, threw);
            && u < |after.lanes|
            && (after.lanes[u].leaked == v.lanes[u].leaked
                || (i < |after.promises| && ThrewOn(after.promises[i].stage, u)))
  {
    DepthOfBody(v, i, w);
    EffectIsSound(v, i, w, granted, threw);
  }

  lemma OthersLeakNothing(v: Vm, a: Action, u: nat)
    requires Step(v, a).Some? && !a.LaneStep? && u < |Step(v, a).value.lanes|
    ensures Step(v, a).value.lanes[u].leaked == if u < |v.lanes| then v.lanes[u].leaked else 0
  {
  }

  lemma StepKeepsLeaks(v: Vm, a: Action)
    requires Inv(v) && Step(v, a).Some? && LeaksExplained(v)
    ensures LeaksExplained(Step(v, a).value)
  {
    var after := Step(v, a).value;
    forall u | 0 <= u < |after.lanes| && after.lanes[u].leaked > 0
      ensures SomeThrewOn(after, u)
    {
      if a.LaneStep? {
        var i := v.lanes[a.w].current.value;
        assert LaneInv(v.promises, v.lanes[a.w], a.w);
        BodyKeepsLanes(v, i, a.w, a.granted, a.threw);
        BodyLeaks(v, i, a.w, a.granted, a.threw, u);
      } else {
        OthersLeakNothing(v, a, u);
      }
      if u < |v.lanes| && v.lanes[u].leaked > 0 {
        ThrewStays(v, a, u);
      }
    }
  }

  lemma BodyKeepsLanes(v: Vm, i: nat, w: nat, granted: bool, threw: bool)
    requires Inv(v) && Runs(v, i, w)
    ensures |BodyStep(v, i, w, granted, threw).lanes| == |v.lanes|
  {
    BodyKeepsClosed(v, i, w, granted, threw, w);
  }

  lemma {:induction false} ExecKeepsLeaks(v: Vm, actions: seq<Action>)
    requires Inv(v) && LeaksExplained(v) && Exec(v, actions).Some?
    ensures Inv(Exec(v, actions).value) && LeaksExplained(Exec(v, actions).value)
  {
    if actions != [] {
      var init, last := actions[..|actions| - 1], actions[|actions| - 1];
      ExecKeepsLeaks(v, init);
      StepKeepsInv(Exec(v, init).value, last);
      StepKeepsLeaks(Exec(v, init).value, last);
    }
  }

  lemma ReachableLeaks(v: Vm)
    requires Reachable(v)
    ensures Inv(v) && LeaksExplained(v)
  {
    var hasContext, others, actions :| Exec(Init(hasContext, others), actions) == Some(v);
    InitInv(hasContext, others);
    ExecKeepsLeaks(Init(hasContext, others), actions);
  }

  // --- When a client gets the lock ---

  /** The task is between getting the lock and giving it back. */
  predicate BodyInLock(stage: Stage) {
    && stage.Run?
    && (stage.pc.Locked? || stage.pc.Calling? || stage.pc.Returned? || stage.pc.Resolved? || stage.pc.Cleared?)
  }

  predicate HasThrown(stage: Stage) {
    stage.Finished? && stage.outcome.Threw?
  }

  predicate OtherClientInside(v: Vm, c: nat) {
    v.owner.Some? && v.owner.value.Client? && v.owner.value.c != c
  }

  predicate LanesAreOut(v: Vm) {
    forall i | 0 <= i < |v.promises| :: !BodyInLock(v.promises[i].stage) && !HasThrown(v.promises[i].stage)
  }

  lemma LaneInsideOwns(v: Vm, i: nat)
    requires Inv(v) && i < |v.promises| && (BodyInLock(v.promises[i].stage) || HasThrown(v.promises[i].stage))
    ensures v.owner.Some? && v.owner.value.LaneThread?
  {
    assert StageInv(v.lanes, i, v.promises[i].stage) && PromiseInv(v.lanes, v.promises[i]);
    var w := v.promises[i].stage.w;
    assert OwnDepth(v, LaneThread(w)) == v.lanes[w].leaked + CurrentLocks(v, w);
  }

  lemma OwnerIsInside(v: Vm, w: nat)
    requires Inv(v) && LeaksExplained(v) && v.owner == Some(LaneThread(w))
    ensures !LanesAreOut(v)
  {
    assert OwnDepth(v, LaneThread(w)) == v.lanes[w].leaked + CurrentLocks(v, w);
    if v.lanes[w].leaked > 0 {
      assert SomeThrewOn(v, w);
      var i :| 0 <= i < |v.promises| && ThrewOn(v.promises[i].stage, w);
      assert HasThrown(v.promises[i].stage);
    } else {
      var i := v.lanes[w].current.value;
      assert BodyInLock(v.promises[i].stage);
    }
  }

  /**
   A client gets the lock of a live VM exactly when no other client has it, no task is between getting and
   giving it back, and no task's callback has ever thrown.
   */
  lemma ClientGetsLockIff(v: Vm, c: nat)
    requires Reachable(v) && v.alive
    ensures Step(v, ClientLock(c)).Some? <==> !OtherClientInside(v, c) && LanesAreOut(v)
    ensures Step(v, ClientLock(c)).Some? ==>
              Step(v, ClientLock(c)) == Some(v.(owner := Some(Client(c)), depth := v.depth + 1))
  {
    ReachableLeaks(v);
    if !LanesAreOut(v) {
      var i :| 0 <= i < |v.promises| && (BodyInLock(v.promises[i].stage) || HasThrown(v.promises[i].stage));
      LaneInsideOwns(v, i);
    } else if v.owner.Some? && v.owner.value.LaneThread? {
      OwnerIsInside(v, v.owner.value.w);
    }
  }

  // --- Calls in pairs ---

  lemma ExecTwo(v: Vm, a: Action, b: Action)
    requires Step(v, a).Some? && Step(Step(v, a).value, b).Some?
    ensures Exec(v, [a, b]) == Step(Step(v, a).value, b)
  {
    assert [a, b][..1] == [a] && [a][..0] == [];
    assert Exec(v, [a]) == Step(v, a);
  }

  predicate NobodyCreates(v: Vm) {
    forall i | 0 <= i < |v.promises| :: !v.promises[i].stage.Created?
  }

  /** Locking and unlocking leaves the VM as it was, however often its client is inside the lock. */
  lemma LockThenUnlock(v: Vm, c: nat)
    requires Reachable(v) && v.alive && !OtherClientInside(v, c) && LanesAreOut(v) && NobodyCreates(v)
    ensures Exec(v, [ClientLock(c), ClientUnlock(c)]) == Some(v)
  {
    ReachableInv(v);
    ClientGetsLockIff(v, c);
    ExecTwo(v, ClientLock(c), ClientUnlock(c));
  }

  /** While client `c` is making a promise. */
  function Making(v: Vm, c: nat, handle: Handle): Vm {
    v.(promises := v.promises + [Promise(handle, Created(c), 0)], cache := v.cache + {handle},
       owner := Some(Client(c)), depth := v.depth + 1)
  }

  lemma MakingIsLeft(v: Vm, c: nat, handle: Handle)
    requires (v.owner.None? <==> v.depth == 0) && (v.owner.Some? ==> v.owner == Some(Client(c)))
    ensures Step(Making(v, c, handle), LeaveNew(|v.promises|))
         == Some(v.(promises := v.promises + [Promise(handle, Submitting, 0)], cache := v.cache + {handle}))
  {
    var made := v.promises + [Promise(handle, Created(c), 0)];
    assert made[|v.promises| := Promise(handle, Submitting, 0)] == v.promises + [Promise(handle, Submitting, 0)];
  }

  /** Making a promise adds its handle to the cache, leaves the lock as it was, and hands its task over. */
  lemma NewPromiseBalances(v: Vm, c: nat, handle: Handle)
    requires Reachable(v) && v.external && !OtherClientInside(v, c) && LanesAreOut(v) && NobodyCreates(v)
    requires handle !in v.cache
    ensures Exec(v, [NewPromise(c, handle), LeaveNew(|v.promises|)])
         == Some(v.(promises := v.promises + [Promise(handle, Submitting, 0)], cache := v.cache + {handle}))
  {
    ReachableInv(v);
    ClientGetsLockIff(v, c);
    assert Step(v, NewPromise(c, handle)) == Some(Making(v, c, handle));
    MakingIsLeft(v, c, handle);
    ExecTwo(v, NewPromise(c, handle), LeaveNew(|v.promises|));
  }

  /** An entry of another VM comes and goes without a trace, whenever its address is not in the cache. */
  lemma OtherVmComesAndGoes(v: Vm, handle: Handle)
    requires handle !in v.cache && handle !in v.others
    ensures Exec(v, [OtherAdds(handle), OtherRemoves(handle)]) == Some(v)
  {
    ExecTwo(v, OtherAdds(handle), OtherRemoves(handle));
    assert v.cache + {handle} - {handle} == v.cache && v.others + {handle} - {handle} == v.others;
  }

  // --- What a task tries ---

  /** The task that has just started gives up at once exactly when nothing else keeps the VM. */
  lemma ExpiresIff(v: Vm, i: nat, w: nat, granted: bool, threw: bool)
    requires Runs(v, i, w) && v.promises[i].stage.pc.Starting?
    ensures var after := BodyStep(v, i, w, granted, threw).promises;
            && |after| == |v.promises|
            && (after[i].stage.Finished? <==>
                  !v.external && forall k | 0 <= k < |v.promises| && v.promises[k].stage.Run? ::
                    v.promises[k].stage.pc.Starting?)
            && (after[i].stage.Finished? ==> after[i].stage.outcome.Expired?)
  {
    var after := BodyStep(v, i, w, granted, threw).promises;
    if !Referenced(v) {
      forall k | 0 <= k < |v.promises| && v.promises[k].stage.Run?
        ensures v.promises[k].stage.pc.Starting?
      {
        assert !HoldsVm(v.promises[k].stage);
      }
    }
  }

  function Refusals(w: nat, n: nat): seq<Action> {
    seq(n, _ => LaneStep(w, false, false))
  }

  /** The task of promise `i` on lane `w` has been refused the lock `n` times. */
  predicate IsRefused(v: Vm, i: nat, w: nat, n: nat) {
    Runs(v, i, w) && v.promises[i].stage.pc == Trying(n)
  }

  lemma {:induction false} Refused(v: Vm, i: nat, w: nat, n: nat)
    requires IsRefused(v, i, w, 0) && n <= 9
    ensures Exec(v, Refusals(w, n)).Some? && IsRefused(Exec(v, Refusals(w, n)).value, i, w, n)
    ensures var after := Exec(v, Refusals(w, n)).value;
            after == v.(promises := after.promises) && |after.promises| == |v.promises|
            && after.promises[i].handle == v.promises[i].handle
  {
    if n > 0 {
      Refused(v, i, w, n - 1);
      assert Refusals(w, n)[..n - 1] == Refusals(w, n - 1);
    }
  }

  /** A task is refused nine times without giving up; the tenth time it ends, and its handle leaves the cache. */
  lemma TenthRefusalEnds(v: Vm, i: nat, w: nat)
    requires IsRefused(v, i, w, 0)
    ensures forall n: nat | n <= 9 ::
              Exec(v, Refusals(w, n)).Some? && IsRefused(Exec(v, Refusals(w, n)).value, i, w, n)
    ensures Exec(v, Refusals(w, 10)).Some?
    ensures var after := Exec(v, Refusals(w, 10)).value;
            && i < |after.promises| && after.promises[i].stage.Finished? && after.promises[i].stage.outcome.NoLock?
            && after.cache == v.cache - {v.promises[i].handle}
            && after.owner == v.owner && after.depth == v.depth
  {
    forall n: nat | n <= 9
      ensures Exec(v, Refusals(w, n)).Some? && IsRefused(Exec(v, Refusals(w, n)).value, i, w, n)
    {
      Refused(v, i, w, n);
    }
    Refused(v, i, w, 9);
    assert Refusals(w, 10)[..9] == Refusals(w, 9);
  }

  /** One attempt that is granted gets the lock, after any number of refusals. */
  lemma GrantGetsLock(v: Vm, i: nat, w: nat, n: nat)
    requires IsRefused(v, i, w, n) && (v.owner.None? || v.owner == Some(LaneThread(w)))
    ensures var after := BodyStep(v, i, w, true, false);
            && after.owner == Some(LaneThread(w)) && after.depth == v.depth + 1
            && i < |after.promises| && after.promises[i].stage.Run? && after.promises[i].stage.pc.Locked?
  {
  }
}
