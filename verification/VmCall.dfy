/**
 Calling a script function and awaiting its promise, from the point of view of one thread. What other
 threads, the clock and the script do comes in through `Env`: the outcome of each attempt to lock, each
 reading of the clock, the state of the promise at each poll, and the results of the script.
 */
module VmCall {
  import opened Prelude

  datatype Value = Undefined | Exception | Text(s: string) | Object(id: nat)

  datatype PromiseState = Pending | Fulfilled | Rejected | NotAPromise

  const MAX_AWAIT := 15 * 1000 * 1000
  const CALL_RETRIES := 10

  datatype Env = Env(
    ready: bool,                    // there is a context and a global object
    lockGranted: nat -> bool,       // attempts at the start of a call
    isFunction: bool,
    called: Value,                  // what the script function returns
    pollGranted: nat -> bool,       // timed attempts while polling
    state: nat -> PromiseState,
    settledValue: Value,
    now: nat -> int)                // reading 0 is taken before the first poll

  ghost predicate AdvancingClock(env: Env) {
    forall i: nat :: Later(env, i)
  }

  predicate Later(env: Env, i: nat) {
    env.now(i) < env.now(i + 1)
  }

  lemma {:induction false} ClockGains(env: Env, i: nat)
    requires AdvancingClock(env)
    ensures env.now(i) >= env.now(0) + i
  {
    if i > 0 {
      ClockGains(env, i - 1);
      assert Later(env, i - 1);
    }
  }

  predicate SeenSettled(env: Env, i: nat) {
    env.pollGranted(i) && !env.state(i).Pending?
  }

  predicate PastDeadline(env: Env, i: nat) {
    env.now(i + 1) - env.now(0) > MAX_AWAIT
  }

  predicate NotEndedBefore(env: Env, poll: nat) {
    forall i: nat | i < poll :: !SeenSettled(env, i) && !PastDeadline(env, i)
  }

  /** The poll at which the wait ends: the first that sees the promise settled or the deadline passed. */
  predicate EndsAt(env: Env, last: nat) {
    (SeenSettled(env, last) || PastDeadline(env, last)) && NotEndedBefore(env, last)
  }

  function AwaitResult(env: Env, last: nat): Value {
    if !SeenSettled(env, last) then Undefined
    else
      match env.state(last)
      case Fulfilled => env.settledValue
      case Rejected => Exception
      case _ => Undefined
  }

  /** The wait sees the promise fulfilled or rejected in time. */
  predicate Settles(env: Env, last: nat) {
    SeenSettled(env, last) && (env.state(last).Fulfilled? || env.state(last).Rejected?)
  }

  /** One of the first `attempts` attempts to lock is granted. */
  predicate LockHad(env: Env, attempts: nat) {
    exists i :: 0 <= i < attempts && env.lockGranted(i)
  }

  function ToText(v: Value): string {
    match v
    case Text(s) => s
    case Undefined => "undefined"
    case Exception => ""
    case Object(_) => "[object Object]"
  }

  /** The call's value is an object that it awaits. */
  predicate Awaited(awaits: bool, env: Env) {
    awaits && env.called.Object?
  }

  /** The text of a call; `last` is the poll at which an awaited promise was settled or given up. */
  function CallText(awaits: bool, env: Env, last: nat): string {
    if Awaited(awaits, env) then ToText(AwaitResult(env, last)) else ToText(env.called)
  }

  /** What a call releases: the value, or what was awaited of it and its result, and the parameters. */
  function Released(awaits: bool, params: Value, env: Env, last: nat): multiset<Value> {
    if !Awaited(awaits, env) then multiset{env.called, params}
    else if Settles(env, last) then multiset{env.called} + multiset{AwaitResult(env, last), params}
    else multiset{AwaitResult(env, last), params}
  }

  class JSVM {
    /** How often the calling thread holds the VM lock. */
    var depth: nat
    /** Values released by this thread. */
    var freed: multiset<Value>
    /** The depth outside the poll's own attempt, for each poll. */
    ghost var pollDepths: seq<nat>

    constructor (depth: nat)
      ensures this.depth == depth && freed == multiset{} && pollDepths == []
    {
      this.depth, freed, pollDepths := depth, multiset{}, [];
    }

    method Unlock()
      requires depth > 0
      modifies this`depth
      ensures depth == old(depth) - 1
    {
      depth := depth - 1;
    }

    /** At least one attempt, then up to `retryCount` in all. */
    method LockAutoRetry(retryCount: nat, env: Env) returns (locked: bool)
      modifies this`depth
      ensures locked <==> LockHad(env, if retryCount == 0 then 1 else retryCount)
      ensures depth == old(depth) + if locked then 1 else 0
    {
      var count := 0;
      while true
        invariant count <= retryCount && (retryCount > 0 ==> count < retryCount) && depth == old(depth)
        invariant forall i | 0 <= i < count :: !env.lockGranted(i)
        decreases retryCount - count
      {
        locked := env.lockGranted(count);
        if locked {
          depth := depth + 1;
          return true;
        }
        if retryCount == 0 {
          return false;
        }
        count := count + 1;
        if count >= retryCount {
          return false;
        }
      }
    }

    /** One timed attempt to lock and look at the promise; the lock is given back at once. */
    method PollOnce(obj: Value, poll: nat, env: Env) returns (ret: Value, needWait: bool)
      modifies this
      ensures depth == old(depth) && pollDepths == old(pollDepths) + [old(depth)]
      ensures needWait <==> !SeenSettled(env, poll)
      ensures ret == AwaitResult(env, poll)
      ensures freed == if Settles(env, poll) then old(freed) + multiset{obj} else old(freed)
      ensures env.pollGranted(poll) && env.state(poll).Fulfilled? ==> ret == env.settledValue
      ensures env.pollGranted(poll) && env.state(poll).Rejected? ==> ret == Exception
      ensures env.pollGranted(poll) && (env.state(poll).Fulfilled? || env.state(poll).Rejected?) ==>
                freed == old(freed) + multiset{obj} && !needWait
      ensures !env.pollGranted(poll) || env.state(poll).Pending? ==> needWait
    {
      ret, needWait := Undefined, true;
      pollDepths := pollDepths + [depth];
      if env.pollGranted(poll) {
        depth := depth + 1;
        var state := env.state(poll);
        needWait := state.Pending?;
        match state {
          case Fulfilled =>
            ret := env.settledValue;
            freed := freed + multiset{obj};
          case Rejected =>
            ret := Exception;
            freed := freed + multiset{obj};
          case _ =>
        }
        Unlock();
      }
    }

    /** Polls until the promise has settled or the deadline has passed; `last` is the number of the last poll. */
    method JAwait(obj: Value, env: Env) returns (ret: Value, ghost last: nat)
      requires AdvancingClock(env)
      modifies this
      ensures depth == old(depth)
      ensures old(pollDepths) <= pollDepths
      ensures forall i | |old(pollDepths)| <= i < |pollDepths| :: pollDepths[i] == old(depth)
      ensures !obj.Object? ==> ret == obj && freed == old(freed) && pollDepths == old(pollDepths)
      ensures obj.Object? ==> EndsAt(env, last) && last <= MAX_AWAIT && ret == AwaitResult(env, last)
      ensures obj.Object? ==> |pollDepths| == |old(pollDepths)| + last + 1
      ensures obj.Object? ==> freed == if Settles(env, last) then old(freed) + multiset{obj} else old(freed)
      ensures obj.Object? && env.pollGranted(last) && env.state(last).Fulfilled? ==>
                ret == env.settledValue && freed == old(freed) + multiset{obj}
      ensures obj.Object? && env.pollGranted(last) && env.state(last).Rejected? ==>
                ret == Exception && freed == old(freed) + multiset{obj}
      ensures obj.Object? && (!env.pollGranted(last) || env.state(last).Pending?) ==>
                ret == Undefined && freed == old(freed) && env.now(last + 1) - env.now(0) > 15_000_000
    {
      last := 0;
      if !obj.Object? {
        return obj, 0;
      }
      var beginTime := env.now(0);
      ret := Undefined;
      var needWait := true;
      var poll := 0;
      while needWait
        invariant depth == old(depth) && old(pollDepths) <= pollDepths
        invariant forall i | |old(pollDepths)| <= i < |pollDepths| :: pollDepths[i] == old(depth)
        invariant |pollDepths| == |old(pollDepths)| + poll
        invariant needWait ==> ret == Undefined && freed == old(freed) && NotEndedBefore(env, poll)
        invariant !needWait ==> poll == last + 1 && EndsAt(env, last) && ret == AwaitResult(env, last)
        invariant !needWait ==> freed == if Settles(env, last) then old(freed) + multiset{obj} else old(freed)
        invariant last <= MAX_AWAIT && (needWait ==> env.now(poll) - beginTime <= MAX_AWAIT)
        decreases needWait, MAX_AWAIT - (env.now(poll) - beginTime)
      {
        assert Later(env, poll);
        ClockGains(env, poll);
        ret, needWait := PollOnce(obj, poll, env);
        if needWait && env.now(poll + 1) - beginTime > MAX_AWAIT {
          needWait := false;
        }
        last := poll;
        poll := poll + 1;
      }
    }

    /**
     The part of a call after the lock was had: the script runs, and a promise is awaited outside the lock.
     `locked` tells whether the call still holds its own acquisition.
     */
    method RunFunction(awaits: bool, env: Env) returns (success: bool, locked: bool, jRes: Value, ghost last: nat)
      requires AdvancingClock(env) && depth > 0
      modifies this
      ensures depth == old(depth) - (if locked then 0 else 1) && old(pollDepths) <= pollDepths
      ensures forall i | |old(pollDepths)| <= i < |pollDepths| :: pollDepths[i] == old(depth) - 1
      ensures success <==> !env.called.Exception?
      ensures !(success && awaits && env.called.Object?) ==> jRes == env.called && freed == old(freed)
      ensures success && awaits && env.called.Object? ==> EndsAt(env, last) && jRes == AwaitResult(env, last)
      ensures success && awaits && env.called.Object? && env.pollGranted(last) && env.state(last).Fulfilled? ==>
                jRes == env.settledValue
      ensures success && awaits && env.called.Object? && env.pollGranted(last) && env.state(last).Rejected? ==>
                jRes == Exception
      ensures success && awaits && env.called.Object? ==>
                freed == if Settles(env, last) then old(freed) + multiset{env.called} else old(freed)
    {
      jRes := env.called;
      success := !jRes.Exception?;
      locked := true;
      last := 0;
      if success && awaits {
        Unlock();
        locked := false;
        jRes, last := JAwait(jRes, env);
      }
    }

    /** The branch for an existing function: its text, and what is released. */
    method CallFunction(awaits: bool, params: Value, env: Env)
      returns (success: bool, locked: bool, s: string, ghost last: nat)
      requires AdvancingClock(env) && depth > 0
      modifies this
      ensures depth == old(depth) - (if locked then 0 else 1) && old(pollDepths) <= pollDepths
      ensures forall i | |old(pollDepths)| <= i < |pollDepths| :: pollDepths[i] == old(depth) - 1
      ensures success <==> !env.called.Exception?
      ensures success ==> s == CallText(awaits, env, last)
      ensures success && Awaited(awaits, env) ==> EndsAt(env, last)
      ensures freed == old(freed) + Released(awaits, params, env, last)
    {
      var jRes;
      s := "";
      success, locked, jRes, last := RunFunction(awaits, env);
      if success {
        s := ToText(jRes);
      }
      freed := freed + multiset{jRes, params};
    }

    /**
     On every path the thread leaves with the lock depth it came with, and polls without the call's own
     acquisition. A result is there exactly when the lock was had and the function exists and did not throw.
     */
    method CallFunc(awaits: bool, params: Value, env: Env) returns (r: Option<string>, ghost last: nat)
      requires AdvancingClock(env)
      modifies this
      ensures depth == old(depth)
      ensures old(pollDepths) <= pollDepths
      ensures forall i | |old(pollDepths)| <= i < |pollDepths| :: pollDepths[i] == old(depth)
      ensures r.Some? <==> env.ready && LockHad(env, CALL_RETRIES) && env.isFunction && !env.called.Exception?
      ensures r.Some? ==> r.value == CallText(awaits, env, last)
      ensures r.Some? && Awaited(awaits, env) ==> EndsAt(env, last)
      ensures freed == old(freed) + if env.ready && LockHad(env, CALL_RETRIES) && env.isFunction
                                    then Released(awaits, params, env, last) else multiset{}
    {
      last := 0;
      if !env.ready {
        return None, 0;
      }
      var got := LockAutoRetry(CALL_RETRIES, env);
      if !got {
        return None, 0;
      }
      var s := "";
      var success := false;
      var locked := true;
      if env.isFunction {
        success, locked, s, last := CallFunction(awaits, params, env);
      }
      if locked {
        Unlock();
      }
      r := if success then Some(s) else None;
    }
  }

  // --- The wait ---

  predicate Uneventful(env: Env, i: nat) {
    (env.pollGranted(i) ==> env.state(i) == Pending) && env.now(i + 1) <= env.now(0) + 15_000_000
  }

  /** A call makes ten attempts to lock. */
  lemma AttemptsRead(env: Env)
    ensures LockHad(env, CALL_RETRIES) <==> exists i | 0 <= i < 10 :: env.lockGranted(i)
  {
  }

  /** The text of a call, spelled out. */
  lemma CallReads(awaits: bool, env: Env, last: nat)
    ensures !awaits && env.called.Text? ==> CallText(awaits, env, last) == env.called.s
    ensures awaits && env.called.Text? ==> CallText(awaits, env, last) == env.called.s
    ensures env.called == Undefined ==> CallText(awaits, env, last) == "undefined"
    ensures awaits && env.called.Object? && env.pollGranted(last) && env.state(last) == Fulfilled ==>
              (env.settledValue.Text? ==> CallText(awaits, env, last) == env.settledValue.s)
    ensures awaits && env.called.Object? && env.pollGranted(last) && env.state(last) == Rejected ==>
              CallText(awaits, env, last) == ""
    ensures awaits && env.called.Object? && (!env.pollGranted(last) || env.state(last) == Pending) ==>
              CallText(awaits, env, last) == "undefined"
  {
  }

  /** What a call releases, spelled out: an awaited promise exactly when it was seen settled. */
  lemma ReleasesRead(awaits: bool, params: Value, env: Env, last: nat)
    ensures !(awaits && env.called.Object?) ==> Released(awaits, params, env, last) == multiset{env.called, params}
    ensures awaits && env.called.Object? && env.pollGranted(last) && env.state(last) == Fulfilled ==>
              Released(awaits, params, env, last) == multiset{env.called} + multiset{env.settledValue, params}
    ensures awaits && env.called.Object? && env.pollGranted(last) && env.state(last) == Rejected ==>
              Released(awaits, params, env, last) == multiset{env.called} + multiset{Exception, params}
    ensures awaits && env.called.Object? && (!env.pollGranted(last) || env.state(last) in {Pending, NotAPromise}) ==>
              Released(awaits, params, env, last) == multiset{Undefined, params}
  {
  }

  /** The wait, spelled out: it ends at the first poll that sees an end or after which fifteen seconds have passed. */
  lemma WaitReads(env: Env, last: nat)
    requires EndsAt(env, last)
    ensures (env.pollGranted(last) && env.state(last) != Pending) || env.now(last + 1) > env.now(0) + 15_000_000
    ensures forall i: nat | i < last :: Uneventful(env, i)
    ensures env.pollGranted(last) && env.state(last) == Fulfilled ==> AwaitResult(env, last) == env.settledValue
    ensures env.pollGranted(last) && env.state(last) == Rejected ==> AwaitResult(env, last) == Exception
    ensures env.pollGranted(last) && env.state(last) == NotAPromise ==> AwaitResult(env, last) == Undefined
    ensures !env.pollGranted(last) || env.state(last) == Pending ==> AwaitResult(env, last) == Undefined
    ensures Settles(env, last) <==> env.pollGranted(last) && env.state(last) in {Fulfilled, Rejected}
  {
    forall i: nat | i < last
      ensures Uneventful(env, i)
    {
      assert !SeenSettled(env, i) && !PastDeadline(env, i);
    }
  }

  /** With an advancing clock there is exactly one poll at which the wait ends, not later than the deadline. */
  lemma {:induction false} WaitEnds(env: Env, i: nat) returns (last: nat)
    requires AdvancingClock(env) && i <= MAX_AWAIT && NotEndedBefore(env, i)
    ensures EndsAt(env, last) && last <= MAX_AWAIT
    decreases MAX_AWAIT - i
  {
    if SeenSettled(env, i) || PastDeadline(env, i) {
      last := i;
    } else {
      ClockGains(env, i + 1);
      last := WaitEnds(env, i + 1);
    }
  }

  lemma EndIsUnique(env: Env, a: nat, b: nat)
    requires EndsAt(env, a) && EndsAt(env, b)
    ensures a == b
  {
  }
}
