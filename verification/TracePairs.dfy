/**
 The spans of a trace without a stack: a begin and an end event of one thread belong together when the
 brackets between them balance. Threads, kinds of events and fields of spans are spelled out here.
 */
module TracePairs {
  import opened Prelude
  import opened TraceSpans

  // --- What belongs together ---

  predicate OnThread(e: Event, pid: int, tid: int) {
    e.pid.GetOr(0) == pid && e.tid.GetOr(0) == tid
  }

  function ThreadEvents(pid: int, tid: int, events: seq<Event>): seq<Event> {
    if events == [] then []
    else (if OnThread(events[0], pid, tid) then [events[0]] else []) + ThreadEvents(pid, tid, events[1..])
  }

  /** The fields that a span takes from its begin event. */
  predicate IsOpenedBy(s: Span, begin: Event) {
    && s.name == begin.name.GetOr("(unnamed)") && s.cat == begin.cat.GetOr("")
    && s.location == begin.location.GetOr("") && s.args == begin.functionArgs.GetOr("")
    && s.ts == begin.ts.GetOr(0.0)
  }

  predicate IsSpanOf(s: Span, begin: Event, end: Event) {
    && IsOpenedBy(s, begin)
    && s.dur == end.ts.GetOr(0.0) - begin.ts.GetOr(0.0) && s.self == s.dur
  }

  /** Begin events less end events behind position `b` and before position `i`. */
  function Level(events: seq<Event>, b: nat, i: nat): int
    requires b < i <= |events|
    decreases i
  {
    if i == b + 1 then 0
    else
      var ph := events[i - 1].ph;
      Level(events, b, i - 1) + (if ph == Some("B") then 1 else if ph == Some("E") then -1 else 0)
  }

  /** No end event before `i` closes the bracket that begins at `b`. */
  predicate StillOpen(events: seq<Event>, b: nat, i: nat) {
    && b < i <= |events| && events[b].ph == Some("B")
    && forall k | b < k <= i :: Level(events, b, k) >= 0
  }

  predicate Matches(events: seq<Event>, b: nat, e: nat) {
    && e < |events| && events[e].ph == Some("E")
    && StillOpen(events, b, e) && Level(events, b, e) == 0
  }

  // --- Open brackets and closed pairs, by position ---

  function OpenAfter(events: seq<Event>, i: nat): seq<nat>
    requires i <= |events|
  {
    if i == 0 then []
    else
      var open, ph := OpenAfter(events, i - 1), events[i - 1].ph;
      if ph == Some("B") then open + [i - 1]
      else if ph == Some("E") && open != [] then open[..|open| - 1]
      else open
  }

  function PairsUpTo(events: seq<Event>, i: nat): seq<(nat, nat)>
    requires i <= |events|
  {
    if i == 0 then []
    else
      var pairs, open := PairsUpTo(events, i - 1), OpenAfter(events, i - 1);
      if events[i - 1].ph == Some("E") && open != [] then pairs + [(open[|open| - 1], i - 1)] else pairs
  }

  predicate LevelsAre(events: seq<Event>, i: nat, open: seq<nat>)
    requires i <= |events|
  {
    forall j | 0 <= j < |open| :: open[j] < i && Level(events, open[j], i) == |open| - 1 - j
  }

  lemma {:induction false} OpenLevels(events: seq<Event>, i: nat)
    requires i <= |events|
    ensures LevelsAre(events, i, OpenAfter(events, i))
  {
    if i > 0 {
      OpenLevels(events, i - 1);
    }
  }

  lemma StillOpenStep(events: seq<Event>, b: nat, i: nat)
    requires b < i < |events|
    ensures StillOpen(events, b, i + 1) <==> StillOpen(events, b, i) && Level(events, b, i + 1) >= 0
  {
  }

  /** The open brackets are those that no end event has closed. */
  lemma {:induction false} OpenIsStillOpen(events: seq<Event>, i: nat, b: nat)
    requires i <= |events|
    ensures b in OpenAfter(events, i) <==> StillOpen(events, b, i)
  {
    if i > 0 {
      var open := OpenAfter(events, i - 1);
      OpenLevels(events, i - 1);
      OpenLevels(events, i);
      OpenIsStillOpen(events, i - 1, b);
      if b < i - 1 {
        StillOpenStep(events, b, i - 1);
        StaysOpen(events, i, b);
      }
    }
  }

  /** A bracket opened before event `i - 1` stays open unless that event closes it. */
  lemma StaysOpen(events: seq<Event>, i: nat, b: nat)
    requires 0 < i <= |events| && b < i - 1
    requires LevelsAre(events, i - 1, OpenAfter(events, i - 1)) && LevelsAre(events, i, OpenAfter(events, i))
    ensures b in OpenAfter(events, i) <==> b in OpenAfter(events, i - 1) && Level(events, b, i) >= 0
  {
    var open, now := OpenAfter(events, i - 1), OpenAfter(events, i);
    if b in open {
      var j :| 0 <= j < |open| && open[j] == b;
      if Level(events, b, i) >= 0 {
        assert j < |now| && now[j] == b;
      }
    }
    if b in now {
      var j :| 0 <= j < |now| && now[j] == b;
      assert Level(events, b, i) >= 0;
    }
  }

  lemma PairIsMatch(events: seq<Event>, i: nat, b: nat)
    requires i < |events| && events[i].ph == Some("E")
    ensures Matches(events, b, i) <==>
            OpenAfter(events, i) != [] && b == OpenAfter(events, i)[|OpenAfter(events, i)| - 1]
  {
    var open := OpenAfter(events, i);
    OpenLevels(events, i);
    OpenIsStillOpen(events, i, b);
    if b in open {
      var j :| 0 <= j < |open| && open[j] == b;
      assert Level(events, b, i) == |open| - 1 - j;
    }
  }

  lemma {:induction false} PairsAreMatches(events: seq<Event>, i: nat, b: nat, e: nat)
    requires i <= |events|
    ensures (b, e) in PairsUpTo(events, i) <==> e < i && Matches(events, b, e)
  {
    if i > 0 {
      PairsAreMatches(events, i - 1, b, e);
      if e == i - 1 && events[e].ph == Some("E") {
        PairIsMatch(events, e, b);
      }
    }
  }

  lemma {:induction false} PairsInClosingOrder(events: seq<Event>, i: nat)
    requires i <= |events|
    ensures forall k | 0 <= k < |PairsUpTo(events, i)| :: PairsUpTo(events, i)[k].1 < i
    ensures forall j, k | 0 <= j < k < |PairsUpTo(events, i)| :: PairsUpTo(events, i)[j].1 < PairsUpTo(events, i)[k].1
  {
    if i > 0 {
      PairsInClosingOrder(events, i - 1);
    }
  }

  lemma {:induction false} PairsGrow(events: seq<Event>, i: nat, n: nat)
    requires i <= n <= |events|
    ensures PairsUpTo(events, i) <= PairsUpTo(events, n)
    decreases n
  {
    if i < n {
      PairsGrow(events, i, n - 1);
    }
  }

  // --- The stack machine emits the pairs ---

  predicate StackIs(events: seq<Event>, open: seq<nat>, stack: seq<Span>) {
    && |stack| == |open|
    && forall j | 0 <= j < |open| :: open[j] < |events| && IsOpenedBy(stack[j], events[open[j]])
  }

  lemma OpeningKeepsStack(events: seq<Event>, open: seq<nat>, stack: seq<Span>, b: nat, s: Span)
    requires b < |events| && StackIs(events, open, stack) && IsOpenedBy(s, events[b])
    ensures StackIs(events, open + [b], stack + [s])
  {
  }

  /** Charging the parent changes none of the fields that come from its begin event. */
  lemma ClosingKeepsStack(events: seq<Event>, open: seq<nat>, stack: seq<Span>, dur: real)
    requires StackIs(events, open, stack) && open != []
    ensures StackIs(events, open[..|open| - 1], Charge(stack[..|stack| - 1], dur))
  {
    var rest, charged := stack[..|stack| - 1], Charge(stack[..|stack| - 1], dur);
    forall j | 0 <= j < |rest|
      ensures IsOpenedBy(charged[j], events[open[j]])
    {
      assert IsOpenedBy(stack[j], events[open[j]]);
    }
  }

  lemma StackStep(events: seq<Event>, i: nat, stack: seq<Span>)
    requires i < |events| && StackIs(events, OpenAfter(events, i), stack)
    ensures StackIs(events, OpenAfter(events, i + 1), StackAfter(stack, events[i]))
  {
    var open, e := OpenAfter(events, i), events[i];
    if e.ph == Some("B") {
      OpeningKeepsStack(events, open, stack, i, e.Opened());
    } else if e.ph == Some("E") && open != [] {
      ClosingKeepsStack(events, open, stack, e.Time() - stack[|stack| - 1].ts);
    }
  }

  lemma EmittedIsSpan(events: seq<Event>, i: nat, stack: seq<Span>)
    requires i < |events| && StackIs(events, OpenAfter(events, i), stack)
    ensures EmitsTop(events, i, Emitted(false, stack, events[i]))
  {
    var open := OpenAfter(events, i);
    if open != [] {
      assert IsOpenedBy(stack[|open| - 1], events[open[|open| - 1]]);
    }
  }

  /** `now` is the span of the innermost open bracket if event `i` closes one, and nothing otherwise. */
  predicate EmitsTop(events: seq<Event>, i: nat, now: seq<Emission>)
    requires i < |events|
  {
    var open := OpenAfter(events, i);
    if events[i].ph == Some("E") && open != [] then
      |now| == 1 && open[|open| - 1] < |events| && IsSpanOf(now[0].span, events[open[|open| - 1]], events[i])
    else now == []
  }

  predicate SpansAre(events: seq<Event>, pairs: seq<(nat, nat)>, out: seq<Emission>) {
    && |out| == |pairs|
    && forall k | 0 <= k < |out| ::
         pairs[k].0 < |events| && pairs[k].1 < |events|
         && IsSpanOf(out[k].span, events[pairs[k].0], events[pairs[k].1])
  }

  /** `out` are the spans of the pairs from the `n`-th on. */
  predicate SpansFrom(events: seq<Event>, pairs: seq<(nat, nat)>, n: nat, out: seq<Emission>) {
    n <= |pairs| && SpansAre(events, pairs[n..], out)
  }

  /** The rest of the thread emits the spans of the pairs that are still to be closed. */
  predicate EmitsRest(events: seq<Event>, i: nat, stack: seq<Span>)
    requires i <= |events|
  {
    SpansFrom(events, PairsUpTo(events, |events|), |PairsUpTo(events, i)|, Emissions(false, stack, events[i..]))
  }

  lemma NothingIsLeft(events: seq<Event>, stack: seq<Span>)
    ensures EmitsRest(events, |events|, stack)
  {
    assert events[|events|..] == [] && PairsUpTo(events, |events|)[|PairsUpTo(events, |events|)|..] == [];
  }

  lemma EmitsRestStep(events: seq<Event>, i: nat, stack: seq<Span>)
    requires i < |events| && StackIs(events, OpenAfter(events, i), stack)
    requires EmitsRest(events, i + 1, StackAfter(stack, events[i]))
    ensures EmitsRest(events, i, stack)
  {
    var now := Emitted(false, stack, events[i]);
    var later := Emissions(false, StackAfter(stack, events[i]), events[i + 1..]);
    EmittedIsSpan(events, i, stack);
    PairsStep(events, i, now, later);
    EmissionsAt(events, i, stack);
  }

  lemma {:induction false} MachineEmitsPairs(events: seq<Event>, i: nat, stack: seq<Span>)
    requires i <= |events| && StackIs(events, OpenAfter(events, i), stack)
    ensures EmitsRest(events, i, stack)
    decreases |events| - i
  {
    if i == |events| {
      NothingIsLeft(events, stack);
    } else {
      StackStep(events, i, stack);
      MachineEmitsPairs(events, i + 1, StackAfter(stack, events[i]));
      EmitsRestStep(events, i, stack);
    }
  }

  lemma EmissionsAt(events: seq<Event>, i: nat, stack: seq<Span>)
    requires i < |events|
    ensures Emissions(false, stack, events[i..])
         == Emitted(false, stack, events[i]) + Emissions(false, StackAfter(stack, events[i]), events[i + 1..])
  {
    assert events[i..][0] == events[i] && events[i..][1..] == events[i + 1..];
  }

  lemma PairsStep(events: seq<Event>, i: nat, now: seq<Emission>, later: seq<Emission>)
    requires i < |events| && EmitsTop(events, i, now)
    requires SpansFrom(events, PairsUpTo(events, |events|), |PairsUpTo(events, i + 1)|, later)
    ensures SpansFrom(events, PairsUpTo(events, |events|), |PairsUpTo(events, i)|, now + later)
  {
    var all, n := PairsUpTo(events, |events|), |PairsUpTo(events, i)|;
    PairsGrow(events, i + 1, |events|);
    if now != [] {
      assert all[n] == PairsUpTo(events, i + 1)[n];
      OneMoreSpan(events, all, n, now[0], later);
      assert now == [now[0]];
    } else {
      assert now + later == later;
    }
  }

  lemma OneMoreSpan(events: seq<Event>, pairs: seq<(nat, nat)>, n: nat, first: Emission, later: seq<Emission>)
    requires n < |pairs| && SpansFrom(events, pairs, n + 1, later)
    requires pairs[n].0 < |events| && pairs[n].1 < |events|
    requires IsSpanOf(first.span, events[pairs[n].0], events[pairs[n].1])
    ensures SpansFrom(events, pairs, n, [first] + later)
  {
    assert pairs[n..] == [pairs[n]] + pairs[n + 1..];
  }

  lemma {:induction false} ThreadsAreSpelled(pid: int, tid: int, events: seq<Event>)
    ensures EventsOf((pid, tid), events) == ThreadEvents(pid, tid, events)
  {
    if events != [] {
      ThreadsAreSpelled(pid, tid, events[1..]);
    }
  }

  /** All matching pairs, in the order of their end events. */
  ghost predicate AreThePairs(events: seq<Event>, pairs: seq<(nat, nat)>) {
    && (forall b: nat, e: nat :: (b, e) in pairs <==> Matches(events, b, e))
    && (forall j, k | 0 <= j < k < |pairs| :: pairs[j].1 < pairs[k].1)
  }

  lemma AllPairsAreFound(events: seq<Event>)
    ensures AreThePairs(events, PairsUpTo(events, |events|))
  {
    PairsInClosingOrder(events, |events|);
    forall b: nat, e: nat
      ensures (b, e) in PairsUpTo(events, |events|) <==> Matches(events, b, e)
    {
      PairsAreMatches(events, |events|, b, e);
    }
  }

  lemma MachineEmitsAllPairs(events: seq<Event>)
    ensures SpansAre(events, PairsUpTo(events, |events|), Emissions(false, [], events))
  {
    MachineEmitsPairs(events, 0, []);
    assert events[0..] == events;
    assert PairsUpTo(events, |events|)[0..] == PairsUpTo(events, |events|);
  }

  /**
   For every interleaving of threads, the spans emitted for one pid and tid are those of the matching pairs of
   begin and end events of that thread, all of them, in the order of the end events; and each has the name,
   category, time, location and arguments of its begin event and the time between the two as its duration.
   */
  lemma SpansAreMatchingPairs(pid: int, tid: int, events: seq<Event>) returns (pairs: seq<(nat, nat)>)
    ensures AreThePairs(ThreadEvents(pid, tid, events), pairs)
    ensures SpansAre(ThreadEvents(pid, tid, events), pairs, OutOf((pid, tid), RunAll(map[], events)))
  {
    var mine := ThreadEvents(pid, tid, events);
    pairs := PairsUpTo(mine, |mine|);
    ThreadsAreSpelled(pid, tid, events);
    ThreadsAreIndependent((pid, tid), map[], events);
    MachineEmitsAllPairs(mine);
    AllPairsAreFound(mine);
  }
}
