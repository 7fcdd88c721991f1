/**
 Pairing of the begin and end events of a configure trace, one stack per pid:tid.

 The reference is a recursive bracket matcher on the events of a single thread. Self time is
 studied twice: as the code computes it, and with the accumulation its comment asks for.
 */
module TraceSpans {
  import opened Prelude

  datatype Event = Event(
    cat: Option<string>, name: Option<string>, ph: Option<string>,
    pid: Option<int>, tid: Option<int>, ts: Option<real>,
    location: Option<string>, functionArgs: Option<string>) {

    function Key(): Key {
      (pid.GetOr(0), tid.GetOr(0))
    }

    function Time(): real {
      ts.GetOr(0.0)
    }

    predicate IsBegin() {
      ph == Some("B")
    }

    predicate IsEnd() {
      ph == Some("E")
    }

    function Opened(): Span {
      Span(name.GetOr("(unnamed)"), cat.GetOr(""), Time(), 0.0, 0.0, location.GetOr(""), functionArgs.GetOr(""))
    }
  }

  datatype Span = Span(name: string, cat: string, ts: real, dur: real, self: real, location: string, args: string)

  type Key = (int, int)

  // --- The stack machine of one thread ---

  /** A finished span and how many spans were still open below it. */
  datatype Emission = Emission(span: Span, depth: nat)

  /** The span after its end event; `accumulate` keeps what its children subtracted, the code does not. */
  function Closed(accumulate: bool, open: Span, end: real): Span {
    var dur := end - open.ts;
    open.(dur := dur, self := if accumulate then open.self + dur else dur)
  }

  /** The parent on top of the stack is charged with a child's duration. */
  function Charge(stack: seq<Span>, dur: real): (r: seq<Span>)
    ensures |r| == |stack|
  {
    if stack == [] then []
    else
      var parent := stack[|stack| - 1];
      stack[..|stack| - 1] + [parent.(self := parent.self - dur)]
  }

  function StackAfter(stack: seq<Span>, e: Event): seq<Span> {
    if e.IsBegin() then stack + [e.Opened()]
    else if e.IsEnd() && stack != [] then
      Charge(stack[..|stack| - 1], e.Time() - stack[|stack| - 1].ts)
    else stack
  }

  function Emitted(accumulate: bool, stack: seq<Span>, e: Event): seq<Emission> {
    if e.IsEnd() && stack != [] then
      [Emission(Closed(accumulate, stack[|stack| - 1], e.Time()), |stack| - 1)]
    else []
  }

  function Emissions(accumulate: bool, stack: seq<Span>, events: seq<Event>): seq<Emission>
    decreases |events|
  {
    if events == [] then []
    else Emitted(accumulate, stack, events[0]) + Emissions(accumulate, StackAfter(stack, events[0]), events[1..])
  }

  function FinalStack(stack: seq<Span>, events: seq<Event>): seq<Span>
    decreases |events|
  {
    if events == [] then stack else FinalStack(StackAfter(stack, events[0]), events[1..])
  }

  // --- All threads ---

  type Tagged = (Key, Emission)

  function StackOf(stacks: map<Key, seq<Span>>, key: Key): seq<Span> {
    if key in stacks then stacks[key] else []
  }

  function Tag(key: Key, out: seq<Emission>): seq<Tagged> {
    seq(|out|, i requires 0 <= i < |out| => (key, out[i]))
  }

  function RunAll(stacks: map<Key, seq<Span>>, events: seq<Event>): seq<Tagged>
    decreases |events|
  {
    if events == [] then []
    else
      var e := events[0];
      var stack := StackOf(stacks, e.Key());
      Tag(e.Key(), Emitted(false, stack, e)) + RunAll(stacks[e.Key() := StackAfter(stack, e)], events[1..])
  }

  function Spans(out: seq<Tagged>): (r: seq<Span>)
    ensures |r| == |out|
  {
    seq(|out|, i requires 0 <= i < |out| => out[i].1.span)
  }

  /** The branch for an end event whose thread has an open span. */
  method CloseTop(stack: seq<Span>, event: Event) returns (rest: seq<Span>, closed: Span)
    requires stack != [] && event.IsEnd()
    ensures rest == StackAfter(stack, event)
    ensures [Emission(closed, |rest|)] == Emitted(false, stack, event)
  {
    var open := stack[|stack| - 1];
    rest := stack[..|stack| - 1];
    var dur := event.Time() - open.ts;
    closed := open.(dur := dur, self := dur);
    if rest != [] {
      var parent := rest[|rest| - 1];
      rest := rest[..|rest| - 1] + [parent.(self := parent.self - dur)];
    }
  }

  /** One event of the trace, with what was emitted before in front. */
  lemma RunStep(stacks: map<Key, seq<Span>>, e: Event, rest: seq<Event>, done: seq<Tagged>)
    ensures var stack := StackOf(stacks, e.Key());
            var next := RunAll(stacks[e.Key() := StackAfter(stack, e)], rest);
            && (!e.IsEnd() || stack == [] ==> done + RunAll(stacks, [e] + rest) == done + next)
            && forall emission | Emitted(false, stack, e) == [emission] ::
                 done + RunAll(stacks, [e] + rest) == done + [(e.Key(), emission)] + next
  {
    assert ([e] + rest)[1..] == rest;
    var stack := StackOf(stacks, e.Key());
    var next := RunAll(stacks[e.Key() := StackAfter(stack, e)], rest);
    var now := Tag(e.Key(), Emitted(false, stack, e));
    assert done + (now + next) == done + now + next;
    if !e.IsEnd() || stack == [] {
      assert done + now == done;
    }
    forall emission | Emitted(false, stack, e) == [emission]
      ensures now == [(e.Key(), emission)]
    {
    }
  }

  /** The loop of the source; `out` adds to every span its thread and how deep it was nested. */
  method PairProfilingSpans(events: seq<Event>) returns (spans: seq<Span>)
    ensures spans == Spans(RunAll(map[], events))
  {
    var stacks: map<Key, seq<Span>> := map[];
    ghost var out: seq<Tagged> := [];
    spans := [];
    for i := 0 to |events|
      invariant spans == Spans(out)
      invariant out + RunAll(stacks, events[i..]) == RunAll(map[], events)
    {
      var event := events[i];
      var key := event.Key();
      assert events[i..] == [event] + events[i + 1..];
      RunStep(stacks, event, events[i + 1..], out);
      var stack := if key in stacks then stacks[key] else [];
      if event.ph == Some("B") {
        stack := stack + [event.Opened()];
      } else if event.ph == Some("E") {
        if stack == [] {
          stacks := stacks[key := stack];
          continue;
        }
        var open;
        stack, open := CloseTop(stack, event);
        spans := spans + [open];
        out := out + [(key, Emission(open, |stack|))];
      }
      stacks := stacks[key := stack];
    }
  }

  // --- Threads do not disturb each other ---

  function EventsOf(key: Key, events: seq<Event>): seq<Event> {
    if events == [] then []
    else (if events[0].Key() == key then [events[0]] else []) + EventsOf(key, events[1..])
  }

  function OutOf(key: Key, out: seq<Tagged>): seq<Emission> {
    if out == [] then []
    else (if out[0].0 == key then [out[0].1] else []) + OutOf(key, out[1..])
  }

  lemma {:induction false} OutOfAppend(key: Key, a: seq<Tagged>, b: seq<Tagged>)
    ensures OutOf(key, a + b) == OutOf(key, a) + OutOf(key, b)
  {
    if a == [] {
      assert a + b == b;
    } else {
      OutOfAppend(key, a[1..], b);
      assert (a + b)[1..] == a[1..] + b;
    }
  }

  lemma {:induction false} TagIsOwned(key: Key, owner: Key, out: seq<Emission>)
    ensures OutOf(key, Tag(owner, out)) == if owner == key then out else []
  {
    if out != [] {
      TagIsOwned(key, owner, out[1..]);
      assert Tag(owner, out)[1..] == Tag(owner, out[1..]);
    }
  }

  lemma {:induction false} ThreadsAreIndependent(key: Key, stacks: map<Key, seq<Span>>, events: seq<Event>)
    ensures OutOf(key, RunAll(stacks, events)) == Emissions(false, StackOf(stacks, key), EventsOf(key, events))
    decreases |events|
  {
    if events != [] {
      var e := events[0];
      var stack := StackOf(stacks, e.Key());
      var emitted := Emitted(false, stack, e);
      var next := stacks[e.Key() := StackAfter(stack, e)];
      ThreadsAreIndependent(key, next, events[1..]);
      OutOfAppend(key, Tag(e.Key(), emitted), RunAll(next, events[1..]));
      TagIsOwned(key, e.Key(), emitted);
      if e.Key() == key {
        assert EventsOf(key, events) == [e] + EventsOf(key, events[1..]);
        assert EventsOf(key, events)[1..] == EventsOf(key, events[1..]);
      } else {
        assert StackOf(next, key) == StackOf(stacks, key);
        assert EventsOf(key, events) == EventsOf(key, events[1..]);
      }
    }
  }

  // --- The bracket matcher ---

  datatype End = End(ts: real, rest: seq<Event>)

  /** What lies before the end event that closes the enclosing bracket, if there is one. */
  datatype Parsed = Parsed(out: seq<Emission>, end: Option<End>)

  /** Matches brackets up to the first end event without a begin of its own. */
  function Inner(depth: nat, events: seq<Event>): (p: Parsed)
    ensures p.end.Some? ==> |p.end.value.rest| < |events|
    decreases |events|
  {
    if events == [] then Parsed([], None)
    else
      var e := events[0];
      if e.IsBegin() then
        var body := Inner(depth + 1, events[1..]);
        if body.end.None? then body
        else
          var span := Closed(false, e.Opened(), body.end.value.ts);
          var after := Inner(depth, body.end.value.rest);
          Parsed(body.out + [Emission(span, depth)] + after.out, after.end)
      else if e.IsEnd() then Parsed([], Some(End(e.Time(), events[1..])))
      else Inner(depth, events[1..])
  }

  /** The whole trace of a thread: end events without a begin are skipped. */
  function Matched(events: seq<Event>): seq<Emission>
    decreases |events|
  {
    var p := Inner(0, events);
    if p.end.None? then p.out else p.out + Matched(p.end.value.rest)
  }

  /** What the stack machine emits from the end event of the span on top on. */
  function FromTop(below: seq<Span>, open: Span, end: End): seq<Emission> {
    [Emission(Closed(false, open, end.ts), |below|)] + Emissions(false, Charge(below, end.ts - open.ts), end.rest)
  }

  /** What the stack machine emits once the matcher has reached the end event for the top of `stack`. */
  function AfterEnd(stack: seq<Span>, end: Option<End>): seq<Emission> {
    if end.None? then []
    else if stack == [] then Emissions(false, [], end.value.rest)
    else FromTop(stack[..|stack| - 1], stack[|stack| - 1], end.value)
  }

  /** From a stack of this depth on, machine and matcher emit the same. */
  predicate Agree(depth: nat, stack: seq<Span>, events: seq<Event>) {
    && |stack| == depth
    && Emissions(false, stack, events) == Inner(depth, events).out + AfterEnd(stack, Inner(depth, events).end)
  }

  lemma {:induction false} StackMatchesBrackets(depth: nat, stack: seq<Span>, events: seq<Event>)
    requires |stack| == depth
    ensures Agree(depth, stack, events)
    decreases |events|
  {
    if events == [] || events[0].IsEnd() {
      EndAgrees(depth, stack, events);
    } else {
      var e, rest := events[0], events[1..];
      if e.IsBegin() {
        StackMatchesBrackets(depth + 1, stack + [e.Opened()], rest);
        var body := Inner(depth + 1, rest);
        if body.end.Some? {
          StackMatchesBrackets(depth, Charge(stack, body.end.value.ts - e.Opened().ts), body.end.value.rest);
        }
        BeginAgrees(depth, stack, e, events, body);
      } else {
        StackMatchesBrackets(depth, stack, rest);
        OtherAgrees(depth, stack, e, events);
      }
    }
  }

  lemma EndAgrees(depth: nat, stack: seq<Span>, events: seq<Event>)
    requires |stack| == depth && (events == [] || events[0].IsEnd())
    ensures Agree(depth, stack, events)
  {
  }

  lemma OtherAgrees(depth: nat, stack: seq<Span>, e: Event, events: seq<Event>)
    requires events != [] && e == events[0] && !e.IsBegin() && !e.IsEnd() && Agree(depth, stack, events[1..])
    ensures Agree(depth, stack, events)
  {
  }

  lemma BeginAgrees(depth: nat, stack: seq<Span>, e: Event, events: seq<Event>, body: Parsed)
    requires |stack| == depth && events != [] && e == events[0] && e.IsBegin()
    requires body == Inner(depth + 1, events[1..]) && Agree(depth + 1, stack + [e.Opened()], events[1..])
    requires body.end.Some? ==>
               Agree(depth, Charge(stack, body.end.value.ts - e.Opened().ts), body.end.value.rest)
    ensures Agree(depth, stack, events)
  {
    BeginStep(depth, stack, e, events);
    if body.end.Some? {
      var end := body.end.value;
      AgreeUncharged(depth, stack, end.ts - e.Opened().ts, end.rest);
      var after := Inner(depth, end.rest);
      BracketCloses(depth, stack, e.Opened(), end, body.out, after.out, AfterEnd(stack, after.end));
    } else {
      NothingFollows(stack, e.Opened(), events[1..], body);
    }
  }

  lemma NothingFollows(stack: seq<Span>, open: Span, events: seq<Event>, body: Parsed)
    requires body.end.None? && Emissions(false, stack + [open], events) == body.out + AfterEnd(stack + [open], body.end)
    ensures Emissions(false, stack + [open], events) == body.out + AfterEnd(stack, body.end)
  {
  }

  lemma AgreeUncharged(depth: nat, stack: seq<Span>, dur: real, events: seq<Event>)
    requires Agree(depth, Charge(stack, dur), events)
    ensures Emissions(false, Charge(stack, dur), events)
         == Inner(depth, events).out + AfterEnd(stack, Inner(depth, events).end)
  {
    ChargeTwice(stack, dur, Inner(depth, events).end);
  }

  /** What the stack machine does inside and behind a bracket, put together. */
  lemma BracketCloses(depth: nat, stack: seq<Span>, open: Span, end: End, body: seq<Emission>,
                      after: seq<Emission>, tail: seq<Emission>)
    requires |stack| == depth && Emissions(false, Charge(stack, end.ts - open.ts), end.rest) == after + tail
    ensures body + AfterEnd(stack + [open], Some(end))
         == body + [Emission(Closed(false, open, end.ts), depth)] + after + tail
  {
    PushedEnds(stack, open, end);
    Chain(body, [Emission(Closed(false, open, end.ts), depth)], after, tail);
  }

  /** Both sides at a begin event. */
  lemma BeginStep(depth: nat, stack: seq<Span>, e: Event, events: seq<Event>)
    requires |stack| == depth && events != [] && e == events[0] && e.IsBegin()
    ensures Emissions(false, stack, events) == Emissions(false, stack + [e.Opened()], events[1..])
    ensures var body := Inner(depth + 1, events[1..]);
            Inner(depth, events) == if body.end.None? then body
            else
              var after := Inner(depth, body.end.value.rest);
              Parsed(body.out + [Emission(Closed(false, e.Opened(), body.end.value.ts), depth)] + after.out, after.end)
  {
  }

  /** The stack machine at the end of the bracket that was pushed last. */
  lemma PushedEnds(stack: seq<Span>, open: Span, end: End)
    ensures AfterEnd(stack + [open], Some(end))
         == [Emission(Closed(false, open, end.ts), |stack|)]
          + Emissions(false, Charge(stack, end.ts - open.ts), end.rest)
  {
    PushedTop(stack, open, end);
  }

  lemma PushedTop(stack: seq<Span>, open: Span, end: End)
    ensures AfterEnd(stack + [open], Some(end)) == FromTop(stack, open, end)
  {
    var pushed := stack + [open];
    assert pushed[..|pushed| - 1] == stack && pushed[|pushed| - 1] == open;
  }

  lemma Chain(a: seq<Emission>, b: seq<Emission>, c: seq<Emission>, d: seq<Emission>)
    ensures a + (b + (c + d)) == a + b + c + d
  {
  }

  /** A charge on the top of the stack does not show in what is emitted later. */
  lemma ChargeTwice(stack: seq<Span>, dur: real, end: Option<End>)
    ensures AfterEnd(Charge(stack, dur), end) == AfterEnd(stack, end)
  {
    if stack != [] && end.Some? {
      var charged, open := Charge(stack, dur), stack[|stack| - 1];
      assert charged[..|stack| - 1] == stack[..|stack| - 1];
      assert charged[|stack| - 1] == open.(self := open.self - dur);
      SelfIsForgotten(stack[..|stack| - 1], open, open.self - dur, end.value);
    }
  }

  lemma SelfIsForgotten(below: seq<Span>, open: Span, self: real, end: End)
    ensures FromTop(below, open.(self := self), end) == FromTop(below, open, end)
  {
    assert Closed(false, open.(self := self), end.ts) == Closed(false, open, end.ts);
  }

  lemma {:induction false} ThreadIsMatched(events: seq<Event>)
    ensures Emissions(false, [], events) == Matched(events)
    decreases |events|
  {
    StackMatchesBrackets(0, [], events);
    var p := Inner(0, events);
    if p.end.Some? {
      ThreadIsMatched(p.end.value.rest);
    }
  }

  /**
   For every interleaving of threads, the spans emitted for one pid:tid, in closing order, are those
   that the bracket matcher finds in that thread's own events.
   */
  lemma PairingIsBracketMatching(key: Key, events: seq<Event>)
    ensures OutOf(key, RunAll(map[], events)) == Matched(EventsOf(key, events))
  {
    ThreadsAreIndependent(key, map[], events);
    ThreadIsMatched(EventsOf(key, events));
  }

  // --- Self time ---

  function SumSelf(out: seq<Emission>): real {
    if out == [] then 0.0 else out[0].span.self + SumSelf(out[1..])
  }

  function SumDur(out: seq<Emission>): real {
    if out == [] then 0.0 else out[0].span.dur + SumDur(out[1..])
  }

  /** Durations of the spans that close with nothing open below them. */
  function SumTopLevel(out: seq<Emission>): real {
    if out == [] then 0.0
    else (if out[0].depth == 0 then out[0].span.dur else 0.0) + SumTopLevel(out[1..])
  }

  function SumPending(stack: seq<Span>): real {
    if stack == [] then 0.0 else SumPending(stack[..|stack| - 1]) + stack[|stack| - 1].self
  }

  /** As written, every emitted span has its whole duration as self time: no child is subtracted. */
  lemma {:induction false} SelfIsDuration(stack: seq<Span>, events: seq<Event>)
    ensures forall i | 0 <= i < |Emissions(false, stack, events)| ::
              Emissions(false, stack, events)[i].span.self == Emissions(false, stack, events)[i].span.dur
    ensures SumSelf(Emissions(false, stack, events)) == SumDur(Emissions(false, stack, events))
    decreases |events|
  {
    if events != [] {
      SelfIsDuration(StackAfter(stack, events[0]), events[1..]);
      var now, later := Emitted(false, stack, events[0]), Emissions(false, StackAfter(stack, events[0]), events[1..]);
      SumAppend(now, later);
      assert now != [] ==> now[1..] == [];
    }
  }

  lemma ChargePending(stack: seq<Span>, dur: real)
    ensures SumPending(Charge(stack, dur)) == SumPending(stack) - if stack == [] then 0.0 else dur
  {
    if stack != [] {
      assert Charge(stack, dur)[..|stack| - 1] == stack[..|stack| - 1];
    }
  }

  lemma SumAppend(now: seq<Emission>, later: seq<Emission>)
    requires |now| <= 1
    ensures SumSelf(now + later) == SumSelf(now) + SumSelf(later)
    ensures SumDur(now + later) == SumDur(now) + SumDur(later)
    ensures SumTopLevel(now + later) == SumTopLevel(now) + SumTopLevel(later)
  {
    if now == [] {
      assert now + later == later;
    } else {
      assert (now + later)[1..] == later && now[1..] == [];
    }
  }

  /** One event: what is emitted and what is still owed balance against the top-level durations. */
  lemma EventConserves(stack: seq<Span>, e: Event)
    ensures var now := Emitted(true, stack, e);
            SumSelf(now) + SumPending(StackAfter(stack, e)) == SumPending(stack) + SumTopLevel(now)
  {
    if e.IsBegin() {
      assert StackAfter(stack, e)[..|stack|] == stack;
    } else if e.IsEnd() && stack != [] {
      var now := Emitted(true, stack, e);
      assert now[1..] == [] && SumSelf(now[1..]) == SumTopLevel(now[1..]) == 0.0;
      ChargePending(stack[..|stack| - 1], e.Time() - stack[|stack| - 1].ts);
    }
  }

  /** With accumulation, self times plus what open spans still owe equal the top-level durations. */
  lemma {:induction false} AccumulationConserves(stack: seq<Span>, events: seq<Event>)
    ensures SumSelf(Emissions(true, stack, events)) + SumPending(FinalStack(stack, events))
         == SumPending(stack) + SumTopLevel(Emissions(true, stack, events))
    decreases |events|
  {
    if events != [] {
      var next := StackAfter(stack, events[0]);
      EventConserves(stack, events[0]);
      AccumulationConserves(next, events[1..]);
      SumAppend(Emitted(true, stack, events[0]), Emissions(true, next, events[1..]));
    }
  }

  /** In a fully closed trace the accumulated self times add up to the top-level durations. */
  lemma AccumulatedSelfIsTopLevel(events: seq<Event>)
    requires FinalStack([], events) == []
    ensures SumSelf(Emissions(true, [], events)) == SumTopLevel(Emissions(true, [], events))
  {
    AccumulationConserves([], events);
  }

  // --- When the code meets that law ---

  /** Begin and end events come in time order, none before `from`. */
  predicate Chronological(from: real, events: seq<Event>)
    decreases |events|
  {
    if events == [] then true
    else
      var e := events[0];
      if e.IsBegin() || e.IsEnd() then from <= e.Time() && Chronological(e.Time(), events[1..])
      else Chronological(from, events[1..])
  }

  lemma NextStackIsOlder(from: real, stack: seq<Span>, e: Event, now: real)
    requires from <= now && forall i | 0 <= i < |stack| :: stack[i].ts <= from
    requires e.IsBegin() || e.IsEnd() ==> e.Time() == now
    ensures forall i | 0 <= i < |StackAfter(stack, e)| :: StackAfter(stack, e)[i].ts <= now
    ensures forall i | 0 <= i < |Emitted(false, stack, e)| :: Emitted(false, stack, e)[i].span.dur >= 0.0
  {
  }

  lemma {:induction false} DurationsAreNonNegative(from: real, stack: seq<Span>, events: seq<Event>)
    requires Chronological(from, events) && forall i | 0 <= i < |stack| :: stack[i].ts <= from
    ensures forall i | 0 <= i < |Emissions(false, stack, events)| :: Emissions(false, stack, events)[i].span.dur >= 0.0
    decreases |events|
  {
    if events != [] {
      var e := events[0];
      var now := if e.IsBegin() || e.IsEnd() then e.Time() else from;
      NextStackIsOlder(from, stack, e, now);
      DurationsAreNonNegative(now, StackAfter(stack, e), events[1..]);
    }
  }

  predicate NestedTakeNoTime(out: seq<Emission>) {
    forall i | 0 <= i < |out| :: out[i].depth > 0 ==> out[i].span.dur == 0.0
  }

  /**
   On the events of a thread: every end event that closes a span inside another one has the time of its
   begin event. `begins` are the times of the spans still open.
   */
  predicate NestedAreInstant(begins: seq<real>, events: seq<Event>)
    decreases |events|
  {
    if events == [] then true
    else
      var e, rest := events[0], events[1..];
      if e.IsBegin() then NestedAreInstant(begins + [e.Time()], rest)
      else if e.IsEnd() && begins != [] then
        && (|begins| > 1 ==> e.Time() == begins[|begins| - 1])
        && NestedAreInstant(begins[..|begins| - 1], rest)
      else NestedAreInstant(begins, rest)
  }

  predicate SameTimes(begins: seq<real>, stack: seq<Span>) {
    |begins| == |stack| && forall i | 0 <= i < |stack| :: begins[i] == stack[i].ts
  }

  /** What an event emits, and the open times after it. */
  lemma TimesStep(begins: seq<real>, stack: seq<Span>, e: Event)
    requires SameTimes(begins, stack)
    ensures SameTimes(if e.IsBegin() then begins + [e.Time()]
                      else if e.IsEnd() && begins != [] then begins[..|begins| - 1] else begins, StackAfter(stack, e))
    ensures NestedTakeNoTime(Emitted(false, stack, e)) <==>
              (!e.IsBegin() && e.IsEnd() && |begins| > 1 ==> e.Time() == begins[|begins| - 1])
  {
    if !e.IsBegin() && e.IsEnd() && stack != [] {
      var now := Emitted(false, stack, e);
      assert now[0].span.dur == e.Time() - stack[|stack| - 1].ts && now[0].depth == |stack| - 1;
    }
  }

  lemma NestedSplits(now: seq<Emission>, later: seq<Emission>)
    ensures NestedTakeNoTime(now + later) <==> NestedTakeNoTime(now) && NestedTakeNoTime(later)
  {
    assert forall i | 0 <= i < |now| :: (now + later)[i] == now[i];
    assert forall i | 0 <= i < |later| :: (now + later)[|now| + i] == later[i];
  }

  lemma {:induction false} InstantOnEvents(begins: seq<real>, stack: seq<Span>, events: seq<Event>)
    requires SameTimes(begins, stack)
    ensures NestedAreInstant(begins, events) <==> NestedTakeNoTime(Emissions(false, stack, events))
    decreases |events|
  {
    if events != [] {
      var e, rest := events[0], events[1..];
      var next := if e.IsBegin() then begins + [e.Time()]
                  else if e.IsEnd() && begins != [] then begins[..|begins| - 1] else begins;
      TimesStep(begins, stack, e);
      InstantOnEvents(next, StackAfter(stack, e), rest);
      NestedSplits(Emitted(false, stack, e), Emissions(false, StackAfter(stack, e), rest));
    }
  }

  lemma {:induction false} DurVersusTopLevel(out: seq<Emission>)
    requires forall i | 0 <= i < |out| :: out[i].span.dur >= 0.0
    ensures SumTopLevel(out) <= SumDur(out)
    ensures SumTopLevel(out) == SumDur(out) <==> NestedTakeNoTime(out)
  {
    if out != [] {
      DurVersusTopLevel(out[1..]);
      assert forall i | 1 <= i < |out| :: out[i] == out[1..][i - 1];
    }
  }

  /**
   On a chronological trace the code's self times are right exactly when every end event of a nested span
   has the time of its begin event.
   */
  lemma CodeConservesIff(from: real, events: seq<Event>)
    requires Chronological(from, events)
    ensures var out := Emissions(false, [], events);
            SumSelf(out) == SumTopLevel(out) <==> NestedAreInstant([], events)
  {
    SelfIsDuration([], events);
    DurationsAreNonNegative(from, [], events);
    DurVersusTopLevel(Emissions(false, [], events));
    InstantOnEvents([], [], events);
  }

  lemma EmissionsStep(stack: seq<Span>, e: Event, rest: seq<Event>)
    ensures Emissions(false, stack, [e] + rest)
         == Emitted(false, stack, e) + Emissions(false, StackAfter(stack, e), rest)
  {
    assert ([e] + rest)[1..] == rest;
  }

  lemma InnerEnds(outer: Span, inner: Span, e: Event)
    requires e.IsEnd()
    ensures Emitted(false, [outer, inner], e) == [Emission(Closed(false, inner, e.Time()), 1)]
    ensures StackAfter([outer, inner], e) == [outer.(self := outer.self - (e.Time() - inner.ts))]
  {
    assert [outer, inner][..1] == [outer];
  }

  lemma NestedPair(b0: Event, b1: Event, e1: Event, e0: Event) returns (inner: Span, outer: Span)
    requires b0.IsBegin() && b1.IsBegin() && e1.IsEnd() && e0.IsEnd()
    ensures Emissions(false, [], [b0] + ([b1] + ([e1] + ([e0] + [])))) == [Emission(inner, 1)] + [Emission(outer, 0)]
    ensures inner.self == inner.dur == e1.Time() - b1.Time() && outer.self == outer.dur == e0.Time() - b0.Time()
  {
    var o, i := b0.Opened(), b1.Opened();
    EmissionsStep([], b0, [b1] + ([e1] + ([e0] + [])));
    EmissionsStep([o], b1, [e1] + ([e0] + []));
    EmissionsStep([o, i], e1, [e0] + []);
    assert [] + [o] == [o] && [o] + [i] == [o, i];
    InnerEnds(o, i, e1);
    var charged := o.(self := o.self - (e1.Time() - i.ts));
    EmissionsStep([charged], e0, []);
    inner, outer := Closed(false, i, e1.Time()), Closed(false, charged, e0.Time());
  }

  /** One span inside another: the inner time counts twice. */
  lemma NestedTimeCountsTwice(b0: Event, b1: Event, e1: Event, e0: Event)
    requires b0.IsBegin() && b1.IsBegin() && e1.IsEnd() && e0.IsEnd()
    ensures var out := Emissions(false, [], [b0] + ([b1] + ([e1] + ([e0] + []))));
            SumTopLevel(out) == e0.Time() - b0.Time() && SumSelf(out) == SumTopLevel(out) + (e1.Time() - b1.Time())
  {
    var inner, outer := NestedPair(b0, b1, e1, e0);
    var first, second := [Emission(inner, 1)], [Emission(outer, 0)];
    SumAppend(first, second);
    assert first[1..] == [] && second[1..] == [];
  }
}
