/**
 The compression pump: a stream codec driven over fixed buffers by two nested loops.

 The codec is abstract. Its contract says what one call does in terms of `target`, the bytes the
 codec has to say about an input, with and without the finish flag. What is proved is the chunking,
 the reuse of the buffers, the finish flag, and when the loops end with success.
 */
module ZipPump {
  import opened Prelude

  // --- The abstract codec ---

  datatype Ret = Ok | StreamEnd | Error(code: int)

  datatype Round<S> = Round(state: S, used: nat, out: Bytes, ret: Ret) {
    predicate Good() {
      !ret.Error?
    }
  }

  type StepFunction<!S> = (S, Bytes, bool, nat) -> Round<S>

  /**
   `step(state, input, finish, room)` is one call of `deflate` or `inflate`. `consumed` and `emitted`
   are the bytes taken in and given out so far. `ended` says that the stream is over: a decoder gives that
   answer even with input left over, and has nothing to say about what follows.
   */
  datatype Codec<!S> = Codec(
    init: S,
    step: StepFunction<S>,
    valid: S -> bool,
    consumed: S -> Bytes,
    emitted: S -> Bytes,
    ended: S -> bool,
    target: (Bytes, bool) -> Bytes)

  ghost predicate StepMeets<S(!new)>(c: Codec<S>, s: S, input: Bytes, finish: bool, room: nat) {
    var r := c.step(s, input, finish, room);
    var all := c.target(c.consumed(s) + input, finish);
    && r.used <= |input| && |r.out| <= room
    && (r.Good() ==>
          && c.valid(r.state)
          && c.consumed(r.state) == c.consumed(s) + input[..r.used]
          && c.emitted(r.state) == c.emitted(s) + r.out
          && c.emitted(r.state) <= all
          && (|r.out| < room ==> c.emitted(r.state) == all && (r.used == |input| || c.ended(r.state))))
  }

  ghost predicate EndMeets<S(!new)>(c: Codec<S>, s: S, more: Bytes, finish: bool) {
    c.target(c.consumed(s) + more, finish) == c.emitted(s)
  }

  ghost predicate Contract<S(!new)>(c: Codec<S>) {
    && c.valid(c.init) && c.consumed(c.init) == [] && c.emitted(c.init) == []
    && (forall s, input, finish, room: nat | c.valid(s) && room > 0 :: StepMeets(c, s, input, finish, room))
    && (forall s, more, finish | c.valid(s) && c.ended(s) :: EndMeets(c, s, more, finish))
  }

  /** Output still owed for everything offered so far. */
  ghost function Owed<S(!new)>(c: Codec<S>, s: S, input: Bytes, finish: bool): nat {
    var n := |c.target(c.consumed(s) + input, finish)| - |c.emitted(s)|;
    if n < 0 then 0 else n
  }

  lemma StepIsBounded<S(!new)>(c: Codec<S>, s: S, input: Bytes, finish: bool, room: nat)
    requires Contract(c) && c.valid(s) && room > 0
    ensures var r := c.step(s, input, finish, room);
            r.used <= |input| && |r.out| <= room && (r.Good() ==> c.valid(r.state))
  {
    assert StepMeets(c, s, input, finish, room);
  }

  /** A full round takes exactly `room` bytes off what is owed. */
  lemma FullRound<S(!new)>(c: Codec<S>, s: S, input: Bytes, finish: bool, room: nat)
    requires Contract(c) && c.valid(s) && room > 0
    ensures StepMeets(c, s, input, finish, room)
    ensures var r := c.step(s, input, finish, room);
            r.Good() ==>
              && c.consumed(r.state) + input[r.used..] == c.consumed(s) + input
              && Owed(c, r.state, input[r.used..], finish) == Owed(c, s, input, finish) - |r.out|
  {
    assert StepMeets(c, s, input, finish, room);
    var r := c.step(s, input, finish, room);
    if r.Good() {
      assert input == input[..r.used] + input[r.used..];
      assert c.consumed(r.state) + input[r.used..] == c.consumed(s) + input;
    }
  }

  /**
   What the test for the end of the inner loop tells: with room left in the output buffer nothing is owed
   any more; without, one buffer less is owed than before.
   */
  lemma RoomMeansNothingOwed<S(!new)>(c: Codec<S>, s: S, input: Bytes, finish: bool, room: nat)
    requires Contract(c) && c.valid(s) && room > 0 && c.step(s, input, finish, room).Good()
    ensures var r := c.step(s, input, finish, room);
            && r.used <= |input|
            && (|r.out| < room ==>
                  && (r.used == |input| || c.ended(r.state))
                  && c.emitted(r.state) == c.target(c.consumed(s) + input, finish)
                  && Owed(c, r.state, input[r.used..], finish) == 0)
            && (|r.out| >= room ==>
                  Owed(c, r.state, input[r.used..], finish) + room == Owed(c, s, input, finish))
  {
    FullRound(c, s, input, finish, room);
  }

  // --- The loops as functions ---

  /** One call of `Input`: the data taken over, its finish flag, and what the buffer still held. */
  datatype InputCall = InputCall(data: Bytes, finish: bool, leftover: nat)

  /** Outcome, last codec state, bytes still in the input buffer, bytes written and calls of `Input`. */
  datatype Pumped<S> = Pumped(ok: bool, state: S, left: nat, out: Bytes, calls: seq<InputCall>) {

    function Behind(out: Bytes, calls: seq<InputCall>): Pumped<S> {
      this.(out := out + this.out, calls := calls + this.calls)
    }
  }

  /** The inner loop: rounds until one leaves room in the output buffer; an empty round is a failure. */
  ghost function PumpChunk<S(!new)>(c: Codec<S>, s: S, input: Bytes, finish: bool, size: nat): Pumped<S>
    requires Contract(c) && c.valid(s) && size > 0
    decreases Owed(c, s, input, finish)
  {
    FullRound(c, s, input, finish, size);
    var r := c.step(s, input, finish, size);
    if !r.Good() || r.out == [] then Pumped(false, r.state, |input| - r.used, [], [])
    else if |r.out| < size then Pumped(true, r.state, |input| - r.used, r.out, [])
    else
      var more := PumpChunk(c, r.state, input[r.used..], finish, size);
      more.(out := r.out + more.out)
  }

  /** `n % size == 0`, counted down so that no proof below needs division. */
  predicate IsMultiple(n: int, size: nat)
    requires size > 0
  {
    if n < size then n == 0 else IsMultiple(n - size, size)
  }

  lemma {:induction false} MultipleIsRemainder(n: nat, size: nat)
    requires size > 0
    ensures IsMultiple(n, size) <==> n % size == 0
  {
    if n < size {
      SmallMod(n, size);
    } else {
      MultipleIsRemainder(n - size, size);
      ModMinus(n, size);
    }
  }

  function Chunk(source: Bytes, size: nat): Bytes {
    source[..if size < |source| then size else |source|]
  }

  /**
   The outer loop, with `left` bytes still in the input buffer. The chunk shorter than the buffer is the last
   one and carries the finish flag.
   */
  ghost function Pump<S(!new)>(c: Codec<S>, zip: bool, s: S, left: nat, source: Bytes, size: nat): (p: Pumped<S>)
    requires Contract(c) && c.valid(s) && size > 0
    decreases |source|
  {
    var input := Chunk(source, size);
    var last := |input| < size;
    if input == [] then Pumped(false, s, left, [], [])
    else
      var chunk := PumpChunk(c, s, input, zip && last, size);
      var call := InputCall(input, last, left);
      if !chunk.ok || last then chunk.(calls := [call])
      else
        ChunkDelivers(c, s, input, zip && last, size);
        Pump(c, zip, chunk.state, chunk.left, source[|input|..], size).Behind(chunk.out, [call])
  }

  /** All but the last `left` bytes are consumed, and those come after the end of the stream. */
  predicate Took<S(!new)>(c: Codec<S>, s: S, all: Bytes, left: nat) {
    left <= |all| && c.consumed(s) == all[..|all| - left] && (left == 0 || c.ended(s))
  }

  /** Bytes behind the end of the stream make no difference to what comes out. */
  lemma SameTarget<S(!new)>(c: Codec<S>, s: S, all: Bytes, left: nat, more: Bytes, finish: bool)
    requires Contract(c) && c.valid(s) && Took(c, s, all, left)
    ensures c.target(all + more, finish) == c.target(c.consumed(s) + more, finish)
  {
    if left == 0 {
      assert all[..|all|] == all;
    } else {
      var dropped := all[|all| - left..];
      assert all + more == c.consumed(s) + (dropped + more);
      assert EndMeets(c, s, dropped + more, finish) && EndMeets(c, s, more, finish);
    }
  }

  /** After a chunk all of it is consumed, unless the stream is over, and everything owed for it is written. */
  lemma {:induction false} ChunkDelivers<S(!new)>(c: Codec<S>, s: S, input: Bytes, finish: bool, size: nat)
    requires Contract(c) && c.valid(s) && size > 0
    ensures var p := PumpChunk(c, s, input, finish, size);
            p.ok ==>
              && c.valid(p.state) && p.out != [] && p.left <= |input|
              && Took(c, p.state, c.consumed(s) + input, p.left)
              && c.emitted(p.state) == c.emitted(s) + p.out == c.target(c.consumed(s) + input, finish)
    decreases Owed(c, s, input, finish)
  {
    FullRound(c, s, input, finish, size);
    var r := c.step(s, input, finish, size);
    if r.Good() && r.out != [] {
      if |r.out| == size {
        ChunkDelivers(c, r.state, input[r.used..], finish, size);
      } else {
        var all := c.consumed(s) + input;
        assert all[..|all| - (|input| - r.used)] == c.consumed(s) + input[..r.used];
      }
    }
  }

  /** Once the stream is over, no chunk succeeds any more. */
  lemma EndedFails<S(!new)>(c: Codec<S>, zip: bool, s: S, left: nat, source: Bytes, size: nat)
    requires Contract(c) && c.valid(s) && size > 0 && c.ended(s)
    ensures !Pump(c, zip, s, left, source, size).ok && |Pump(c, zip, s, left, source, size).calls| <= 1
  {
    var input := Chunk(source, size);
    var finish := zip && |input| < size;
    if input != [] {
      FullRound(c, s, input, finish, size);
      assert EndMeets(c, s, input, finish);
    }
  }

  // --- What success means ---

  /** On success the bytes written are the codec's output for the whole input. */
  lemma {:induction false} PumpDelivers<S(!new)>(c: Codec<S>, zip: bool, s: S, left: nat, source: Bytes, size: nat)
    requires Contract(c) && c.valid(s) && size > 0
    ensures var p := Pump(c, zip, s, left, source, size);
            p.ok ==> p.out != [] && c.emitted(s) + p.out == c.target(c.consumed(s) + source, zip)
    decreases |source|
  {
    var input := Chunk(source, size);
    if input != [] {
      var last := |input| < size;
      ChunkDelivers(c, s, input, zip && last, size);
      var chunk := PumpChunk(c, s, input, zip && last, size);
      if chunk.ok && !last {
        var rest := source[size..];
        PumpDelivers(c, zip, chunk.state, chunk.left, rest, size);
        assert input + rest == source;
        Joined(c.consumed(s), input, rest);
        SameTarget(c, chunk.state, c.consumed(s) + input, chunk.left, rest, zip);
        Joined(c.emitted(s), chunk.out, Pump(c, zip, chunk.state, chunk.left, rest, size).out);
      } else if last {
        assert input == source;
      }
    }
  }

  /** The data of the calls, in order. */
  ghost function Fed(calls: seq<InputCall>): Bytes {
    if calls == [] then [] else calls[0].data + Fed(calls[1..])
  }

  /**
   The chunks read concatenate to a prefix of the input, to all of it on success; only the last one can carry
   the finish flag, and on success it does. Each finds the previous one used up, unless the stream was over
   before; then nothing is called any more and the pump fails.
   */
  lemma {:induction false} ChunksCoverInput<S(!new)>(
    c: Codec<S>, zip: bool, s: S, left: nat, source: Bytes, size: nat)
    requires Contract(c) && c.valid(s) && size > 0
    ensures var p := Pump(c, zip, s, left, source, size);
            && Fed(p.calls) <= source
            && (p.calls != [] ==> p.calls[0].leftover == left)
            && (forall i | 0 < i < |p.calls| :: p.calls[i].leftover > 0 ==> i == |p.calls| - 1 && !p.ok)
            && (forall i | 0 <= i < |p.calls| :: p.calls[i].finish ==> i == |p.calls| - 1)
            && (p.ok ==> Fed(p.calls) == source && p.calls != [] && p.calls[|p.calls| - 1].finish)
    decreases |source|
  {
    var input := Chunk(source, size);
    if input != [] {
      var last := |input| < size;
      var call := InputCall(input, last, left);
      ChunkDelivers(c, s, input, zip && last, size);
      var chunk := PumpChunk(c, s, input, zip && last, size);
      if chunk.ok && !last {
        ChunksCoverInput(c, zip, chunk.state, chunk.left, source[size..], size);
        if chunk.left > 0 {
          EndedFails(c, zip, chunk.state, chunk.left, source[size..], size);
        }
        var more := Pump(c, zip, chunk.state, chunk.left, source[size..], size);
        assert ([call] + more.calls)[1..] == more.calls;
        assert source == input + source[size..];
      } else {
        assert Fed([call]) == input by {
          assert [call][1..] == [];
        }
      }
    }
  }

  // --- Whatever the codec does ---

  /** With any step function, the inner loop succeeds after `rounds` rounds, leaving the codec in `next`. */
  ghost predicate Drains<S(!new)>(
    step: StepFunction<S>, s: S, input: Bytes, finish: bool, size: nat, rounds: nat, next: S)
    decreases rounds
  {
    && rounds > 0
    && var r := step(s, input, finish, size);
       && r.Good() && r.out != []
       && if |r.out| < size then rounds == 1 && next == r.state
          else Drains(step, r.state, if r.used <= |input| then input[r.used..] else [], finish, size, rounds - 1, next)
  }

  /** With any step function, the outer loop succeeds after `passes` passes. */
  ghost predicate Succeeds<S(!new)>(
    step: StepFunction<S>, zip: bool, s: S, source: Bytes, size: nat, passes: nat)
    decreases passes, 1
  {
    var input := Chunk(source, size);
    && passes > 0 && input != []
    && Passes(step, zip, s, input, zip && |input| < size, source[|input|..], size, passes)
  }

  /** One pass, and those after it. */
  ghost predicate Passes<S(!new)>(
    step: StepFunction<S>, zip: bool, s: S, input: Bytes, finish: bool, rest: Bytes, size: nat, passes: nat)
    requires passes > 0
    decreases passes, 0
  {
    exists rounds: nat, next: S ::
      && Drains(step, s, input, finish, size, rounds, next)
      && if |input| < size then passes == 1 else Succeeds(step, zip, next, rest, size, passes - 1)
  }

  lemma {:induction false} MultiplesFailAfter<S(!new)>(
    step: StepFunction<S>, zip: bool, s: S, source: Bytes, size: nat, passes: nat)
    requires size > 0 && |source| % size == 0
    ensures !Succeeds(step, zip, s, source, size, passes)
    decreases passes
  {
    if Succeeds(step, zip, s, source, size, passes) {
      if |source| < size {
        SmallMod(|source|, size);
      }
      var input := Chunk(source, size);
      assert Passes(step, zip, s, input, false, source[size..], size, passes);
      var rounds: nat, next: S :|
        && Drains(step, s, input, false, size, rounds, next)
        && Succeeds(step, zip, next, source[size..], size, passes - 1);
      ModMinus(|source|, size);
      MultiplesFailAfter(step, zip, next, source[size..], size, passes - 1);
    }
  }

  ghost predicate SucceedsAtAll<S(!new)>(step: StepFunction<S>, zip: bool, s: S, source: Bytes, size: nat) {
    exists passes :: Succeeds(step, zip, s, source, size, passes)
  }

  /** An input whose length is a multiple of the buffer size, zero included, fails with any codec at all. */
  lemma MultiplesFail<S(!new)>(step: StepFunction<S>, zip: bool, s: S, source: Bytes, size: nat)
    requires size > 0 && |source| % size == 0
    ensures !SucceedsAtAll(step, zip, s, source, size)
  {
    forall passes: nat
      ensures !Succeeds(step, zip, s, source, size, passes)
    {
      MultiplesFailAfter(step, zip, s, source, size, passes);
    }
  }

  lemma {:induction false} DrainsIsChunk<S(!new)>(
    c: Codec<S>, s: S, input: Bytes, finish: bool, size: nat, rounds: nat, next: S)
    requires Contract(c) && c.valid(s) && size > 0 && Drains(c.step, s, input, finish, size, rounds, next)
    ensures PumpChunk(c, s, input, finish, size).ok && PumpChunk(c, s, input, finish, size).state == next
    decreases rounds
  {
    FullRound(c, s, input, finish, size);
    var r := c.step(s, input, finish, size);
    if |r.out| >= size {
      DrainsIsChunk(c, r.state, input[r.used..], finish, size, rounds - 1, next);
    }
  }

  lemma {:induction false} ChunkDrains<S(!new)>(c: Codec<S>, s: S, input: Bytes, finish: bool, size: nat)
    returns (rounds: nat)
    requires Contract(c) && c.valid(s) && size > 0 && PumpChunk(c, s, input, finish, size).ok
    ensures Drains(c.step, s, input, finish, size, rounds, PumpChunk(c, s, input, finish, size).state)
    decreases Owed(c, s, input, finish)
  {
    FullRound(c, s, input, finish, size);
    var r := c.step(s, input, finish, size);
    rounds := 1;
    if |r.out| >= size {
      var more := ChunkDrains(c, r.state, input[r.used..], finish, size);
      rounds := more + 1;
    }
  }

  lemma {:induction false} SuccessIsPump<S(!new)>(
    c: Codec<S>, zip: bool, s: S, source: Bytes, size: nat, passes: nat)
    requires Contract(c) && c.valid(s) && size > 0 && Succeeds(c.step, zip, s, source, size, passes)
    ensures forall left :: Pump(c, zip, s, left, source, size).ok
    decreases passes
  {
    var input := Chunk(source, size);
    var last := |input| < size;
    assert Passes(c.step, zip, s, input, zip && last, source[|input|..], size, passes);
    var rounds: nat, next: S :|
      && Drains(c.step, s, input, zip && last, size, rounds, next)
      && if last then passes == 1 else Succeeds(c.step, zip, next, source[|input|..], size, passes - 1);
    DrainsIsChunk(c, s, input, zip && last, size, rounds, next);
    ChunkDelivers(c, s, input, zip && last, size);
    if !last {
      SuccessIsPump(c, zip, next, source[|input|..], size, passes - 1);
    }
  }

  lemma {:induction false} PumpIsSuccess<S(!new)>(c: Codec<S>, zip: bool, s: S, left: nat, source: Bytes, size: nat)
    returns (passes: nat)
    requires Contract(c) && c.valid(s) && size > 0 && Pump(c, zip, s, left, source, size).ok
    ensures Succeeds(c.step, zip, s, source, size, passes)
    decreases |source|
  {
    var input := Chunk(source, size);
    var last := |input| < size;
    ChunkDelivers(c, s, input, zip && last, size);
    var rounds := ChunkDrains(c, s, input, zip && last, size);
    var next := PumpChunk(c, s, input, zip && last, size).state;
    passes := 1;
    if !last {
      var left' := PumpChunk(c, s, input, zip && last, size).left;
      var more := PumpIsSuccess(c, zip, next, left', source[|input|..], size);
      passes := more + 1;
    }
    assert Drains(c.step, s, input, zip && last, size, rounds, next);
    assert Passes(c.step, zip, s, input, zip && last, source[|input|..], size, passes);
  }

  /** For a codec that meets the contract, to succeed is to succeed after some number of passes. */
  lemma PumpSucceedsAfterPasses<S(!new)>(c: Codec<S>, zip: bool, s: S, left: nat, source: Bytes, size: nat)
    requires Contract(c) && c.valid(s) && size > 0
    ensures Pump(c, zip, s, left, source, size).ok <==> SucceedsAtAll(c.step, zip, s, source, size)
  {
    if Pump(c, zip, s, left, source, size).ok {
      var passes := PumpIsSuccess(c, zip, s, left, source, size);
      assert Succeeds(c.step, zip, s, source, size, passes);
      assert SucceedsAtAll(c.step, zip, s, source, size);
    }
    forall passes: nat | Succeeds(c.step, zip, s, source, size, passes)
      ensures Pump(c, zip, s, left, source, size).ok
    {
      SuccessIsPump(c, zip, s, source, size, passes);
    }
  }

  // --- When the pump succeeds ---

  /** This call of the codec is not an error, unless there is neither input to take nor output left. */
  ghost predicate StepReliable<S(!new)>(c: Codec<S>, s: S, input: Bytes, finish: bool, room: nat) {
    input != [] || Owed(c, s, input, finish) > 0 ==> c.step(s, input, finish, room).Good()
  }

  /** Nor is any other one that the inner loop makes for this chunk. */
  ghost predicate ChunkReliable<S(!new)>(c: Codec<S>, s: S, input: Bytes, finish: bool, size: nat)
    requires Contract(c) && c.valid(s) && size > 0
    decreases Owed(c, s, input, finish)
  {
    FullRound(c, s, input, finish, size);
    var r := c.step(s, input, finish, size);
    && StepReliable(c, s, input, finish, size)
    && (r.Good() && |r.out| == size ==> ChunkReliable(c, r.state, input[r.used..], finish, size))
  }

  /** Nor any that the outer loop makes for this input: it is well-formed as far as the pump gets. */
  ghost predicate RunReliable<S(!new)>(c: Codec<S>, zip: bool, s: S, source: Bytes, size: nat)
    requires Contract(c) && c.valid(s) && size > 0
    decreases |source|
  {
    var input := Chunk(source, size);
    var last := |input| < size;
    ChunkDelivers(c, s, input, zip && last, size);
    input == [] ||
    var chunk := PumpChunk(c, s, input, zip && last, size);
    && ChunkReliable(c, s, input, zip && last, size)
    && (chunk.ok && !last ==> RunReliable(c, zip, chunk.state, source[|input|..], size))
  }

  /** Each chunk makes the codec's total output grow by an amount that does not fill the buffer exactly. */
  ghost predicate NoExactFill<S(!new)>(c: Codec<S>, zip: bool, before: Bytes, had: nat, source: Bytes, size: nat)
    requires size > 0
    decreases |source|
  {
    if source == [] then true
    else
      var input := Chunk(source, size);
      var total := TotalAfter(c, zip, before, source, size);
      !IsMultiple(total - had, size) && NoExactFill(c, zip, before + input, total, source[|input|..], size)
  }

  /** Total output of the codec once the next chunk is in. */
  ghost function TotalAfter<S(!new)>(c: Codec<S>, zip: bool, before: Bytes, source: Bytes, size: nat): nat {
    var input := Chunk(source, size);
    |c.target(before + input, zip && |input| < size)|
  }

  /** A chunk succeeds exactly when the codec makes no error on it and the output due does not fill buffers exactly. */
  lemma {:induction false} ChunkSucceedsIff<S(!new)>(c: Codec<S>, s: S, input: Bytes, finish: bool, size: nat)
    requires Contract(c) && c.valid(s) && size > 0
    requires input != [] || |c.emitted(s)| <= |c.target(c.consumed(s) + input, finish)|
    ensures PumpChunk(c, s, input, finish, size).ok <==>
            ChunkReliable(c, s, input, finish, size)
            && !IsMultiple(|c.target(c.consumed(s) + input, finish)| - |c.emitted(s)|, size)
    decreases Owed(c, s, input, finish)
  {
    FullRound(c, s, input, finish, size);
    var r := c.step(s, input, finish, size);
    var left := |c.target(c.consumed(s) + input, finish)| - |c.emitted(s)|;
    if r.Good() {
      if |r.out| == size {
        ChunkSucceedsIff(c, r.state, input[r.used..], finish, size);
      } else {
        assert left == |r.out|;
      }
    } else if StepReliable(c, s, input, finish, size) {
      assert input == [] && left == 0;
    }
  }

  /** For what is still to come, `before` is as good as what the codec has consumed. */
  ghost predicate SameFuture<S(!new)>(c: Codec<S>, s: S, before: Bytes) {
    forall more, finish :: SameAnswer(c, s, before, more, finish)
  }

  ghost predicate SameAnswer<S(!new)>(c: Codec<S>, s: S, before: Bytes, more: Bytes, finish: bool) {
    c.target(before + more, finish) == c.target(c.consumed(s) + more, finish)
  }

  lemma FutureStays<S(!new)>(c: Codec<S>, s: S, before: Bytes, input: Bytes, next: S, left: nat)
    requires Contract(c) && SameFuture(c, s, before) && c.valid(next) && Took(c, next, c.consumed(s) + input, left)
    ensures SameFuture(c, next, before + input)
  {
    forall more, finish
      ensures SameAnswer(c, next, before + input, more, finish)
    {
      Joined(before, input, more);
      Joined(c.consumed(s), input, more);
      assert SameAnswer(c, s, before, input + more, finish);
      SameTarget(c, next, c.consumed(s) + input, left, more, finish);
    }
  }

  /** The outer loop is left after a failed chunk and after the last one. */
  lemma PumpStep<S(!new)>(c: Codec<S>, zip: bool, s: S, before: Bytes, left: nat, source: Bytes, size: nat)
    returns (chunk: Pumped<S>)
    requires Contract(c) && c.valid(s) && size > 0 && source != [] && SameFuture(c, s, before)
    ensures var input, last := Chunk(source, size), |source| < size;
            && chunk == PumpChunk(c, s, input, zip && last, size)
            && (chunk.ok <==> ChunkReliable(c, s, input, zip && last, size)
                              && !IsMultiple(TotalAfter(c, zip, before, source, size) - |c.emitted(s)|, size))
            && (chunk.ok ==> c.valid(chunk.state) && SameFuture(c, chunk.state, before + input)
                             && |c.emitted(chunk.state)| == TotalAfter(c, zip, before, source, size))
  {
    var input, last := Chunk(source, size), |source| < size;
    ChunkSucceedsIff(c, s, input, zip && last, size);
    ChunkDelivers(c, s, input, zip && last, size);
    chunk := PumpChunk(c, s, input, zip && last, size);
    assert SameAnswer(c, s, before, input, zip && last);
    if chunk.ok {
      FutureStays(c, s, before, input, chunk.state, chunk.left);
    }
  }

  lemma {:induction false} PumpSucceedsFrom<S(!new)>(
    c: Codec<S>, zip: bool, s: S, before: Bytes, left: nat, source: Bytes, size: nat)
    requires Contract(c) && c.valid(s) && size > 0 && SameFuture(c, s, before)
    ensures Pump(c, zip, s, left, source, size).ok <==>
            && !IsMultiple(|source|, size) && RunReliable(c, zip, s, source, size)
            && NoExactFill(c, zip, before, |c.emitted(s)|, source, size)
    decreases |source|
  {
    if source != [] {
      var chunk := PumpStep(c, zip, s, before, left, source, size);
      var input, total := Chunk(source, size), TotalAfter(c, zip, before, source, size);
      var rest := source[|input|..];
      if |source| < size {
        assert rest == [] && NoExactFill(c, zip, before + input, total, rest, size);
      } else if chunk.ok {
        PumpSucceedsFrom(c, zip, chunk.state, before + input, chunk.left, rest, size);
      }
    }
  }

  /**
   The pump succeeds exactly when the codec makes no error on the input and neither the length of the input
   nor the output due for any chunk is a multiple of the buffer size.
   */
  lemma PumpSucceedsIff<S(!new)>(c: Codec<S>, zip: bool, s: S, left: nat, source: Bytes, size: nat)
    requires Contract(c) && c.valid(s) && size > 0
    ensures Pump(c, zip, s, left, source, size).ok <==>
            && !IsMultiple(|source|, size) && RunReliable(c, zip, s, source, size)
            && NoExactFill(c, zip, c.consumed(s), |c.emitted(s)|, source, size)
  {
    assert forall more, finish :: SameAnswer(c, s, c.consumed(s), more, finish);
    PumpSucceedsFrom(c, zip, s, c.consumed(s), left, source, size);
  }

  // --- Whole byte strings ---

  /** `processBytes`: empty for an empty input and for a failure. */
  ghost function ProcessedBytes<S(!new)>(c: Codec<S>, zip: bool, source: Bytes, size: nat): Bytes
    requires Contract(c) && size > 0
  {
    if source == [] then []
    else
      var p := Pump(c, zip, c.init, 0, source, size);
      if p.ok then p.out else []
  }

  /** A non-empty result is the codec's whole output, so it does not depend on the buffer size. */
  lemma ProcessedIsTarget<S(!new)>(c: Codec<S>, zip: bool, source: Bytes, size: nat)
    requires Contract(c) && size > 0
    ensures ProcessedBytes(c, zip, source, size) != [] ==>
              ProcessedBytes(c, zip, source, size) == c.target(source, zip)
    ensures source != [] ==>
              (ProcessedBytes(c, zip, source, size) != [] <==> Pump(c, zip, c.init, 0, source, size).ok)
  {
    PumpDelivers(c, zip, c.init, 0, source, size);
    assert c.consumed(c.init) + source == source;
    var p := Pump(c, zip, c.init, 0, source, size);
    assert c.emitted(c.init) + p.out == p.out;
  }

  /** Unzipping what was zipped gives the input back, for any two buffer sizes, whenever neither step failed. */
  lemma RoundTrip<S(!new), T(!new)>(enc: Codec<S>, dec: Codec<T>, source: Bytes, zipSize: nat, unzipSize: nat)
    requires Contract(enc) && Contract(dec) && zipSize > 0 && unzipSize > 0
    requires dec.target(enc.target(source, true), false) == source
    ensures var zipped := ProcessedBytes(enc, true, source, zipSize);
            var back := ProcessedBytes(dec, false, zipped, unzipSize);
            back != [] ==> back == source
  {
    ProcessedIsTarget(enc, true, source, zipSize);
    ProcessedIsTarget(dec, false, ProcessedBytes(enc, true, source, zipSize), unzipSize);
  }

  /** Exactly the inputs for which zipping or unzipping yields anything. */
  lemma ProcessedIffNoExactFill<S(!new)>(c: Codec<S>, zip: bool, source: Bytes, size: nat)
    requires Contract(c) && size > 0
    ensures ProcessedBytes(c, zip, source, size) != [] <==>
            && |source| % size != 0 && RunReliable(c, zip, c.init, source, size)
            && NoExactFill(c, zip, [], 0, source, size)
  {
    PumpSucceedsIff(c, zip, c.init, 0, source, size);
    ProcessedIsTarget(c, zip, source, size);
    MultipleIsRemainder(|source|, size);
  }

  /** So nothing comes out for such an input. */
  lemma MultiplesYieldNothing<S(!new)>(c: Codec<S>, zip: bool, source: Bytes, size: nat)
    requires Contract(c) && size > 0 && |source| % size == 0
    ensures ProcessedBytes(c, zip, source, size) == []
  {
    MultiplesFail(c.step, zip, c.init, source, size);
    PumpSucceedsAfterPasses(c, zip, c.init, 0, source, size);
  }

  // --- Input that goes on after the end of the stream ---

  ghost predicate SaysNoMore<S(!new)>(c: Codec<S>, stream: Bytes, more: Bytes, finish: bool) {
    c.target(stream + more, finish) == c.target(stream, false)
  }

  /** Whatever follows this stream, nothing more comes out. */
  ghost predicate Complete<S(!new)>(c: Codec<S>, stream: Bytes) {
    forall more, finish :: SaysNoMore(c, stream, more, finish)
  }

  lemma CompleteTarget<S(!new)>(c: Codec<S>, stream: Bytes, all: Bytes, finish: bool)
    requires Complete(c, stream) && stream <= all
    ensures c.target(all, finish) == c.target(stream, false)
  {
    assert all == stream + all[|stream|..];
    assert SaysNoMore(c, stream, all[|stream|..], finish);
  }

  /** A chunk that starts at or behind the end of the stream adds nothing. */
  lemma {:induction false} NoGrowthIsExactFill<S(!new)>(
    c: Codec<S>, zip: bool, stream: Bytes, before: Bytes, had: nat, source: Bytes, size: nat, boundary: nat)
    requires size > 0 && Complete(c, stream) && stream <= before + source
    requires |before| <= boundary < |before| + |source| && |stream| <= boundary
    requires IsMultiple(boundary - |before|, size)
    requires boundary == |before| ==> had == |c.target(stream, false)|
    ensures !NoExactFill(c, zip, before, had, source, size)
    decreases |source|
  {
    var input := Chunk(source, size);
    var rest := source[|input|..];
    assert input + rest == source;
    Joined(before, input, rest);
    if |stream| <= |before| + |input| {
      assert stream <= before + input;
      CompleteTarget(c, stream, before + input, zip && |input| < size);
    }
    if boundary > |before| {
      NoGrowthIsExactFill(
        c, zip, stream, before + input, TotalAfter(c, zip, before, source, size), rest, size, boundary);
    }
  }

  /**
   Bytes behind the end of a stream are dropped when they come with its last chunk; when a chunk boundary
   lies between the end and further bytes, the pump fails.
   */
  lemma TrailingBytes<S(!new)>(c: Codec<S>, stream: Bytes, source: Bytes, size: nat)
    requires Contract(c) && size > 0 && Complete(c, stream) && stream <= source && stream != []
    ensures var out := ProcessedBytes(c, false, source, size);
            && (out != [] ==> out == c.target(stream, false))
            && (forall boundary: nat | |stream| <= boundary < |source| && boundary % size == 0 :: out == [])
  {
    ProcessedIsTarget(c, false, source, size);
    ProcessedIffNoExactFill(c, false, source, size);
    CompleteTarget(c, stream, source, false);
    forall boundary: nat | |stream| <= boundary < |source| && boundary % size == 0
      ensures ProcessedBytes(c, false, source, size) == []
    {
      MultipleIsRemainder(boundary, size);
      assert [] + source == source;
      NoGrowthIsExactFill(c, false, stream, [], 0, source, size, boundary);
    }
  }

  // --- The objects of the source ---

  /** Buffer sizes are positive and fit the 32-bit counters of the codec's stream record. */
  type BufferSize = n: nat | 0 < n < 0x1_0000_0000 witness 1

  /** `resize(size, 0)` on a byte vector. */
  function Resized(bytes: Bytes, size: nat): (r: Bytes)
    ensures |r| == size
  {
    seq(size, i requires 0 <= i < size => if i < |bytes| then bytes[i] else 0)
  }

  class ZBase<S(!new)> {
    const codec: Codec<S>
    const zip: bool
    const bufferSize: BufferSize
    var state: S
    var inBuffer: Bytes
    var nextIn: nat
    var availIn: nat
    var outBuffer: Bytes
    var availOut: nat
    var ret: Ret
    var inFinish: bool
    ghost var calls: seq<InputCall>

    ghost predicate Valid()
      reads this
    {
      && Contract(codec)
      && (!ret.Error? ==> codec.valid(state))
      && nextIn + availIn == |inBuffer|
      && availOut <= bufferSize
    }

    constructor (codec: Codec<S>, zip: bool, bufferSize: BufferSize)
      requires Contract(codec)
      ensures Valid() && this.codec == codec && this.zip == zip && this.bufferSize == bufferSize
      ensures state == codec.init && ret == Ok && availIn == 0 && calls == []
    {
      this.codec, this.zip, this.bufferSize := codec, zip, bufferSize;
      state, ret, inFinish, calls := codec.init, Ok, false, [];
      inBuffer := seq(bufferSize, _ => 0);
      outBuffer := seq(bufferSize, _ => 0);
      nextIn, availIn, availOut := bufferSize, 0, 0;
    }

    /** Takes over at most one buffer of data; 0 for empty data. */
    method Input(bytes: Bytes, finish: bool) returns (n: nat)
      requires Valid()
      modifies this
      ensures Valid() && state == old(state) && ret == old(ret)
      ensures n == |Chunk(bytes, bufferSize)|
      ensures n == 0 ==> calls == old(calls)
      ensures n > 0 ==> inBuffer[nextIn..] == Chunk(bytes, bufferSize) && availIn == n && inFinish == finish
      ensures n > 0 ==> calls == old(calls) + [InputCall(Chunk(bytes, bufferSize), finish, old(availIn))]
    {
      if bytes == [] {
        return 0;
      }
      var dataLen := if |bytes| < bufferSize then |bytes| else bufferSize;
      calls := calls + [InputCall(bytes[..dataLen], finish, availIn)];
      inBuffer := bytes[..dataLen];
      availIn := dataLen;
      nextIn := 0;
      inFinish := finish;
      return dataLen;
    }

    /** One call of the codec into a fresh output buffer; empty after an error. */
    method ProcessDo() returns (outData: Bytes)
      requires Valid() && !ret.Error?
      modifies this
      ensures Valid() && calls == old(calls) && inFinish == old(inFinish)
      ensures var r := codec.step(old(state), old(inBuffer[nextIn..]), zip && old(inFinish), bufferSize);
              && r.used <= |old(inBuffer[nextIn..])| && ret == r.ret && state == r.state
              && outData == (if r.Good() then r.out else [])
              && inBuffer[nextIn..] == old(inBuffer[nextIn..])[r.used..]
              && availOut == bufferSize - |r.out|
    {
      ghost var input := inBuffer[nextIn..];
      StepIsBounded(codec, state, input, zip && inFinish, bufferSize);
      outBuffer := Resized(outBuffer, bufferSize);
      availOut := bufferSize;
      // the flush mode: finish for the last chunk of a compression, none otherwise
      var r := codec.step(state, inBuffer[nextIn..], zip && inFinish, availOut);
      outBuffer := r.out + outBuffer[|r.out|..];
      state, ret := r.state, r.ret;
      nextIn, availIn, availOut := nextIn + r.used, availIn - r.used, availOut - |r.out|;
      assert inBuffer[nextIn..] == input[r.used..];
      if ret.Error? {
        return [];
      }
      var outLen := bufferSize - availOut;
      outData := outBuffer[..outLen];
    }

    method ProcessFinished() returns (finished: bool)
      ensures finished <==> availOut != 0
    {
      finished := availOut != 0;
    }
  }

  /** A source that hands out at most `n` bytes a time and fewer only at its end. */
  class Reader {
    const data: Bytes
    var pos: nat

    ghost predicate Valid()
      reads this
    {
      pos <= |data|
    }

    constructor (data: Bytes)
      ensures Valid() && this.data == data && pos == 0
    {
      this.data, pos := data, 0;
    }

    method Read(n: nat) returns (bytes: Bytes)
      requires Valid()
      modifies this
      ensures Valid() && bytes == Chunk(old(data[pos..]), n) && data[pos..] == old(data[pos..])[|bytes|..]
      ensures pos == old(pos) + |bytes|
    {
      var len := if n < |data| - pos then n else |data| - pos;
      bytes := data[pos..pos + len];
      pos := pos + len;
    }
  }

  /** One round of the inner loop, with what was written before in front. */
  lemma ChunkUnfolds<S(!new)>(
    c: Codec<S>, s: S, input: Bytes, finish: bool, size: nat, out: Bytes, goal: Pumped<S>)
    requires Contract(c) && c.valid(s) && size > 0
    requires goal == PumpChunk(c, s, input, finish, size).Behind(out, [])
    ensures var r := c.step(s, input, finish, size);
            && r.used <= |input|
            && (!r.Good() || r.out == [] ==> goal == Pumped(false, r.state, |input| - r.used, out, []))
            && (r.Good() && r.out != [] && |r.out| < size ==>
                  goal == Pumped(true, r.state, |input| - r.used, out + r.out, []))
            && (r.Good() && r.out != [] && |r.out| >= size ==>
                  && c.valid(r.state) && Owed(c, r.state, input[r.used..], finish) < Owed(c, s, input, finish)
                  && goal == PumpChunk(c, r.state, input[r.used..], finish, size).Behind(out + r.out, []))
  {
    FullRound(c, s, input, finish, size);
    var r := c.step(s, input, finish, size);
    if r.Good() && |r.out| == size {
      var more := PumpChunk(c, r.state, input[r.used..], finish, size);
      assert out + (r.out + more.out) == out + r.out + more.out;
      assert [] + more.calls == more.calls;
    }
  }

  /** The inner loop on the object. */
  method DrainChunk<S(!new)>(zb: ZBase<S>) returns (ok: bool, written: Bytes)
    requires zb.Valid() && !zb.ret.Error?
    modifies zb
    ensures zb.Valid() && zb.calls == old(zb.calls) && zb.inFinish == old(zb.inFinish)
    ensures var input := old(zb.inBuffer[zb.nextIn..]);
            var p := PumpChunk(zb.codec, old(zb.state), input, zb.zip && zb.inFinish, zb.bufferSize);
            ok == p.ok && written == p.out && zb.state == p.state && zb.availIn == p.left
    ensures ok ==> !zb.ret.Error?
  {
    written := [];
    ghost var finish := zb.zip && zb.inFinish;
    ghost var goal := PumpChunk(zb.codec, zb.state, zb.inBuffer[zb.nextIn..], finish, zb.bufferSize).Behind([], []);
    var finished := false;
    while !finished
      invariant zb.Valid() && !zb.ret.Error? && zb.calls == old(zb.calls) && zb.inFinish == old(zb.inFinish)
      invariant !finished ==>
                  goal == PumpChunk(zb.codec, zb.state, zb.inBuffer[zb.nextIn..], finish, zb.bufferSize)
                          .Behind(written, [])
      invariant finished ==> goal == Pumped(true, zb.state, zb.availIn, written, [])
      decreases if finished then 0 else 1 + Owed(zb.codec, zb.state, zb.inBuffer[zb.nextIn..], finish)
    {
      ChunkUnfolds(zb.codec, zb.state, zb.inBuffer[zb.nextIn..], finish, zb.bufferSize, written, goal);
      var outData := zb.ProcessDo();
      if outData == [] {
        return false, written;
      }
      finished := zb.ProcessFinished();
      written := written + outData;
    }
    return true, written;
  }

  /** The body of the outer loop: one read, one `Input`, and the rounds for it. */
  method ProcessChunk<S(!new)>(zb: ZBase<S>, reader: Reader) returns (ok: bool, last: bool, written: Bytes)
    requires zb.Valid() && !zb.ret.Error? && reader.Valid()
    modifies zb, reader
    ensures zb.Valid() && reader.Valid() && (ok ==> !zb.ret.Error?)
    ensures var rest := old(reader.data[reader.pos..]);
            var input := Chunk(rest, zb.bufferSize);
            && last == (|input| < zb.bufferSize)
            && reader.data[reader.pos..] == rest[|input|..]
            && zb.calls ==
                 (if input == [] then old(zb.calls) else old(zb.calls) + [InputCall(input, last, old(zb.availIn))])
            && if input == [] then !ok && written == []
               else
                 var p := PumpChunk(zb.codec, old(zb.state), input, zb.zip && last, zb.bufferSize);
                 ok == p.ok && written == p.out && zb.state == p.state && zb.availIn == p.left
  {
    var input := reader.Read(zb.bufferSize);
    last := |input| < zb.bufferSize;
    assert Chunk(input, zb.bufferSize) == input;
    var n := zb.Input(input, last);
    if n == 0 {
      return false, last, [];
    }
    ok, written := DrainChunk(zb);
  }

  /** One pass of the outer loop, with what was done before in front. */
  lemma PumpUnfolds<S(!new)>(
    c: Codec<S>, zip: bool, s: S, left: nat, rest: Bytes, size: nat, out: Bytes, calls: seq<InputCall>,
    goal: Pumped<S>)
    requires Contract(c) && c.valid(s) && size > 0 && rest != []
    requires goal == Pump(c, zip, s, left, rest, size).Behind(out, calls)
    ensures var input := Chunk(rest, size);
            var last := |input| < size;
            var chunk := PumpChunk(c, s, input, zip && last, size);
            var made := calls + [InputCall(input, last, left)];
            && (!chunk.ok || last ==> goal == Pumped(chunk.ok, chunk.state, chunk.left, out + chunk.out, made))
            && (chunk.ok && !last ==>
                  && c.valid(chunk.state)
                  && goal == Pump(c, zip, chunk.state, chunk.left, rest[|input|..], size)
                             .Behind(out + chunk.out, made))
  {
    var input := Chunk(rest, size);
    ChunkDelivers(c, s, input, zip && |input| < size, size);
    var chunk := PumpChunk(c, s, input, zip && |input| < size, size);
    if chunk.ok && |input| == size {
      var p := Pump(c, zip, chunk.state, chunk.left, rest[|input|..], size);
      Joined(out, chunk.out, p.out);
      Joined(calls, [InputCall(input, false, left)], p.calls);
    }
  }

  /** `process`: read, input, drain, until a read comes back short. */
  method Process<S(!new)>(zb: ZBase<S>, reader: Reader) returns (ok: bool, written: Bytes)
    requires zb.Valid() && !zb.ret.Error? && zb.calls == []
    requires reader.Valid()
    modifies zb, reader
    ensures var p := old(Pump(zb.codec, zb.zip, zb.state, zb.availIn, reader.data[reader.pos..], zb.bufferSize));
            ok == p.ok && written == p.out && zb.calls == p.calls
  {
    ghost var goal := Pump(zb.codec, zb.zip, zb.state, zb.availIn, reader.data[reader.pos..], zb.bufferSize);
    written := [];
    assert goal == goal.Behind(written, zb.calls);
    var inputFinished := false;
    while !inputFinished
      invariant zb.Valid() && !zb.ret.Error? && reader.Valid()
      invariant !inputFinished ==>
                  goal == Pump(zb.codec, zb.zip, zb.state, zb.availIn, reader.data[reader.pos..], zb.bufferSize)
                          .Behind(written, zb.calls)
      invariant inputFinished ==> goal.ok && goal.out == written && goal.calls == zb.calls
      decreases !inputFinished, |reader.data[reader.pos..]|
    {
      ghost var rest := reader.data[reader.pos..];
      if rest != [] {
        PumpUnfolds(zb.codec, zb.zip, zb.state, zb.availIn, rest, zb.bufferSize, written, zb.calls, goal);
      }
      var drained, outData;
      drained, inputFinished, outData := ProcessChunk(zb, reader);
      written := written + outData;
      if !drained {
        return false, written;
      }
    }
    return true, written;
  }

  /** `processBytes` on a fresh object. */
  method ProcessBytes<S(!new)>(codec: Codec<S>, zip: bool, bufferSize: BufferSize, inBytes: Bytes)
    returns (outBytes: Bytes)
    requires Contract(codec)
    ensures outBytes == ProcessedBytes(codec, zip, inBytes, bufferSize)
  {
    var zb := new ZBase(codec, zip, bufferSize);
    if inBytes == [] {
      return [];
    }
    var reader := new Reader(inBytes);
    assert reader.data[reader.pos..] == inBytes;
    var ok, written := Process(zb, reader);
    if !ok {
      return [];
    }
    return written;
  }
}
