/**
 Codecs that meet the contract of the pump: one that copies, one that ends its stream with a trailer, and
 the decoder for that, which stops at the end of the stream whatever follows.
 */
module ZipCodecs {
  import opened Prelude
  import opened ZipPump

  // --- A copying codec ---

  /** Copies its input: what is consumed is emitted in the same call. */
  function StoredCodec(): Codec<Bytes> {
    Codec(
      [],
      (s: Bytes, input: Bytes, finish: bool, room: nat) =>
        var n := Min(|input|, room);
        Round(s + input[..n], n, input[..n], if finish && n == |input| then StreamEnd else Ok),
      (s: Bytes) => true,
      (s: Bytes) => s,
      (s: Bytes) => s,
      (s: Bytes) => false,
      (p: Bytes, finish: bool) => p)
  }

  lemma StoredMeetsContract()
    ensures Contract(StoredCodec())
  {
    var c := StoredCodec();
    forall s, input: Bytes, finish, room: nat | room > 0
      ensures StepMeets(c, s, input, finish, room)
    {
      var r := c.step(s, input, finish, room);
      assert r.used == |input| ==> input[..r.used] == input;
      assert s + input[..r.used] <= s + input;
    }
  }

  /** Its chunks fill the buffer exactly, so the pump copies what is shorter than the buffer and nothing else. */
  lemma StoredSucceedsIffShort(zip: bool, source: Bytes, size: nat)
    requires size > 0
    ensures Contract(StoredCodec())
    ensures ProcessedBytes(StoredCodec(), zip, source, size) != [] <==> 0 < |source| < size
  {
    var c := StoredCodec();
    StoredMeetsContract();
    ProcessedIffNoExactFill(c, zip, source, size);
    MultipleIsRemainder(|source|, size);
    var input := Chunk(source, size);
    assert [] + input == input;
    if 0 < |source| < size {
      assert source[|input|..] == [];
      assert NoExactFill(c, zip, [], 0, source, size);
      assert ChunkReliable(c, [], input, zip, size);
    } else if source != [] {
      assert IsMultiple(|input|, size);
      assert !NoExactFill(c, zip, [], 0, source, size);
    }
  }

  // --- A compressor with a trailer ---

  const MARK: Byte := 0

  datatype Marked = Marked(text: Bytes, closed: bool) {
    function Trailer(): Bytes {
      if closed then [MARK] else []
    }
  }

  /** Copies its input and ends the stream with a mark; once that is out, a further call is an error. */
  function MarkingStep(s: Marked, input: Bytes, finish: bool, room: nat): (r: Round<Marked>)
    ensures r.used <= |input|
  {
    var n := Min(|input|, room);
    if s.closed then Round(s, 0, [], Error(-2))
    else if finish && n < room then Round(Marked(s.text + input, true), |input|, input + [MARK], StreamEnd)
    else Round(Marked(s.text + input[..n], false), n, input[..n], Ok)
  }

  function MarkingCodec(): Codec<Marked> {
    Codec(
      Marked([], false),
      (s: Marked, input: Bytes, finish: bool, room: nat) => MarkingStep(s, input, finish, room),
      (s: Marked) => true,
      (s: Marked) => s.text,
      (s: Marked) => s.text + s.Trailer(),
      (s: Marked) => false,
      (p: Bytes, finish: bool) => p + if finish then [MARK] else [])
  }

  lemma MarkingMeetsContract()
    ensures Contract(MarkingCodec())
  {
    var c := MarkingCodec();
    forall s: Marked, input: Bytes, finish, room: nat | room > 0
      ensures StepMeets(c, s, input, finish, room)
    {
      if !s.closed {
        var r := MarkingStep(s, input, finish, room);
        assert r.used == |input| ==> input[..r.used] == input;
        assert s.text + input[..r.used] <= s.text + input;
      }
    }
  }

  /** The mark needs a place in the buffer that it does not fill. */
  lemma MarkingSucceedsIff(source: Bytes, size: nat)
    requires size > 0
    ensures Contract(MarkingCodec())
    ensures ProcessedBytes(MarkingCodec(), true, source, size) ==
            if 0 < |source| < size - 1 then source + [MARK] else []
  {
    var c := MarkingCodec();
    MarkingMeetsContract();
    ProcessedIffNoExactFill(c, true, source, size);
    ProcessedIsTarget(c, true, source, size);
    MultipleIsRemainder(|source|, size);
    var input := Chunk(source, size);
    assert [] + input == input;
    if 0 < |source| < size {
      assert source[|input|..] == [] && TotalAfter(c, true, [], source, size) == |source| + 1;
      assert NoExactFill(c, true, [], 0, source, size) == !IsMultiple(|source| + 1, size);
      assert IsMultiple(0, size) && IsMultiple(size, size);
      assert |source| + 1 < size ==> ChunkReliable(c, c.init, input, true, size);
    } else if source != [] {
      assert IsMultiple(|input|, size);
      assert !NoExactFill(c, true, [], 0, source, size);
    }
  }

  // --- Its decoder ---

  /** What comes before the first mark. */
  function Unmarked(p: Bytes): (r: Bytes)
    ensures r <= p && MARK !in r && (r == p || p[|r|] == MARK)
  {
    if p == [] || p[0] == MARK then [] else [p[0]] + Unmarked(p[1..])
  }

  lemma {:induction false} UnmarkedAppend(text: Bytes, more: Bytes)
    requires MARK !in text
    ensures Unmarked(text + more) == text + Unmarked(more)
  {
    if text == [] {
      assert text + more == more;
    } else {
      assert (text + more)[1..] == text[1..] + more;
      UnmarkedAppend(text[1..], more);
    }
  }

  /** Copies up to the mark; then the stream is over, with input left or not. */
  function UnmarkingStep(s: Marked, input: Bytes, room: nat): (r: Round<Marked>)
    ensures r.used <= |input|
  {
    var out := Unmarked(input);
    if s.closed then Round(s, 0, [], StreamEnd)
    else if |out| > room then Round(Marked(s.text + input[..room], false), room, input[..room], Ok)
    else if out == input then Round(Marked(s.text + input, false), |input|, input, Ok)
    else Round(Marked(s.text + out, true), |out| + 1, out, StreamEnd)
  }

  function UnmarkingCodec(): Codec<Marked> {
    Codec(
      Marked([], false),
      (s: Marked, input: Bytes, finish: bool, room: nat) => UnmarkingStep(s, input, room),
      (s: Marked) => MARK !in s.text,
      (s: Marked) => s.text + s.Trailer(),
      (s: Marked) => s.text,
      (s: Marked) => s.closed,
      (p: Bytes, finish: bool) => Unmarked(p))
  }

  lemma OpenStepMeets(s: Marked, input: Bytes, finish: bool, room: nat)
    requires MARK !in s.text && !s.closed && room > 0
    ensures StepMeets(UnmarkingCodec(), s, input, finish, room)
  {
    var out := Unmarked(input);
    assert s.text + [] == s.text;
    UnmarkedAppend(s.text, input);
    if |out| > room {
      assert input[..room] == out[..room];
    } else if out != input {
      assert input[..|out| + 1] == out + [MARK];
      Joined(s.text, out, [MARK]);
    } else {
      assert input[..|input|] == input;
    }
  }

  lemma ClosedSaysNoMore(s: Marked, more: Bytes)
    requires MARK !in s.text && s.closed
    ensures Unmarked(s.text + s.Trailer() + more) == s.text
  {
    Joined(s.text, [MARK], more);
    UnmarkedAppend(s.text, [MARK] + more);
  }

  lemma ClosedStepMeets(s: Marked, input: Bytes, finish: bool, room: nat)
    requires MARK !in s.text && s.closed && room > 0
    ensures StepMeets(UnmarkingCodec(), s, input, finish, room)
  {
    ClosedSaysNoMore(s, input);
    assert s.text + s.Trailer() + input[..0] == s.text + s.Trailer();
  }

  lemma UnmarkingMeetsContract()
    ensures Contract(UnmarkingCodec())
  {
    var c := UnmarkingCodec();
    forall s: Marked, input: Bytes, finish, room: nat | c.valid(s) && room > 0
      ensures StepMeets(c, s, input, finish, room)
    {
      if s.closed {
        ClosedStepMeets(s, input, finish, room);
      } else {
        OpenStepMeets(s, input, finish, room);
      }
    }
    forall s: Marked, more: Bytes, finish | c.valid(s) && c.ended(s)
      ensures EndMeets(c, s, more, finish)
    {
      ClosedSaysNoMore(s, more);
    }
  }

  /** What follows the mark is never decoded, so `TrailingBytes` applies to every marked text. */
  lemma MarkedIsComplete(text: Bytes)
    requires MARK !in text
    ensures Complete(UnmarkingCodec(), text + [MARK]) && UnmarkingCodec().target(text + [MARK], false) == text
  {
    var c := UnmarkingCodec();
    UnmarkedAppend(text, [MARK]);
    forall more, finish
      ensures SaysNoMore(c, text + [MARK], more, finish)
    {
      assert text + [MARK] + more == text + ([MARK] + more);
      UnmarkedAppend(text, [MARK] + more);
    }
  }

  /** The round trip for this pair, with further bytes behind the stream or not. */
  lemma MarkedRoundTrip(text: Bytes, more: Bytes, size: nat)
    requires size > 0 && MARK !in text
    ensures Contract(UnmarkingCodec())
    ensures var back := ProcessedBytes(UnmarkingCodec(), false, text + [MARK] + more, size);
            back == text || back == []
  {
    UnmarkingMeetsContract();
    MarkedIsComplete(text);
    TrailingBytes(UnmarkingCodec(), text + [MARK], text + [MARK] + more, size);
  }
}
