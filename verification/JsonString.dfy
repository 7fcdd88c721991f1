/**
 The string checker of the JSON decoder: four loop variables walk over the bytes of a text and
 report an unclosed literal, a raw control byte or a bad escape.

 The reference is a grammar given by its unparser: a text is accepted exactly when it is the
 rendering of bytes outside literals and complete literals of section 7 of RFC 8259, read at
 byte level.
 */
module JsonString {
  import opened Prelude

  const QUOTE: Byte := 0x22
  const BACKSLASH: Byte := 0x5C
  const LETTER_U: Byte := 0x75

  predicate IsSimpleEscape(c: Byte) {
    match c
    case 0x22 => true
    case 0x5C => true
    case 0x2F => true
    case 0x62 => true
    case 0x66 => true
    case 0x6E => true
    case 0x72 => true
    case 0x74 => true
    case _ => false
  }

  // --- The grammar ---

  /** One of `0123456789ABCDEFabcdef`. */
  predicate HexLetter(h: Byte) {
    h in [0x30, 0x31, 0x32, 0x33, 0x34, 0x35, 0x36, 0x37, 0x38, 0x39,
          0x41, 0x42, 0x43, 0x44, 0x45, 0x46, 0x61, 0x62, 0x63, 0x64, 0x65, 0x66]
  }

  datatype Item = Plain(b: Byte) | Simple(e: Byte) | Unicode(h0: Byte, h1: Byte, h2: Byte, h3: Byte) {

    predicate Legal() {
      match this
      case Plain(b) => b >= 0x20 && b != 0x22 && b != 0x5C
      case Simple(e) => e in [0x22, 0x5C, 0x2F, 0x62, 0x66, 0x6E, 0x72, 0x74]
      case Unicode(h0, h1, h2, h3) => HexLetter(h0) && HexLetter(h1) && HexLetter(h2) && HexLetter(h3)
    }

    function Render(): Bytes {
      match this
      case Plain(b) => [b]
      case Simple(e) => [0x5C, e]
      case Unicode(h0, h1, h2, h3) => [0x5C, 0x75, h0, h1, h2, h3]
    }
  }

  datatype Piece = Outside(b: Byte) | Literal(items: seq<Item>) {

    predicate Legal() {
      match this
      case Outside(b) => b != 0x22
      case Literal(items) => forall i | 0 <= i < |items| :: items[i].Legal()
    }

    function Render(): Bytes {
      match this
      case Outside(b) => [b]
      case Literal(items) => [0x22] + RenderItems(items) + [0x22]
    }
  }

  function RenderItems(items: seq<Item>): Bytes {
    if items == [] then [] else items[0].Render() + RenderItems(items[1..])
  }

  function RenderPieces(pieces: seq<Piece>): Bytes {
    if pieces == [] then [] else pieces[0].Render() + RenderPieces(pieces[1..])
  }

  predicate Legal(pieces: seq<Piece>) {
    forall i | 0 <= i < |pieces| :: pieces[i].Legal()
  }

  ghost predicate WellFormed(text: Bytes) {
    exists pieces :: Legal(pieces) && RenderPieces(pieces) == text
  }

  // --- The scanner ---

  datatype State = State(inString: bool, escaped: bool, hexRemain: nat) {

    /** The escape states only occur inside a literal, and never together. */
    predicate Valid() {
      && hexRemain <= 4
      && (escaped || hexRemain > 0 ==> inString)
      && !(escaped && hexRemain > 0)
    }
  }

  const START := State(false, false, 0)

  /** One byte; `None` is the early `return true`. */
  function Next(s: State, c: Byte): Option<State> {
    if !s.inString then Some(s.(inString := c == QUOTE))
    else if s.hexRemain > 0 then
      if IsHexDigit(c) then Some(s.(hexRemain := s.hexRemain - 1)) else None
    else if s.escaped then
      if c == LETTER_U then Some(s.(escaped := false, hexRemain := 4))
      else if IsSimpleEscape(c) then Some(s.(escaped := false))
      else None
    else if c == BACKSLASH then Some(s.(escaped := true))
    else if c == QUOTE then Some(s.(inString := false))
    else if c < 0x20 then None
    else Some(s)
  }

  predicate Accepts(s: State, text: Bytes)
    decreases |text|
  {
    if text == [] then !s.inString && !s.escaped && s.hexRemain == 0
    else
      var n := Next(s, text[0]);
      n.Some? && Accepts(n.value, text[1..])
  }

  /** The loop, with the invariant that the two escape states stay inside a literal. */
  method HasInvalidEscapeOrControl(json: Bytes) returns (invalid: bool)
    ensures invalid <==> !WellFormed(json)
  {
    ScannerDecidesGrammar(json);
    var s := START;
    for i := 0 to |json|
      invariant s.Valid()
      invariant Accepts(START, json) == Accepts(s, json[i..])
    {
      var c := json[i];
      assert json[i..][0] == c && json[i..][1..] == json[i + 1..];
      if !s.inString {
        if c == QUOTE {
          s := s.(inString := true);
        }
        continue;
      }
      if s.hexRemain > 0 {
        if !IsHexDigit(c) {
          return true;
        }
        s := s.(hexRemain := s.hexRemain - 1);
        continue;
      }
      if s.escaped {
        s := s.(escaped := false);
        if c == LETTER_U {
          s := s.(hexRemain := 4);
          continue;
        }
        if !IsSimpleEscape(c) {
          return true;
        }
        continue;
      }
      if c == BACKSLASH {
        s := s.(escaped := true);
      } else if c == QUOTE {
        s := s.(inString := false);
      } else if c < 0x20 {
        return true;
      }
    }
    return s.inString || s.escaped || s.hexRemain > 0;
  }

  // --- Scanner and grammar agree ---

  lemma HexLettersAreDigits(h: Byte)
    ensures HexLetter(h) <==> IsHexDigit(h)
  {
  }

  const INSIDE := State(true, false, 0)

  lemma FirstByte(s: State, c: Byte, rest: Bytes)
    ensures Accepts(s, [c] + rest) == (Next(s, c).Some? && Accepts(Next(s, c).value, rest))
  {
    assert ([c] + rest)[1..] == rest;
  }

  lemma AcceptsHex(n: nat, h: Byte, rest: Bytes)
    requires HexLetter(h) && 0 < n <= 4
    ensures Accepts(State(true, false, n), [h] + rest) == Accepts(State(true, false, n - 1), rest)
  {
    HexLettersAreDigits(h);
    FirstByte(State(true, false, n), h, rest);
  }

  lemma AcceptsUnicode(h0: Byte, h1: Byte, h2: Byte, h3: Byte, rest: Bytes)
    requires HexLetter(h0) && HexLetter(h1) && HexLetter(h2) && HexLetter(h3)
    ensures Accepts(INSIDE, [0x5C, 0x75, h0, h1, h2, h3] + rest) == Accepts(INSIDE, rest)
  {
    var t3 := [h3] + rest;
    var t2 := [h2] + t3;
    var t1 := [h1] + t2;
    var t0 := [h0] + t1;
    AcceptsHex(1, h3, rest);
    AcceptsHex(2, h2, t3);
    AcceptsHex(3, h1, t2);
    AcceptsHex(4, h0, t1);
    FirstByte(INSIDE.(escaped := true), 0x75, t0);
    FirstByte(INSIDE, 0x5C, [0x75] + t0);
    assert [0x5C, 0x75, h0, h1, h2, h3] + rest == [0x5C] + ([0x75] + t0);
  }

  lemma AcceptsSimple(e: Byte, rest: Bytes)
    requires Simple(e).Legal()
    ensures Accepts(INSIDE, [0x5C, e] + rest) == Accepts(INSIDE, rest)
  {
    FirstByte(INSIDE.(escaped := true), e, rest);
    FirstByte(INSIDE, 0x5C, [e] + rest);
    assert [0x5C, e] + rest == [0x5C] + ([e] + rest);
  }

  lemma AcceptsItem(item: Item, rest: Bytes)
    requires item.Legal()
    ensures Accepts(INSIDE, item.Render() + rest) == Accepts(INSIDE, rest)
  {
    match item {
      case Plain(b) => FirstByte(INSIDE, b, rest);
      case Simple(e) => AcceptsSimple(e, rest);
      case Unicode(h0, h1, h2, h3) => AcceptsUnicode(h0, h1, h2, h3, rest);
    }
  }

  lemma {:induction false} AcceptsLiteralBody(items: seq<Item>, rest: Bytes)
    requires Literal(items).Legal()
    ensures Accepts(INSIDE, RenderItems(items) + [QUOTE] + rest) == Accepts(START, rest)
  {
    var t := RenderItems(items) + [QUOTE] + rest;
    if items == [] {
      assert t[1..] == rest;
    } else {
      var tail := RenderItems(items[1..]) + [QUOTE] + rest;
      assert t == items[0].Render() + tail;
      AcceptsItem(items[0], tail);
      AcceptsLiteralBody(items[1..], rest);
    }
  }

  lemma AcceptsLiteral(items: seq<Item>, rest: Bytes)
    requires Literal(items).Legal()
    ensures Accepts(START, Literal(items).Render() + rest) == Accepts(START, rest)
  {
    var body := RenderItems(items) + [QUOTE] + rest;
    AcceptsLiteralBody(items, rest);
    FirstByte(START, QUOTE, body);
    assert Literal(items).Render() + rest == [QUOTE] + body;
  }

  lemma AcceptsPiece(piece: Piece, rest: Bytes)
    requires piece.Legal() && Accepts(START, rest)
    ensures Accepts(START, piece.Render() + rest)
  {
    match piece {
      case Outside(b) => FirstByte(START, b, rest);
      case Literal(items) => AcceptsLiteral(items, rest);
    }
  }

  /** Every rendering of legal pieces is accepted. */
  lemma {:induction false} GrammarIsAccepted(pieces: seq<Piece>)
    requires Legal(pieces)
    ensures Accepts(START, RenderPieces(pieces))
  {
    if pieces != [] {
      GrammarIsAccepted(pieces[1..]);
      AcceptsPiece(pieces[0], RenderPieces(pieces[1..]));
    }
  }

  /** An accepted tail of an open literal starts with one legal item or the closing quote. */
  lemma AcceptedItem(text: Bytes) returns (item: Item)
    requires Accepts(INSIDE, text)
    requires text[0] != QUOTE
    ensures item.Legal() && item.Render() <= text
  {
    if text[0] == BACKSLASH {
      var e := text[1];
      assert text[1..][0] == e;
      if e == LETTER_U {
        var hex := State(true, false, 4);
        assert text[1..][1..] == text[2..];
        assert Accepts(hex, text[2..]);
        assert text[2..][1..] == text[3..] && Accepts(hex.(hexRemain := 3), text[3..]);
        assert text[3..][1..] == text[4..] && Accepts(hex.(hexRemain := 2), text[4..]);
        assert text[4..][1..] == text[5..] && Accepts(hex.(hexRemain := 1), text[5..]);
        HexLettersAreDigits(text[2]);
        HexLettersAreDigits(text[3]);
        HexLettersAreDigits(text[4]);
        HexLettersAreDigits(text[5]);
        item := Unicode(text[2], text[3], text[4], text[5]);
      } else {
        item := Simple(e);
      }
    } else {
      item := Plain(text[0]);
    }
  }

  lemma {:induction false} AcceptedLiteral(text: Bytes) returns (items: seq<Item>, rest: Bytes)
    requires Accepts(INSIDE, text)
    ensures Literal(items).Legal()
    ensures text == RenderItems(items) + [QUOTE] + rest
    ensures Accepts(START, rest)
    decreases |text|
  {
    if text[0] == QUOTE {
      items, rest := [], text[1..];
    } else {
      var item := AcceptedItem(text);
      var tail := text[|item.Render()|..];
      assert text == item.Render() + tail;
      AcceptsItem(item, tail);
      var more;
      more, rest := AcceptedLiteral(tail);
      items := [item] + more;
      assert items[1..] == more;
    }
  }

  /** Every accepted text is the rendering of legal pieces. */
  lemma {:induction false} AcceptedIsGrammar(text: Bytes) returns (pieces: seq<Piece>)
    requires Accepts(START, text)
    ensures Legal(pieces) && RenderPieces(pieces) == text
    decreases |text|
  {
    if text == [] {
      pieces := [];
    } else if text[0] == QUOTE {
      var items, rest := AcceptedLiteral(text[1..]);
      var more := AcceptedIsGrammar(rest);
      pieces := [Literal(items)] + more;
      assert pieces[1..] == more;
      assert text == [QUOTE] + text[1..];
    } else {
      var more := AcceptedIsGrammar(text[1..]);
      pieces := [Outside(text[0])] + more;
      assert pieces[1..] == more;
    }
  }

  lemma ScannerDecidesGrammar(text: Bytes)
    ensures Accepts(START, text) <==> WellFormed(text)
  {
    if Accepts(START, text) {
      var pieces := AcceptedIsGrammar(text);
    }
    if WellFormed(text) {
      var pieces :| Legal(pieces) && RenderPieces(pieces) == text;
      GrammarIsAccepted(pieces);
    }
  }

  /** The state after a text, unless a byte of it was refused. */
  function After(text: Bytes): Option<State> {
    if text == [] then Some(START)
    else
      var s := After(text[..|text| - 1]);
      if s.None? then None else Next(s.value, text[|text| - 1])
  }

  /** In every reachable state an escape is pending only inside a literal, and only one kind of it. */
  lemma {:induction false} EscapesStayInside(text: Bytes)
    requires After(text).Some?
    ensures After(text).value.Valid()
  {
    if text != [] {
      EscapesStayInside(text[..|text| - 1]);
    }
  }
}
