/**
 The repair loop that copies a byte string for Java, replacing by `?` every byte that does not
 begin a complete lead/continuation group. Groups have one of the four shapes of section 3 of
 RFC 3629; overlong and out-of-range forms keep their bytes.
 */
module Utf8Repair {
  import opened Prelude

  const QUESTION: Byte := 0x3F
  const MAX_JSIZE := 0x7FFF_FFFF

  // --- Shapes ---

  predicate IsContinuation(b: Byte) {
    b / 64 == 0x2
  }

  /** Length of the complete group at the head of `s`, or 0 when its first byte begins none. */
  function GroupLength(s: Bytes): (n: nat)
    requires s != []
    ensures n <= 4 && n <= |s|
  {
    if s[0] < 0x80 then 1
    else if s[0] / 32 == 0x6 && 1 < |s| && IsContinuation(s[1]) then 2
    else if s[0] / 16 == 0xE && 2 < |s| && IsContinuation(s[1]) && IsContinuation(s[2]) then 3
    else if s[0] / 8 == 0x1E && 3 < |s| && IsContinuation(s[1]) && IsContinuation(s[2]) && IsContinuation(s[3]) then 4
    else 0
  }

  /** One group: a lead byte and exactly the continuation bytes that its high bits announce. */
  predicate IsGroup(g: Bytes) {
    match |g|
    case 1 => g[0] <= 0x7F
    case 2 => 0xC0 <= g[0] <= 0xDF && Tail(g[1])
    case 3 => 0xE0 <= g[0] <= 0xEF && Tail(g[1]) && Tail(g[2])
    case 4 => 0xF0 <= g[0] <= 0xF7 && Tail(g[1]) && Tail(g[2]) && Tail(g[3])
    case _ => false
  }

  predicate Tail(b: Byte) {
    0x80 <= b <= 0xBF
  }

  function Concat(groups: seq<Bytes>): Bytes {
    if groups == [] then [] else groups[0] + Concat(groups[1..])
  }

  predicate AllGroups(groups: seq<Bytes>) {
    forall i | 0 <= i < |groups| :: IsGroup(groups[i])
  }

  /** The string is a concatenation of groups. */
  ghost predicate Shaped(s: Bytes) {
    exists groups :: AllGroups(groups) && Concat(groups) == s
  }

  /** One character of the syntax in section 4 of RFC 3629. */
  predicate IsUtf8Char(g: Bytes) {
    match |g|
    case 1 => g[0] <= 0x7F
    case 2 => 0xC2 <= g[0] <= 0xDF && Tail(g[1])
    case 3 =>
      && Tail(g[2])
      && (|| (g[0] == 0xE0 && 0xA0 <= g[1] <= 0xBF)
          || (0xE1 <= g[0] <= 0xEC && Tail(g[1]))
          || (g[0] == 0xED && 0x80 <= g[1] <= 0x9F)
          || (0xEE <= g[0] <= 0xEF && Tail(g[1])))
    case 4 =>
      && Tail(g[2]) && Tail(g[3])
      && (|| (g[0] == 0xF0 && 0x90 <= g[1] <= 0xBF)
          || (0xF1 <= g[0] <= 0xF3 && Tail(g[1]))
          || (g[0] == 0xF4 && 0x80 <= g[1] <= 0x8F))
    case _ => false
  }

  ghost predicate ValidUtf8(s: Bytes) {
    exists chars: seq<Bytes> :: (forall i | 0 <= i < |chars| :: IsUtf8Char(chars[i])) && Concat(chars) == s
  }

  // --- The repair ---

  /** The repaired text as pieces: kept groups and single question marks. */
  function RepairPieces(s: Bytes): (pieces: seq<Bytes>)
    decreases |s|
  {
    if s == [] then []
    else
      var n := GroupLength(s);
      if n == 0 then [[QUESTION]] + RepairPieces(s[1..])
      else [s[..n]] + RepairPieces(s[n..])
  }

  function Repair(s: Bytes): Bytes {
    Concat(RepairPieces(s))
  }

  /** The copy handed to Java: empty when the length does not fit a `jsize`, else repaired by the loop. */
  method BoxString(str: Bytes) returns (fixed: Bytes)
    ensures |str| > 0x7FFF_FFFF ==> fixed == []
    ensures |str| <= 0x7FFF_FFFF ==> fixed == Repair(str)
  {
    var sLen := |str|;
    if sLen > MAX_JSIZE {
      return [];
    }
    var p := str;
    fixed := [];
    var i := 0;
    while i < sLen
      invariant 0 <= i <= sLen
      invariant fixed + Repair(p[i..]) == Repair(p)
      decreases sLen - i
    {
      GroupLengthAt(p, i);
      ghost var start, before := i, fixed;
      if p[i] < 0x80 {
        fixed := fixed + [p[i]];
        i := i + 1;
      } else if p[i] / 32 == 0x6 && i + 1 < sLen && p[i + 1] / 64 == 0x2 {
        fixed := fixed + [p[i], p[i + 1]];
        i := i + 2;
      } else if p[i] / 16 == 0xE && i + 2 < sLen && p[i + 1] / 64 == 0x2 && p[i + 2] / 64 == 0x2 {
        fixed := fixed + [p[i], p[i + 1], p[i + 2]];
        i := i + 3;
      } else if p[i] / 8 == 0x1E && i + 3 < sLen
                && p[i + 1] / 64 == 0x2 && p[i + 2] / 64 == 0x2 && p[i + 3] / 64 == 0x2 {
        fixed := fixed + [p[i], p[i + 1], p[i + 2], p[i + 3]];
        i := i + 4;
      } else {
        fixed := fixed + [QUESTION];
        i := i + 1;
      }
      CopyStep(p, start, i, before, fixed);
    }
  }

  /** The group at a position, by the bytes there. */
  lemma GroupLengthAt(p: Bytes, i: nat)
    requires i < |p|
    ensures GroupLength(p[i..]) ==
            if p[i] < 0x80 then 1
            else if p[i] / 32 == 0x6 && i + 1 < |p| && IsContinuation(p[i + 1]) then 2
            else if p[i] / 16 == 0xE && i + 2 < |p| && IsContinuation(p[i + 1]) && IsContinuation(p[i + 2]) then 3
            else if p[i] / 8 == 0x1E && i + 3 < |p| && IsContinuation(p[i + 1]) && IsContinuation(p[i + 2])
                    && IsContinuation(p[i + 3]) then 4
            else 0
  {
  }

  /** One round of the loop: the piece appended is the one that the repair puts at position `i`. */
  lemma CopyStep(p: Bytes, i: nat, next: nat, before: Bytes, fixed: Bytes)
    requires i < next <= |p| && |fixed| == |before| + (next - i) && before <= fixed
    requires next == i + if GroupLength(p[i..]) == 0 then 1 else GroupLength(p[i..])
    requires forall j | i <= j < next ::
               fixed[|before| + j - i] == if GroupLength(p[i..]) == 0 then QUESTION else p[j]
    ensures fixed + Repair(p[next..]) == before + Repair(p[i..])
  {
    if GroupLength(p[i..]) == 0 {
      assert fixed == before + [QUESTION];
      MarkStep(p, i, before);
    } else {
      assert fixed == before + p[i..next];
      KeepStep(p, i, next, before);
    }
  }

  lemma MarkStep(p: Bytes, i: nat, before: Bytes)
    requires i < |p| && GroupLength(p[i..]) == 0
    ensures before + [QUESTION] + Repair(p[i + 1..]) == before + Repair(p[i..])
  {
    StepAt(p[i..]);
    assert p[i..][1..] == p[i + 1..];
    Joined(before, [QUESTION], Repair(p[i + 1..]));
  }

  lemma KeepStep(p: Bytes, i: nat, next: nat, before: Bytes)
    requires i < next <= |p| && GroupLength(p[i..]) == next - i
    ensures before + p[i..next] + Repair(p[next..]) == before + Repair(p[i..])
  {
    StepAt(p[i..]);
    assert p[i..][..next - i] == p[i..next] && p[i..][next - i..] == p[next..];
    Joined(before, p[i..next], Repair(p[next..]));
  }

  /** The first step of the repair, seen on the concatenated text. */
  lemma StepAt(s: Bytes)
    requires s != []
    ensures var n := GroupLength(s);
            Repair(s) == if n == 0 then [QUESTION] + Repair(s[1..]) else s[..n] + Repair(s[n..])
  {
    var pieces := RepairPieces(s);
    assert pieces[1..] == RepairPieces(s[if GroupLength(s) == 0 then 1 else GroupLength(s)..]);
  }

  // --- What the repair guarantees ---

  lemma GroupLengthFindsGroup(s: Bytes)
    requires s != [] && GroupLength(s) > 0
    ensures IsGroup(s[..GroupLength(s)])
  {
  }

  lemma GroupIsFound(g: Bytes, rest: Bytes)
    requires IsGroup(g)
    ensures GroupLength(g + rest) == |g|
  {
  }

  /** Position by position, `r` has the byte of `s` or a question mark. */
  predicate Bytewise(r: Bytes, s: Bytes) {
    |r| == |s| && forall i | 0 <= i < |s| :: r[i] == s[i] || r[i] == 0x3F
  }

  lemma BytewiseConcat(r: Bytes, s: Bytes, r': Bytes, s': Bytes)
    requires Bytewise(r, s) && Bytewise(r', s')
    ensures Bytewise(r + r', s + s')
  {
  }

  lemma FirstPieceIsBytewise(s: Bytes) returns (n: nat, head: Bytes)
    requires s != []
    ensures 0 < n <= |s| && Bytewise(head, s[..n]) && Repair(s) == head + Repair(s[n..])
  {
    StepAt(s);
    n := GroupLength(s);
    if n == 0 {
      n, head := 1, [QUESTION];
    } else {
      head := s[..n];
    }
  }

  /** Length is kept, and a byte is either kept or replaced by a question mark. */
  lemma {:induction false} RepairIsBytewise(s: Bytes)
    ensures Bytewise(Repair(s), s)
    decreases |s|
  {
    if s != [] {
      var n, head := FirstPieceIsBytewise(s);
      RepairIsBytewise(s[n..]);
      BytewiseConcat(head, s[..n], Repair(s[n..]), s[n..]);
      assert s == s[..n] + s[n..];
    }
  }

  /** The repaired text is a concatenation of groups. */
  lemma {:induction false} RepairIsShaped(s: Bytes)
    ensures AllGroups(RepairPieces(s))
    ensures Shaped(Repair(s))
    decreases |s|
  {
    if s != [] {
      var n := GroupLength(s);
      if n > 0 {
        GroupLengthFindsGroup(s);
      }
      RepairIsShaped(s[if n == 0 then 1 else n..]);
    }
  }

  lemma {:induction false} GroupsAreKept(groups: seq<Bytes>)
    requires AllGroups(groups)
    ensures Repair(Concat(groups)) == Concat(groups)
  {
    if groups != [] {
      var rest := Concat(groups[1..]);
      var s := Concat(groups);
      GroupIsFound(groups[0], rest);
      StepAt(s);
      assert s[..|groups[0]|] == groups[0] && s[|groups[0]|..] == rest;
      GroupsAreKept(groups[1..]);
    }
  }

  /** Exactly the concatenations of groups come back unchanged. */
  lemma UnchangedIffShaped(s: Bytes)
    ensures Repair(s) == s <==> Shaped(s)
  {
    RepairIsShaped(s);
    if Shaped(s) {
      var groups :| AllGroups(groups) && Concat(groups) == s;
      GroupsAreKept(groups);
    }
  }

  lemma RepairIsIdempotent(s: Bytes)
    ensures Repair(Repair(s)) == Repair(s)
  {
    RepairIsShaped(s);
    UnchangedIffShaped(Repair(s));
  }

  lemma ValidUtf8IsUnchanged(s: Bytes)
    requires ValidUtf8(s)
    ensures Repair(s) == s
  {
    var chars: seq<Bytes> :| (forall i | 0 <= i < |chars| :: IsUtf8Char(chars[i])) && Concat(chars) == s;
    forall i | 0 <= i < |chars|
      ensures IsGroup(chars[i])
    {
      assert IsUtf8Char(chars[i]);
    }
    GroupsAreKept(chars);
  }

  /** The converse fails: the overlong form of `/` is kept although section 4 of RFC 3629 forbids it. */
  lemma OverlongIsKept()
    ensures Repair([0xC0, 0xAF]) == [0xC0, 0xAF]
    ensures !ValidUtf8([0xC0, 0xAF])
  {
    var s: Bytes := [0xC0, 0xAF];
    assert AllGroups([s]) && Concat([s]) == s;
    UnchangedIffShaped(s);
    forall chars: seq<Bytes> | (forall i | 0 <= i < |chars| :: IsUtf8Char(chars[i])) && chars != []
      ensures Concat(chars) != s
    {
      assert IsUtf8Char(chars[0]);
      assert Concat(chars)[0] == chars[0][0];
    }
  }
}
