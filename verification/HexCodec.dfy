/**
 The hexadecimal codec: lower-case digits out, any mixture of hex digits and other characters in.
 `Digits` and `Value` are the reference: the digits a text contains, and the number they denote.
 */
module HexCodec {
  import opened Prelude

  // --- Digits and numbers ---

  predicate IsXDigit(c: char) {
    '0' <= c <= '9' || 'a' <= c <= 'f' || 'A' <= c <= 'F'
  }

  function DigitValue(c: char): (v: nat)
    requires IsXDigit(c)
    ensures v < 16
  {
    if c <= '9' then c as int - '0' as int
    else if c <= 'F' then c as int - 'A' as int + 10
    else c as int - 'a' as int + 10
  }

  function Digit(v: nat): (c: char)
    requires v < 16
    ensures IsXDigit(c) && DigitValue(c) == v && Lower(c) == c
  {
    "0123456789abcdef"[v]
  }

  /** `tolower` on the hex digits. */
  function Lower(c: char): char {
    if 'A' <= c <= 'F' then (c as int - 'A' as int + 'a' as int) as char else c
  }

  /** What the digits are, and what they are worth, spelled out. */
  lemma DigitsRead(c: char)
    ensures IsXDigit(c) <==> c in "0123456789" || c in "abcdef" || c in "ABCDEF"
    ensures c in "0123456789" ==> DigitValue(c) == c as int - 0x30
    ensures c in "abcdef" ==> DigitValue(c) == c as int - 0x61 + 10 && Lower(c) == c
    ensures c in "ABCDEF" ==> DigitValue(c) == c as int - 0x41 + 10 && Lower(c) as int == c as int + 0x20
    ensures !(c in "ABCDEF") ==> Lower(c) == c
  {
    if '0' <= c <= '9' {
      assert "0123456789"[c as int - 0x30] == c;
    } else if 'a' <= c <= 'f' {
      assert "abcdef"[c as int - 0x61] == c;
    } else if 'A' <= c <= 'F' {
      assert "ABCDEF"[c as int - 0x41] == c;
    }
  }

  /** Digits come out in lower case. */
  lemma DigitsWrite(v: nat)
    requires v < 16
    ensures Digit(v) as int == if v < 10 then 0x30 + v else 0x61 + v - 10
  {
  }

  function LowerAll(s: string): (r: string)
    ensures |r| == |s| && forall i | 0 <= i < |s| :: r[i] == Lower(s[i])
  {
    seq(|s|, i requires 0 <= i < |s| => Lower(s[i]))
  }

  predicate AllDigits(s: string) {
    forall i | 0 <= i < |s| :: IsXDigit(s[i])
  }

  /** The hex digits of a text, in order. */
  function Digits(s: string): (r: string)
    ensures AllDigits(r)
  {
    if s == [] then []
    else (if IsXDigit(s[0]) then [s[0]] else []) + Digits(s[1..])
  }

  function Padded(ds: string): string {
    if |ds| % 2 != 0 then "0" + ds else ds
  }

  /** The number denoted by a sequence of hex digits, most significant first. */
  function Value16(ds: string): nat
    requires AllDigits(ds)
  {
    if ds == [] then 0 else 16 * Value16(ds[..|ds| - 1]) + DigitValue(ds[|ds| - 1])
  }

  /** The number denoted by a sequence of bytes, most significant first. */
  function Value256(bs: Bytes): nat {
    if bs == [] then 0 else 256 * Value256(bs[..|bs| - 1]) + bs[|bs| - 1]
  }

  // --- Encoding ---

  /** `std::to_chars` in base 16: no leading zero. */
  function ToChars(b: Byte): string {
    if b < 16 then [Digit(b)] else [Digit(b / 16), Digit(b % 16)]
  }

  /** The digit at position `i` of the encoding: high halves at even positions, low halves at odd ones. */
  function DigitAt(bytes: Bytes, i: nat): (c: char)
    requires i < 2 * |bytes|
    ensures IsXDigit(c)
  {
    if i % 2 == 0 then Digit(bytes[i / 2] / 16) else Digit(bytes[i / 2] % 16)
  }

  function Encode(bytes: Bytes): (e: string)
    ensures |e| == 2 * |bytes| && AllDigits(e)
  {
    seq(2 * |bytes|, i requires 0 <= i < 2 * |bytes| => DigitAt(bytes, i))
  }

  /** Writes one byte at `at`, shifting a single digit right behind a zero. */
  method PutByte(b: Byte, buf: array<char>, at: nat)
    requires at + 2 <= buf.Length
    modifies buf
    ensures buf[at] == Digit(b / 16) && buf[at + 1] == Digit(b % 16)
    ensures forall i | 0 <= i < buf.Length && !(at <= i < at + 2) :: buf[i] == old(buf[i])
  {
    var text := ToChars(b);
    buf[at] := text[0];
    if |text| == 2 {
      buf[at + 1] := text[1];
    }
    if |text| == 1 {
      buf[at + 1] := buf[at];
      buf[at] := '0';
    }
  }

  method Bytes2Str(bytes: Bytes) returns (str: string)
    ensures str == Encode(bytes)
  {
    if bytes == [] {
      return [];
    }
    var buf := new char[|bytes| * 2];
    var idx := 0;
    while idx < |bytes|
      invariant 0 <= idx <= |bytes|
      invariant forall i | 0 <= i < 2 * idx :: buf[i] == DigitAt(bytes, i)
    {
      PutByte(bytes[idx], buf, idx * 2);
      assert buf[2 * idx] == DigitAt(bytes, 2 * idx) && buf[2 * idx + 1] == DigitAt(bytes, 2 * idx + 1);
      idx := idx + 1;
    }
    return buf[..];
  }

  // --- Decoding ---

  /** The bytes of an even number of digits. */
  function DecodePairs(ds: string): (bytes: Bytes)
    requires AllDigits(ds) && |ds| % 2 == 0
    ensures |bytes| == |ds| / 2
  {
    seq(|ds| / 2, k requires 0 <= k < |ds| / 2 => 16 * DigitValue(ds[2 * k]) + DigitValue(ds[2 * k + 1]))
  }

  lemma PaddedIsEven(ds: string)
    ensures |Padded(ds)| % 2 == 0
    ensures AllDigits(ds) ==> AllDigits(Padded(ds))
  {
  }

  function Decode(s: string): Bytes {
    var ds := Digits(s);
    PaddedIsEven(ds);
    if |ds| < 2 then [] else DecodePairs(Padded(ds))
  }

  lemma DigitsStep(s: string, i: nat, done: string)
    requires i < |s|
    ensures done + Digits(s[i..]) == (if IsXDigit(s[i]) then done + [s[i]] else done) + Digits(s[i + 1..])
  {
    assert s[i..][0] == s[i] && s[i..][1..] == s[i + 1..];
  }

  /** `std::copy_if` with the digit test. */
  method CopyDigits(str: string) returns (filtered: string)
    ensures filtered == Digits(str)
  {
    filtered := [];
    for i := 0 to |str|
      invariant filtered + Digits(str[i..]) == Digits(str)
    {
      DigitsStep(str, i, filtered);
      if IsXDigit(str[i]) {
        filtered := filtered + [str[i]];
      }
    }
  }

  /** The loop by two over the filtered digits. */
  method ChunkPairs(ds: string) returns (bytes: Bytes)
    requires AllDigits(ds) && |ds| % 2 == 0
    ensures bytes == DecodePairs(ds)
  {
    bytes := [];
    var i := 0;
    while i < |ds|
      invariant 0 <= i <= |ds| && i % 2 == 0
      invariant |bytes| == i / 2
      invariant forall k | 0 <= k < |bytes| :: bytes[k] == 16 * DigitValue(ds[2 * k]) + DigitValue(ds[2 * k + 1])
    {
      bytes := bytes + [16 * DigitValue(ds[i]) + DigitValue(ds[i + 1])];
      i := i + 2;
    }
  }

  method Str2Bytes(str: string) returns (bytes: Bytes)
    ensures bytes == Decode(str)
  {
    var filtered := CopyDigits(str);
    if |filtered| < 2 {
      return [];
    }
    PaddedIsEven(filtered);
    if |filtered| % 2 != 0 {
      filtered := "0" + filtered;
    }
    bytes := ChunkPairs(filtered);
  }

  // --- Round trips ---

  lemma {:induction false} DigitsOfDigits(ds: string)
    requires AllDigits(ds)
    ensures Digits(ds) == ds
  {
    if ds != [] {
      DigitsOfDigits(ds[1..]);
    }
  }

  lemma HighAndLow(h: nat, l: nat)
    requires h < 16 && l < 16
    ensures (16 * h + l) / 16 == h && (16 * h + l) % 16 == l
  {
  }

  lemma DigitsOfByte(bytes: Bytes, k: nat)
    requires k < |bytes|
    ensures DigitAt(bytes, 2 * k) == Digit(bytes[k] / 16) && DigitAt(bytes, 2 * k + 1) == Digit(bytes[k] % 16)
  {
  }

  lemma PairAt(bytes: Bytes, k: nat)
    requires k < |bytes|
    ensures DecodePairs(Encode(bytes))[k] == bytes[k]
  {
    DigitsOfByte(bytes, k);
    var e := Encode(bytes);
    assert e[2 * k] == DigitAt(bytes, 2 * k) && e[2 * k + 1] == DigitAt(bytes, 2 * k + 1);
  }

  lemma PairsOfEncoding(bytes: Bytes)
    ensures DecodePairs(Encode(bytes)) == bytes
  {
    forall k | 0 <= k < |bytes|
      ensures DecodePairs(Encode(bytes))[k] == bytes[k]
    {
      PairAt(bytes, k);
    }
  }

  lemma DecodeInvertsEncode(bytes: Bytes)
    ensures Decode(Encode(bytes)) == bytes
  {
    DigitsOfDigits(Encode(bytes));
    PairsOfEncoding(bytes);
  }

  lemma DigitIsLower(c: char)
    requires IsXDigit(c)
    ensures Digit(DigitValue(c)) == Lower(c)
  {
  }

  lemma HalvesAreDigits(b: Byte, h: char, l: char)
    requires IsXDigit(h) && IsXDigit(l) && b == 16 * DigitValue(h) + DigitValue(l)
    ensures Digit(b / 16) == Lower(h) && Digit(b % 16) == Lower(l)
  {
    HighAndLow(DigitValue(h), DigitValue(l));
    DigitIsLower(h);
    DigitIsLower(l);
  }

  lemma DecodedByte(ds: string, k: nat)
    requires AllDigits(ds) && |ds| % 2 == 0 && 2 * k + 1 < |ds|
    ensures DecodePairs(ds)[k] == 16 * DigitValue(ds[2 * k]) + DigitValue(ds[2 * k + 1])
  {
  }

  lemma DigitsOfPair(ds: string, bytes: Bytes, k: nat)
    requires AllDigits(ds) && |ds| == 2 * |bytes| && k < |bytes|
    requires bytes[k] == 16 * DigitValue(ds[2 * k]) + DigitValue(ds[2 * k + 1])
    ensures DigitAt(bytes, 2 * k) == Lower(ds[2 * k]) && DigitAt(bytes, 2 * k + 1) == Lower(ds[2 * k + 1])
  {
    DigitsOfByte(bytes, k);
    HalvesAreDigits(bytes[k], ds[2 * k], ds[2 * k + 1]);
  }

  lemma EncodingOfPairs(ds: string)
    requires AllDigits(ds) && |ds| % 2 == 0
    ensures Encode(DecodePairs(ds)) == LowerAll(ds)
  {
    forall i | 0 <= i < |ds|
      ensures Encode(DecodePairs(ds))[i] == LowerAll(ds)[i]
    {
      DecodedByte(ds, i / 2);
      DigitsOfPair(ds, DecodePairs(ds), i / 2);
      assert i == 2 * (i / 2) || i == 2 * (i / 2) + 1;
    }
  }

  /** Decoding and encoding again gives the lower-cased digits, left-padded to an even number. */
  lemma EncodeAfterDecode(s: string)
    ensures |Digits(s)| >= 2 ==> Encode(Decode(s)) == LowerAll(Padded(Digits(s)))
    ensures |Digits(s)| < 2 ==> Decode(s) == []
  {
    if |Digits(s)| >= 2 {
      PaddedIsEven(Digits(s));
      EncodingOfPairs(Padded(Digits(s)));
    }
  }

  lemma Value16Pair(ds: string, h: char, l: char)
    requires AllDigits(ds) && IsXDigit(h) && IsXDigit(l)
    ensures Value16(ds + [h, l]) == 256 * Value16(ds) + 16 * DigitValue(h) + DigitValue(l)
  {
    var now := ds + [h, l];
    assert now[..|ds| + 1] == ds + [h] && (ds + [h])[..|ds|] == ds;
  }

  lemma {:induction false} ValueOfPairs(ds: string, n: nat)
    requires AllDigits(ds) && |ds| % 2 == 0 && 2 * n <= |ds|
    ensures Value256(DecodePairs(ds)[..n]) == Value16(ds[..2 * n])
  {
    if n > 0 {
      ValueOfPairs(ds, n - 1);
      var bytes, before, h, l := DecodePairs(ds)[..n], ds[..2 * (n - 1)], ds[2 * n - 2], ds[2 * n - 1];
      assert bytes[..n - 1] == DecodePairs(ds)[..n - 1];
      assert ds[..2 * n] == before + [h, l];
      Value16Pair(before, h, l);
    }
  }

  lemma {:induction false} LeadingZero(ds: string)
    requires AllDigits(ds)
    ensures Value16("0" + ds) == Value16(ds)
  {
    if ds == [] {
      assert ("0" + ds)[..0] == [];
    } else {
      LeadingZero(ds[..|ds| - 1]);
      assert ("0" + ds)[..|ds|] == "0" + ds[..|ds| - 1];
    }
  }

  /** The decoded bytes denote the number that the digits of the text denote. */
  lemma DecodeKeepsValue(s: string)
    requires |Digits(s)| >= 2
    ensures Value256(Decode(s)) == Value16(Digits(s))
  {
    PaddedIsEven(Digits(s));
    var ds := Padded(Digits(s));
    ValueOfPairs(ds, |ds| / 2);
    assert DecodePairs(ds)[..|ds| / 2] == DecodePairs(ds) && ds[..2 * (|ds| / 2)] == ds;
    LeadingZero(Digits(s));
  }
}
