/** Small value types shared by the models. */
module Prelude {

  datatype Option<+T> = None | Some(value: T) {

    function GetOr(default: T): T {
      match this
      case Some(v) => v
      case None => default
    }
  }

  /** An unsigned 8-bit value; shifts of the source are divisions by powers of two here. */
  type Byte = x: int | 0 <= x < 256

  type Bytes = seq<Byte>

  predicate IsHexDigit(c: Byte) {
    0x30 <= c <= 0x39 || 0x41 <= c <= 0x46 || 0x61 <= c <= 0x66
  }

  function Min(a: nat, b: nat): nat {
    if a < b then a else b
  }

  predicate Distinct<T(==)>(s: seq<T>) {
    forall i, j | 0 <= i < j < |s| :: s[i] != s[j]
  }

  lemma Joined<T>(a: seq<T>, b: seq<T>, c: seq<T>)
    ensures a + b + c == a + (b + c)
  {
  }

  // --- Remainders ---

  lemma NoSmallMultiple(b: int, d: int)
    requires b > 0
    ensures d >= 1 ==> b * d >= b
    ensures d <= -1 ==> b * d <= -b
  {
  }

  lemma RemainderIs(a: nat, b: nat, q: int, r: nat)
    requires r < b && a == b * q + r
    ensures a % b == r
  {
    var d := a / b - q;
    assert a == b * (a / b) + a % b;
    assert b * d == r - a % b;
    NoSmallMultiple(b, d);
  }

  lemma SmallMod(a: nat, b: nat)
    requires a < b
    ensures a % b == a
  {
  }

  lemma ModMinus(a: nat, b: nat)
    requires 0 < b <= a
    ensures (a - b) % b == a % b
  {
    assert a == b * (a / b) + a % b;
    assert a - b == b * (a / b - 1) + a % b;
    RemainderIs(a - b, b, a / b - 1, a % b);
  }
}
