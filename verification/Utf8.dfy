/** Well-formed UTF-8, as table 3-7 of the Unicode Standard lists its byte sequences. */
module Utf8 {
  import opened Common

  predicate Within(b: seq<byte>, i: nat, low: byte, high: byte) {
    i < |b| && low <= b[i] <= high
  }

  predicate Tail(b: seq<byte>, i: nat) {
    Within(b, i, 0x80, 0xBF)
  }

  /** Length of the scalar value that starts `b`, or 0 when the bytes there are ill-formed. */
  function ScalarLength(b: seq<byte>): (n: nat)
    ensures n <= |b|
  {
    if Within(b, 0, 0x00, 0x7F) then 1
    else if Within(b, 0, 0xC2, 0xDF) && Tail(b, 1) then 2
    else if Within(b, 0, 0xE0, 0xE0) && Within(b, 1, 0xA0, 0xBF) && Tail(b, 2) then 3
    else if (Within(b, 0, 0xE1, 0xEC) || Within(b, 0, 0xEE, 0xEF)) && Tail(b, 1) && Tail(b, 2) then 3
    else if Within(b, 0, 0xED, 0xED) && Within(b, 1, 0x80, 0x9F) && Tail(b, 2) then 3
    else if Within(b, 0, 0xF0, 0xF0) && Within(b, 1, 0x90, 0xBF) && Tail(b, 2) && Tail(b, 3) then 4
    else if Within(b, 0, 0xF1, 0xF3) && Tail(b, 1) && Tail(b, 2) && Tail(b, 3) then 4
    else if Within(b, 0, 0xF4, 0xF4) && Within(b, 1, 0x80, 0x8F) && Tail(b, 2) && Tail(b, 3) then 4
    else 0
  }

  predicate Valid(b: seq<byte>)
    decreases |b|
  {
    b == [] || (ScalarLength(b) > 0 && Valid(b[ScalarLength(b)..]))
  }

  // ---------- Encoding ----------

  /** The bytes of a character, as table 3-6 of the Unicode Standard distributes its bits. */
  function EncodeChar(c: char): seq<byte> {
    var n := c as int;
    if n < 0x80 then [n]
    else if n < 0x800 then [0xC0 + n / 0x40, 0x80 + n % 0x40]
    else if n < 0x1_0000 then [0xE0 + n / 0x1000, 0x80 + n / 0x40 % 0x40, 0x80 + n % 0x40]
    else [0xF0 + n / 0x4_0000, 0x80 + n / 0x1000 % 0x40, 0x80 + n / 0x40 % 0x40, 0x80 + n % 0x40]
  }

  function EncodeString(s: string): seq<byte> {
    if s == "" then [] else EncodeChar(s[0]) + EncodeString(s[1..])
  }

  lemma EncodedCharIsScalar(c: char, rest: seq<byte>)
    ensures ScalarLength(EncodeChar(c) + rest) == |EncodeChar(c)|
  {
    var n, b := c as int, EncodeChar(c) + rest;
    assert b[0] == EncodeChar(c)[0];
    if n >= 0x80 { assert b[1] == EncodeChar(c)[1]; }
    if n >= 0x800 { assert b[2] == EncodeChar(c)[2]; }
    if n >= 0x1_0000 { assert b[3] == EncodeChar(c)[3]; }
  }

  /** The digits of a number in base 64. */
  lemma Digits(high: int, x: int, y: int, z: int, n: int)
    requires 0 <= high && 0 <= x < 0x40 && 0 <= y < 0x40 && 0 <= z < 0x40
    requires n == high * 0x4_0000 + x * 0x1000 + y * 0x40 + z
    ensures n / 0x4_0000 == high && n / 0x1000 == high * 0x40 + x && n / 0x1000 % 0x40 == x
    ensures n / 0x40 == high * 0x1000 + x * 0x40 + y && n / 0x40 % 0x40 == y && n % 0x40 == z
  {
  }

  lemma TwoBytes(b: seq<byte>) returns (c: char)
    requires ScalarLength(b) == 2
    ensures EncodeChar(c) == b[..2]
  {
    var high: int, z: int := b[0] - 0xC0, b[1] - 0x80;
    Digits(0, 0, high, z, high * 0x40 + z);
    c := (high * 0x40 + z) as char;
  }

  lemma ThreeBytes(b: seq<byte>) returns (c: char)
    requires ScalarLength(b) == 3
    ensures EncodeChar(c) == b[..3]
  {
    var high: int, y: int, z: int := b[0] - 0xE0, b[1] - 0x80, b[2] - 0x80;
    Digits(0, high, y, z, high * 0x1000 + y * 0x40 + z);
    c := (high * 0x1000 + y * 0x40 + z) as char;
  }

  lemma FourBytes(b: seq<byte>) returns (c: char)
    requires ScalarLength(b) == 4
    ensures EncodeChar(c) == b[..4]
  {
    var high: int, x: int, y: int, z: int := b[0] - 0xF0, b[1] - 0x80, b[2] - 0x80, b[3] - 0x80;
    Digits(high, x, y, z, high * 0x4_0000 + x * 0x1000 + y * 0x40 + z);
    c := (high * 0x4_0000 + x * 0x1000 + y * 0x40 + z) as char;
  }

  lemma ScalarIsEncodedChar(b: seq<byte>) returns (c: char)
    requires ScalarLength(b) > 0
    ensures EncodeChar(c) == b[..ScalarLength(b)]
  {
    match ScalarLength(b) {
      case 1 => c := b[0] as char;
      case 2 => c := TwoBytes(b);
      case 3 => c := ThreeBytes(b);
      case _ => c := FourBytes(b);
    }
  }

  lemma {:induction false} EncodedIsValid(s: string)
    ensures Valid(EncodeString(s))
  {
    if s != "" {
      EncodedIsValid(s[1..]);
      EncodedCharIsScalar(s[0], EncodeString(s[1..]));
      assert EncodeString(s)[|EncodeChar(s[0])|..] == EncodeString(s[1..]);
    }
  }

  lemma {:induction false} ValidIsEncoded(b: seq<byte>) returns (s: string)
    requires Valid(b)
    ensures EncodeString(s) == b
    decreases |b|
  {
    if b == [] {
      s := "";
    } else {
      var k := ScalarLength(b);
      var c := ScalarIsEncodedChar(b);
      var rest := ValidIsEncoded(b[k..]);
      s := [c] + rest;
      assert b == b[..k] + b[k..];
    }
  }

  /** A byte string is well-formed exactly if it is the encoding of some characters. */
  lemma ValidIff(b: seq<byte>)
    ensures Valid(b) <==> exists s :: EncodeString(s) == b
  {
    if Valid(b) {
      var s := ValidIsEncoded(b);
    }
    if s :| EncodeString(s) == b {
      EncodedIsValid(s);
    }
  }

  lemma {:induction false} EncodedLengthIs(s: string)
    ensures |EncodeString(s)| == EncodedLength(s)
  {
    if s != "" { EncodedLengthIs(s[1..]); }
  }

  /** The number of bytes of a string. */
  function EncodedLength(s: string): nat {
    if s == "" then 0 else CharLength(s[0]) + EncodedLength(s[1..])
  }

  function CharLength(c: char): nat {
    var n := c as int;
    if n < 0x80 then 1 else if n < 0x800 then 2 else if n < 0x1_0000 then 3 else 4
  }

  predicate Ascii(s: string) {
    forall i | 0 <= i < |s| :: s[i] as int < 0x80
  }

  /** No string has fewer bytes than characters, and only ASCII has as many. */
  lemma {:induction false} EncodedLengthIff(s: string)
    ensures |s| <= EncodedLength(s)
    ensures |s| == EncodedLength(s) <==> Ascii(s)
  {
    if s != "" {
      EncodedLengthIff(s[1..]);
      assert forall i | 1 <= i < |s| :: s[i] == s[1..][i - 1];
      if Ascii(s[1..]) && s[0] as int < 0x80 {
        assert Ascii(s);
      }
    }
  }
}
