/** UTF-8 as Python encodes and strictly decodes it; a char is a Unicode scalar value. */
module Utf8 {
  import opened Common
  import opened Base64

  function EncodeChar(c: char): seq<Byte> {
    var n := c as int;
    if n < 0x80 then [n]
    else if n < 0x800 then [0xc0 + n / 64, 0x80 + n % 64]
    else if n < 0x1_0000 then [0xe0 + n / 4096, 0x80 + n / 64 % 64, 0x80 + n % 64]
    else [0xf0 + n / 262144, 0x80 + n / 4096 % 64, 0x80 + n / 64 % 64, 0x80 + n % 64]
  }

  function Utf8Encode(s: string): seq<Byte> {
    if s == [] then [] else EncodeChar(s[0]) + Utf8Encode(s[1..])
  }

  predicate Continuation(b: Byte) { 0x80 <= b < 0xc0 }

  predicate IsScalar(n: int) { 0 <= n < 0xd800 || 0xe000 <= n < 0x11_0000 }

  /** The first character and the number of its bytes; overlong forms, surrogates and values
      past the last code point are refused. */
  function DecodeFirst(b: seq<Byte>): Option<(char, nat)>
    requires b != []
  {
    var first: int := b[0];
    if first < 0x80 then Some((first as char, 1))
    else if 0xc0 <= first < 0xe0 && |b| >= 2 && Continuation(b[1]) then
      var n := (first - 0xc0) * 64 + (b[1] as int - 0x80);
      if n < 0x80 then None else Some((n as char, 2))
    else if 0xe0 <= first < 0xf0 && |b| >= 3 && Continuation(b[1]) && Continuation(b[2]) then
      var n := (first - 0xe0) * 4096 + (b[1] as int - 0x80) * 64 + (b[2] as int - 0x80);
      if n < 0x800 || !IsScalar(n) then None else Some((n as char, 3))
    else if 0xf0 <= first < 0xf8 && |b| >= 4 && Continuation(b[1]) && Continuation(b[2]) && Continuation(b[3]) then
      var n := (first - 0xf0) * 262144 + (b[1] as int - 0x80) * 4096 + (b[2] as int - 0x80) * 64 + (b[3] as int - 0x80);
      if n < 0x1_0000 || !IsScalar(n) then None else Some((n as char, 4))
    else None
  }

  function Utf8Decode(b: seq<Byte>): Option<string>
    decreases |b|
  {
    if b == [] then Some("")
    else
      match DecodeFirst(b)
      case None => None
      case Some((c, length)) =>
        DecodeFirstLength(b);
        match Utf8Decode(b[length..])
        case None => None
        case Some(rest) => Some([c] + rest)
  }

  lemma DecodeFirstLength(b: seq<Byte>)
    requires b != [] && DecodeFirst(b).Some?
    ensures 1 <= DecodeFirst(b).value.1 <= |b|
  {
  }

  lemma BaseSixtyFour(n: nat)
    ensures n / 64 * 64 + n % 64 == n
    ensures n / 4096 * 4096 + n / 64 % 64 * 64 + n % 64 == n
    ensures n / 262144 * 262144 + n / 4096 % 64 * 4096 + n / 64 % 64 * 64 + n % 64 == n
  {
    var a, b := n / 64, n / 4096;
    assert b == a / 64 && n / 262144 == b / 64;
    assert n == a * 64 + n % 64;
    assert a == b * 64 + a % 64;
    assert b == n / 262144 * 64 + b % 64;
  }

  lemma CharRoundTrip(c: char, rest: seq<Byte>)
    ensures EncodeChar(c) + rest != []
    ensures DecodeFirst(EncodeChar(c) + rest) == Some((c, |EncodeChar(c)|))
  {
    var n := c as int;
    BaseSixtyFour(n);
  }

  lemma {:induction false} Utf8RoundTrip(s: string)
    ensures Utf8Decode(Utf8Encode(s)) == Some(s)
  {
    if s != [] {
      Utf8RoundTrip(s[1..]);
      CharRoundTrip(s[0], Utf8Encode(s[1..]));
      assert s == [s[0]] + s[1..];
      assert (EncodeChar(s[0]) + Utf8Encode(s[1..]))[|EncodeChar(s[0])|..] == Utf8Encode(s[1..]);
    }
  }
}
