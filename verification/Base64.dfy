/** URL-safe base64 (section 5 of RFC 4648) with the padding left off (section 3.2). */
module Base64 {
  import opened Common

  type Byte = b: int | 0 <= b < 256
  type Sextet = n: int | 0 <= n < 64

  function Symbol(n: Sextet): char {
    if n < 26 then ('A' as int + n) as char
    else if n < 52 then ('a' as int + (n - 26)) as char
    else if n < 62 then ('0' as int + (n - 52)) as char
    else if n == 62 then '-' else '_'
  }

  /** The decoder maps the URL-safe pair onto `+` and `/` and still accepts those themselves. */
  function ValueOf(c: char): Option<Sextet> {
    if 'A' <= c <= 'Z' then Some(c as int - 'A' as int)
    else if 'a' <= c <= 'z' then Some(c as int - 'a' as int + 26)
    else if '0' <= c <= '9' then Some(c as int - '0' as int + 52)
    else if c == '-' || c == '+' then Some(62)
    else if c == '_' || c == '/' then Some(63)
    else None
  }

  lemma SymbolValue(n: Sextet)
    ensures ValueOf(Symbol(n)) == Some(n) && Symbol(n) != '='
  {
  }

  function Group3(a: Byte, b: Byte, c: Byte): string {
    [Symbol(a / 4), Symbol(a % 4 * 16 + b / 16), Symbol(b % 16 * 4 + c / 64), Symbol(c % 64)]
  }

  /** `urlsafe_b64encode`. */
  function EncodePadded(bytes: seq<Byte>): string {
    if bytes == [] then ""
    else if |bytes| == 1 then [Symbol(bytes[0] / 4), Symbol(bytes[0] % 4 * 16), '=', '=']
    else if |bytes| == 2 then
      [Symbol(bytes[0] / 4), Symbol(bytes[0] % 4 * 16 + bytes[1] / 16), Symbol(bytes[1] % 16 * 4), '=']
    else Group3(bytes[0], bytes[1], bytes[2]) + EncodePadded(bytes[3..])
  }

  /** `rstrip(b"=")`. */
  function StripPadding(s: string): string {
    if s != [] && s[|s| - 1] == '=' then StripPadding(s[..|s| - 1]) else s
  }

  function Encode(bytes: seq<Byte>): string { StripPadding(EncodePadded(bytes)) }

  function Equals(n: nat): string { if n == 0 then "" else "=" + Equals(n - 1) }

  /** `"=" * (-len % 4)`. */
  function Padding(length: nat): string { Equals((4 - length % 4) % 4) }

  function Byte0(a: Sextet, b: Sextet): Byte { a as int * 4 + b as int / 16 }

  function Byte1(b: Sextet, c: Sextet): Byte { b as int % 16 * 16 + c as int / 4 }

  function Byte2(c: Sextet, d: Sextet): Byte { c as int % 4 * 64 + d as int }

  function DecodeLast(s: string): Option<seq<Byte>>
    requires |s| == 4
  {
    match (ValueOf(s[0]), ValueOf(s[1]), ValueOf(s[2]), ValueOf(s[3]))
    case (Some(a), Some(b), Some(c), Some(d)) => Some([Byte0(a, b), Byte1(b, c), Byte2(c, d)])
    case (Some(a), Some(b), Some(c), None) => if s[3] == '=' then Some([Byte0(a, b), Byte1(b, c)]) else None
    case (Some(a), Some(b), None, None) => if s[2] == '=' && s[3] == '=' then Some([Byte0(a, b)]) else None
    case _ => None
  }

  /** `b64decode(..., validate=True)`: padding only at the very end. */
  function DecodePadded(s: string): Option<seq<Byte>> {
    if s == "" then Some([])
    else if |s| < 4 then None
    else
      match DecodeLast(s[..4])
      case None => None
      case Some(group) =>
        if |s| == 4 then Some(group)
        else if |group| < 3 then None
        else
          match DecodePadded(s[4..])
          case None => None
          case Some(rest) => Some(group + rest)
  }

  function Decode(token: string): Option<seq<Byte>> { DecodePadded(token + Padding(|token|)) }

  lemma SextetsHold(a: Byte, b: Byte, c: Byte)
    ensures Byte0(a / 4, a % 4 * 16 + b / 16) == a
    ensures Byte1(a % 4 * 16 + b / 16, b % 16 * 4 + c / 64) == b
    ensures Byte2(b % 16 * 4 + c / 64, c % 64) == c
  {
    assert (a % 4 * 16 + b / 16) / 16 == a % 4 && (a % 4 * 16 + b / 16) % 16 == b / 16;
    assert (b % 16 * 4 + c / 64) / 4 == b % 16 && (b % 16 * 4 + c / 64) % 4 == c / 64;
  }

  lemma GroupRoundTrip(a: Byte, b: Byte, c: Byte)
    ensures DecodeLast(Group3(a, b, c)) == Some([a, b, c])
  {
    hide Symbol, ValueOf, Byte0, Byte1, Byte2;
    SextetsHold(a, b, c);
    SymbolValue(a / 4);
    SymbolValue(a % 4 * 16 + b / 16);
    SymbolValue(b % 16 * 4 + c / 64);
    SymbolValue(c % 64);
  }

  lemma SymbolIsNoPadding()
    ensures ValueOf('=') == None
  {
  }

  lemma ShortRoundTrip(bytes: seq<Byte>)
    requires 1 <= |bytes| <= 2
    ensures |EncodePadded(bytes)| == 4 && DecodeLast(EncodePadded(bytes)) == Some(bytes)
  {
    hide Symbol, ValueOf, Byte0, Byte1, Byte2;
    SymbolValue(bytes[0] / 4);
    if |bytes| == 1 {
      SymbolValue(bytes[0] % 4 * 16);
      SextetsHold(bytes[0], 0, 0);
      SymbolIsNoPadding();
      assert bytes == [bytes[0]];
    } else {
      SextetsHold(bytes[0], bytes[1], 0);
      SymbolIsNoPadding();
      SymbolValue(bytes[0] % 4 * 16 + bytes[1] / 16);
      SymbolValue(bytes[1] % 16 * 4);
      assert bytes == [bytes[0], bytes[1]];
    }
  }

  lemma {:induction false} PaddedRoundTrip(bytes: seq<Byte>)
    ensures DecodePadded(EncodePadded(bytes)) == Some(bytes)
  {
    hide Symbol, ValueOf, DecodeLast;
    if 1 <= |bytes| <= 2 {
      ShortRoundTrip(bytes);
      assert EncodePadded(bytes)[..4] == EncodePadded(bytes);
    } else if |bytes| > 2 {
      var group, rest := Group3(bytes[0], bytes[1], bytes[2]), EncodePadded(bytes[3..]);
      PaddedRoundTrip(bytes[3..]);
      GroupRoundTrip(bytes[0], bytes[1], bytes[2]);
      var e, front := EncodePadded(bytes), [bytes[0], bytes[1], bytes[2]];
      assert |e| == 4 + |rest| && e[..4] == group && e[4..] == rest;
      assert bytes == front + bytes[3..];
      if rest == "" {
        assert DecodePadded(rest) == Some([]) && front + bytes[3..] == front;
      }
    }
  }

  lemma {:induction false} StripAfter(front: string, s: string)
    requires StripPadding(s) != []
    ensures StripPadding(front + s) == front + StripPadding(s)
  {
    if s[|s| - 1] == '=' {
      assert (front + s)[..|front + s| - 1] == front + s[..|s| - 1];
      StripAfter(front, s[..|s| - 1]);
    }
  }

  lemma ShortPaddingRestored(bytes: seq<Byte>)
    requires 1 <= |bytes| <= 2
    ensures Encode(bytes) == EncodePadded(bytes)[..|bytes| + 1]
    ensures Encode(bytes) + Padding(|Encode(bytes)|) == EncodePadded(bytes)
    ensures forall c :: c in Encode(bytes) ==> ValueOf(c).Some?
  {
    var e := EncodePadded(bytes);
    SymbolValue(bytes[0] / 4);
    if |bytes| == 1 {
      SymbolValue(bytes[0] % 4 * 16);
      assert e[..3][..2] == e[..2];
      assert StripPadding(e) == StripPadding(e[..3]) == StripPadding(e[..2]) == e[..2];
      assert Equals(2) == "==";
    } else {
      SymbolValue(bytes[0] % 4 * 16 + bytes[1] / 16);
      SymbolValue(bytes[1] % 16 * 4);
      assert StripPadding(e) == StripPadding(e[..3]) == e[..3];
      assert Equals(1) == "=";
    }
  }

  lemma GroupSymbols(a: Byte, b: Byte, c: Byte)
    ensures forall s :: s in Group3(a, b, c) ==> ValueOf(s).Some?
    ensures StripPadding(Group3(a, b, c)) == Group3(a, b, c)
  {
    SymbolValue(a / 4);
    SymbolValue(a % 4 * 16 + b / 16);
    SymbolValue(b % 16 * 4 + c / 64);
    SymbolValue(c % 64);
  }

  /** The stripped text is four thirds of the bytes, rounded up, and the decoder's arithmetic
      puts back exactly the padding that was stripped. */
  lemma {:induction false} PaddingRestored(bytes: seq<Byte>)
    ensures |Encode(bytes)| == (4 * |bytes| + 2) / 3
    ensures Encode(bytes) + Padding(|Encode(bytes)|) == EncodePadded(bytes)
    ensures forall c :: c in Encode(bytes) ==> ValueOf(c).Some?
  {
    hide Symbol, ValueOf, StripPadding, Equals, Padding;
    if |bytes| == 0 {
      EmptyEncoding();
    } else if |bytes| <= 2 {
      ShortPaddingRestored(bytes);
    } else {
      var group, rest := Group3(bytes[0], bytes[1], bytes[2]), bytes[3..];
      GroupSymbols(bytes[0], bytes[1], bytes[2]);
      PaddingRestored(rest);
      if rest == [] {
        EmptyEncoding();
        assert EncodePadded(bytes) == group;
      } else {
        StripAfter(group, EncodePadded(rest));
        PaddingPeriod(|Encode(rest)|);
        assert group + Encode(rest) + Padding(|Encode(rest)|) == group + (Encode(rest) + Padding(|Encode(rest)|));
      }
    }
  }

  lemma PaddingPeriod(length: nat)
    ensures Padding(4 + length) == Padding(length)
  {
  }

  lemma EmptyEncoding()
    ensures Encode([]) == "" && EncodePadded([]) == "" && Padding(0) == "" && Padding(4) == ""
  {
  }

  lemma RoundTrip(bytes: seq<Byte>)
    ensures Decode(Encode(bytes)) == Some(bytes)
  {
    PaddingRestored(bytes);
    PaddedRoundTrip(bytes);
  }
}
