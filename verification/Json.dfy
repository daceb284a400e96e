/** The JSON texts (RFC 8259) the cursor contract writes, and a parser for JSON without floats. */
module Json {
  import opened Common
  import opened Ordering

  datatype Json = Null | Bool(b: bool) | Int(n: int) | Str(s: string) | Arr(items: seq<Json>) | Obj(fields: seq<Field>)

  datatype Field = Field(name: string, value: Json)

  // ---------- Printing: separators without spaces, non-ASCII characters as they are ----------

  function Digit(n: nat): char
    requires n < 10
  {
    ('0' as int + n) as char
  }

  function PrintNat(n: nat): string {
    if n < 10 then [Digit(n)] else PrintNat(n / 10) + [Digit(n % 10)]
  }

  function PrintInt(n: int): string {
    if n < 0 then "-" + PrintNat(-n) else PrintNat(n)
  }

  function HexDigit(n: nat): char
    requires n < 16
  {
    if n < 10 then ('0' as int + n) as char else ('a' as int + (n - 10)) as char
  }

  function EscapeChar(c: char): string {
    if c == '\"' then ['\\', '\"']
    else if c == '\\' then ['\\', '\\']
    else if c == '\n' then ['\\', 'n']
    else if c == '\r' then ['\\', 'r']
    else if c == '\t' then ['\\', 't']
    else if c as int == 0x08 then ['\\', 'b']
    else if c as int == 0x0c then ['\\', 'f']
    else if c as int < 0x20 then ['\\', 'u', '0', '0', HexDigit(c as int / 16), HexDigit(c as int % 16)]
    else [c]
  }

  function Escape(s: string): string {
    if s == "" then "" else EscapeChar(s[0]) + Escape(s[1..])
  }

  function Quote(s: string): string { "\"" + Escape(s) + "\"" }

  function Print(j: Json): string
    decreases j
  {
    match j
    case Null => "null"
    case Bool(b) => if b then "true" else "false"
    case Int(n) => PrintInt(n)
    case Str(s) => Quote(s)
    case Arr(items) => "[" + PrintItems(items) + "]"
    case Obj(fields) => "{" + PrintFields(fields) + "}"
  }

  function PrintItems(items: seq<Json>): string
    decreases items
  {
    if items == [] then ""
    else if |items| == 1 then Print(items[0])
    else Print(items[0]) + "," + PrintItems(items[1..])
  }

  function PrintFields(fields: seq<Field>): string
    decreases fields
  {
    if fields == [] then ""
    else if |fields| == 1 then Quote(fields[0].name) + ":" + Print(fields[0].value)
    else Quote(fields[0].name) + ":" + Print(fields[0].value) + "," + PrintFields(fields[1..])
  }

  /** `sort_keys`: the names of an object come in ascending order. */
  predicate KeysSorted(fields: seq<Field>) {
    forall i :: 0 <= i < |fields| - 1 ==> Less(fields[i].name, fields[i + 1].name)
  }

  // ---------- Parsing ----------

  function SkipSpace(s: string): (r: string)
    ensures |r| <= |s|
  {
    if s != "" && (s[0] == ' ' || s[0] == '\t' || s[0] == '\n' || s[0] == '\r') then SkipSpace(s[1..]) else s
  }

  predicate IsDigit(c: char) { '0' <= c <= '9' }

  function DigitSpan(s: string): (n: nat)
    ensures n <= |s|
  {
    if s != "" && IsDigit(s[0]) then 1 + DigitSpan(s[1..]) else 0
  }

  function DigitsValue(s: string): nat
    requires forall i :: 0 <= i < |s| ==> IsDigit(s[i])
  {
    if s == "" then 0
    else
      assert IsDigit(s[|s| - 1]);
      DigitsValue(s[..|s| - 1]) * 10 + (s[|s| - 1] as int - '0' as int)
  }

  lemma {:induction false} DigitSpanDigits(s: string)
    ensures forall i :: 0 <= i < DigitSpan(s) ==> IsDigit(s[i])
  {
    if s != "" && IsDigit(s[0]) {
      DigitSpanDigits(s[1..]);
      assert forall i :: 1 <= i < |s| ==> s[i] == s[1..][i - 1];
    }
  }

  /** `0|[1-9][0-9]*`; a fraction or an exponent would make it a float, which the contract refuses. */
  function ParseNat(s: string): (r: Option<(nat, string)>)
    ensures r.Some? ==> |r.value.1| < |s|
  {
    DigitSpanDigits(s);
    var n := if s != "" && s[0] == '0' then 1 else DigitSpan(s);
    if n == 0 then None
    else
      var rest := s[n..];
      if rest != "" && (rest[0] == '.' || rest[0] == 'e' || rest[0] == 'E') then None
      else Some((DigitsValue(s[..n]), rest))
  }

  function HexValue(c: char): Option<nat> {
    if IsDigit(c) then Some(c as int - '0' as int)
    else if 'a' <= c <= 'f' then Some(c as int - 'a' as int + 10)
    else if 'A' <= c <= 'F' then Some(c as int - 'A' as int + 10)
    else None
  }

  /** The character of an escape, given the text after the backslash, and its length. */
  function ParseEscape(s: string): (r: Option<(char, nat)>)
    ensures r.Some? ==> 1 <= r.value.1 <= |s|
  {
    if s == "" then None
    else if s[0] == '\"' || s[0] == '\\' || s[0] == '/' then Some((s[0], 1))
    else if s[0] == 'n' then Some(('\n', 1))
    else if s[0] == 'r' then Some(('\r', 1))
    else if s[0] == 't' then Some(('\t', 1))
    else if s[0] == 'b' then Some((0x08 as char, 1))
    else if s[0] == 'f' then Some((0x0c as char, 1))
    else if s[0] == 'u' && |s| >= 5 then
      match (HexValue(s[1]), HexValue(s[2]), HexValue(s[3]), HexValue(s[4]))
      case (Some(a), Some(b), Some(c), Some(d)) =>
        var n := a * 4096 + b * 256 + c * 16 + d;
        if n < 0xd800 || 0xe000 <= n < 0x1_0000 then Some((n as char, 5)) else None
      case _ => None
    else None
  }

  /** The text after an opening quote. */
  function ParseString(s: string): (r: Option<(string, string)>)
    ensures r.Some? ==> |r.value.1| < |s|
    decreases |s|
  {
    if s == "" then None
    else if s[0] == '\"' then Some(("", s[1..]))
    else if s[0] == '\\' then
      match ParseEscape(s[1..])
      case None => None
      case Some((c, length)) =>
        match ParseString(s[1 + length..])
        case None => None
        case Some((text, rest)) => Some(([c] + text, rest))
    else if s[0] as int < 0x20 then None
    else
      match ParseString(s[1..])
      case None => None
      case Some((text, rest)) => Some(([s[0]] + text, rest))
  }

  function ParseValue(s: string): (r: Option<(Json, string)>)
    ensures r.Some? ==> |r.value.1| < |s|
    decreases |s|, 0
  {
    if s == "" then None
    else if s[0] == '\"' then
      match ParseString(s[1..])
      case None => None
      case Some((text, rest)) => Some((Str(text), rest))
    else if s[0] == '[' then
      var t := SkipSpace(s[1..]);
      if t != "" && t[0] == ']' then Some((Arr([]), t[1..]))
      else
        match ParseItems(t)
        case None => None
        case Some((items, rest)) => Some((Arr(items), rest))
    else if s[0] == '{' then
      var t := SkipSpace(s[1..]);
      if t != "" && t[0] == '}' then Some((Obj([]), t[1..]))
      else
        match ParseFields(t)
        case None => None
        case Some((fields, rest)) => Some((Obj(fields), rest))
    else if s[0] == '-' then
      match ParseNat(s[1..])
      case None => None
      case Some((n, rest)) => Some((Int(-(n as int)), rest))
    else if IsDigit(s[0]) then
      match ParseNat(s)
      case None => None
      case Some((n, rest)) => Some((Int(n), rest))
    else if "null" <= s then Some((Null, s[4..]))
    else if "true" <= s then Some((Bool(true), s[4..]))
    else if "false" <= s then Some((Bool(false), s[5..]))
    else None
  }

  function ParseItems(s: string): (r: Option<(seq<Json>, string)>)
    ensures r.Some? ==> |r.value.1| < |s|
    decreases |s|, 1
  {
    match ParseValue(s)
    case None => None
    case Some((item, rest)) =>
      var t := SkipSpace(rest);
      if t != "" && t[0] == ']' then Some(([item], t[1..]))
      else if t != "" && t[0] == ',' then
        match ParseItems(SkipSpace(t[1..]))
        case None => None
        case Some((items, last)) => Some(([item] + items, last))
      else None
  }

  function ParseFields(s: string): (r: Option<(seq<Field>, string)>)
    ensures r.Some? ==> |r.value.1| < |s|
    decreases |s|, 1
  {
    if s == "" || s[0] != '\"' then None
    else
      match ParseString(s[1..])
      case None => None
      case Some((name, afterName)) =>
        var colon := SkipSpace(afterName);
        if colon == "" || colon[0] != ':' then None
        else
          match ParseValue(SkipSpace(colon[1..]))
          case None => None
          case Some((value, rest)) =>
            var t := SkipSpace(rest);
            if t != "" && t[0] == '}' then Some(([Field(name, value)], t[1..]))
            else if t != "" && t[0] == ',' then
              match ParseFields(SkipSpace(t[1..]))
              case None => None
              case Some((fields, last)) => Some(([Field(name, value)] + fields, last))
            else None
  }

  /** `json.loads`. */
  function Parse(s: string): Option<Json> {
    match ParseValue(SkipSpace(s))
    case None => None
    case Some((j, rest)) => if SkipSpace(rest) == "" then Some(j) else None
  }

  // ---------- Round trips ----------

  lemma {:induction false} PrintNatIs(n: nat)
    ensures |PrintNat(n)| >= 1 && forall i :: 0 <= i < |PrintNat(n)| ==> IsDigit(PrintNat(n)[i])
    ensures DigitsValue(PrintNat(n)) == n
    ensures PrintNat(n)[0] == '0' ==> |PrintNat(n)| == 1
  {
    if n >= 10 {
      PrintNatIs(n / 10);
      assert PrintNat(n)[..|PrintNat(n)| - 1] == PrintNat(n / 10);
      if n / 10 < 10 { assert PrintNat(n / 10) == [Digit(n / 10)]; } else { PrintNatHead(n / 10); }
    } else {
      assert PrintNat(n)[..0] == "";
    }
  }

  lemma {:induction false} PrintNatHead(n: nat)
    requires n > 0
    ensures |PrintNat(n)| >= 1 && PrintNat(n)[0] != '0'
  {
    if n >= 10 { PrintNatHead(n / 10); }
  }

  lemma {:induction false} SpanOf(digits: string, rest: string)
    requires forall i :: 0 <= i < |digits| ==> IsDigit(digits[i])
    requires rest == "" || !IsDigit(rest[0])
    ensures DigitSpan(digits + rest) == |digits|
  {
    if digits == "" {
      assert digits + rest == rest;
    } else {
      assert (digits + rest)[1..] == digits[1..] + rest;
      SpanOf(digits[1..], rest);
    }
  }

  /** What can follow a value inside a printed text. */
  predicate Ends(rest: string) {
    rest == "" || rest[0] == ',' || rest[0] == ']' || rest[0] == '}'
  }

  lemma NatRoundTrip(n: nat, rest: string)
    requires Ends(rest)
    ensures ParseNat(PrintNat(n) + rest) == Some((n, rest))
  {
    PrintNatIs(n);
    SpanOf(PrintNat(n), rest);
    var s, k := PrintNat(n) + rest, |PrintNat(n)|;
    assert s[..k] == PrintNat(n) && s[k..] == rest;
  }

  lemma CharEscape(c: char, rest: string)
    ensures var e := EscapeChar(c);
            if e[0] == '\\' then
              |e| >= 2 && ParseEscape((e + rest)[1..]) == Some((c, |e| - 1))
            else e == [c] && c != '\"' && c as int >= 0x20
  {
    var e := EscapeChar(c);
    if e[0] == '\\' {
      var t := (e + rest)[1..];
      assert t[0] == e[1];
      if |e| == 6 {
        assert t[1] == '0' && t[2] == '0' && t[3] == HexDigit(c as int / 16) && t[4] == HexDigit(c as int % 16);
      }
    }
  }

  lemma {:induction false} StringRoundTrip(s: string, rest: string)
    ensures ParseString(Escape(s) + "\"" + rest) == Some((s, rest))
    decreases |s|
  {
    if s == "" {
      assert Escape(s) + "\"" + rest == "\"" + rest;
    } else {
      var tail := Escape(s[1..]) + "\"" + rest;
      var e := EscapeChar(s[0]);
      assert Escape(s) + "\"" + rest == e + tail;
      CharEscape(s[0], tail);
      StringRoundTrip(s[1..], rest);
      assert (e + tail)[|e|..] == tail;
      assert s == [s[0]] + s[1..];
    }
  }

  lemma NoSpace(s: string)
    requires s == "" || !(s[0] == ' ' || s[0] == '\t' || s[0] == '\n' || s[0] == '\r')
    ensures SkipSpace(s) == s
  {
  }

  lemma {:induction false} PrintHead(j: Json)
    ensures |Print(j)| >= 1
    ensures var c := Print(j)[0];
            c == '\"' || c == '[' || c == '{' || c == '-' || IsDigit(c) || c == 'n' || c == 't' || c == 'f'
  {
    match j {
      case Int(n) => PrintNatIs(if n < 0 then -n else n);
      case _ =>
    }
  }

  lemma WordRoundTrip(j: Json, rest: string)
    requires j.Null? || j.Bool?
    ensures ParseValue(Print(j) + rest) == Some((j, rest))
  {
    var s := Print(j) + rest;
    match j {
      case Null => assert "null" <= s && s[4..] == rest;
      case Bool(b) =>
        if b { assert "true" <= s && s[4..] == rest; } else { assert "false" <= s && s[5..] == rest; }
    }
  }

  lemma IntRoundTrip(n: int, rest: string)
    requires Ends(rest)
    ensures ParseValue(PrintInt(n) + rest) == Some((Int(n), rest))
  {
    hide PrintNat, ParseNat, DigitsValue, DigitSpan;
    PrintNatIs(if n < 0 then -n else n);
    NatRoundTrip(if n < 0 then -n else n, rest);
    if n < 0 { assert (PrintInt(n) + rest)[1..] == PrintNat(-n) + rest; }
  }

  lemma TextRoundTrip(text: string, rest: string)
    ensures ParseValue(Quote(text) + rest) == Some((Str(text), rest))
  {
    assert (Quote(text) + rest)[1..] == Escape(text) + "\"" + rest;
    StringRoundTrip(text, rest);
  }

  lemma {:induction false} ArrayRoundTrip(items: seq<Json>, rest: string)
    ensures ParseValue("[" + PrintItems(items) + "]" + rest) == Some((Arr(items), rest))
    decreases items, 1
  {
    hide Print, ParseFields, ParseItems, ParseString;
    var s := "[" + PrintItems(items) + "]" + rest;
    assert s[1..] == PrintItems(items) + "]" + rest;
    if items == [] {
      assert s[1..] == "]" + rest && (s[1..])[1..] == rest;
      NoSpace(s[1..]);
    } else {
      ItemsRoundTrip(items, rest);
      PrintHead(items[0]);
      NoSpace(s[1..]);
    }
  }

  lemma {:induction false} ObjectRoundTrip(fields: seq<Field>, rest: string)
    ensures ParseValue("{" + PrintFields(fields) + "}" + rest) == Some((Obj(fields), rest))
    decreases fields, 1
  {
    hide Print, ParseFields, ParseItems, ParseString, Escape;
    var s := "{" + PrintFields(fields) + "}" + rest;
    assert s[1..] == PrintFields(fields) + "}" + rest;
    if fields == [] {
      assert s[1..] == "}" + rest && (s[1..])[1..] == rest;
      NoSpace(s[1..]);
    } else {
      FieldsRoundTrip(fields, rest);
      NoSpace(s[1..]);
    }
  }

  lemma {:induction false} ValueRoundTrip(j: Json, rest: string)
    requires Ends(rest)
    ensures ParseValue(Print(j) + rest) == Some((j, rest))
    decreases j, 0
  {
    hide ParseValue;
    match j {
      case Int(n) => IntRoundTrip(n, rest);
      case Str(text) => TextRoundTrip(text, rest);
      case Arr(items) => ArrayRoundTrip(items, rest);
      case Obj(fields) => ObjectRoundTrip(fields, rest);
      case _ => WordRoundTrip(j, rest);
    }
  }

  lemma {:induction false} ItemsRoundTrip(items: seq<Json>, rest: string)
    requires items != []
    ensures ParseItems(PrintItems(items) + "]" + rest) == Some((items, rest))
    decreases items, 0
  {
    hide Print, ParseValue;
    var s := PrintItems(items) + "]" + rest;
    if |items| == 1 {
      var tail := "]" + rest;
      assert s == Print(items[0]) + tail;
      ValueRoundTrip(items[0], tail);
      NoSpace(tail);
      assert tail[1..] == rest && items == [items[0]];
    } else {
      var next := PrintItems(items[1..]) + "]" + rest;
      var tail := "," + next;
      assert s == Print(items[0]) + tail;
      ValueRoundTrip(items[0], tail);
      ItemsRoundTrip(items[1..], rest);
      PrintHead(items[1]);
      NoSpace(tail);
      NoSpace(next);
      assert tail[1..] == next && items == [items[0]] + items[1..];
    }
  }

  /** The name, the colon and the value of a field. */
  lemma {:induction false} FieldParsed(f: Field, tail: string)
    requires Ends(tail) && tail != ""
    ensures var s := Quote(f.name) + ":" + Print(f.value) + tail;
            && s != "" && s[0] == '\"' && SkipSpace(tail) == tail
            && var name := ParseString(s[1..]);
               && name.Some? && name.value.0 == f.name
               && var colon := name.value.1;
                  && colon != "" && colon[0] == ':' && SkipSpace(colon) == colon
                  && ParseValue(SkipSpace(colon[1..])) == Some((f.value, tail))
    decreases f.value, 1
  {
    hide Print, ParseValue;
    var value := Print(f.value) + tail;
    var colon := ":" + value;
    var s := Quote(f.name) + ":" + Print(f.value) + tail;
    assert s[1..] == Escape(f.name) + "\"" + colon;
    StringRoundTrip(f.name, colon);
    ValueRoundTrip(f.value, tail);
    PrintHead(f.value);
    NoSpace(value);
    NoSpace(tail);
    NoSpace(colon);
    assert colon[1..] == value;
  }

  lemma {:induction false} FieldsRoundTrip(fields: seq<Field>, rest: string)
    requires fields != []
    ensures ParseFields(PrintFields(fields) + "}" + rest) == Some((fields, rest))
    decreases fields, 0
  {
    hide Print, ParseValue, ParseString, Escape, SkipSpace;
    var s, f := PrintFields(fields) + "}" + rest, fields[0];
    if |fields| == 1 {
      var tail := "}" + rest;
      assert s == Quote(f.name) + ":" + Print(f.value) + tail;
      FieldParsed(f, tail);
      assert tail[1..] == rest && fields == [f];
    } else {
      var next := PrintFields(fields[1..]) + "}" + rest;
      var tail := "," + next;
      assert s == Quote(f.name) + ":" + Print(f.value) + tail;
      FieldParsed(f, tail);
      FieldsRoundTrip(fields[1..], rest);
      assert next[0] == '\"';
      NoSpace(next);
      assert tail[1..] == next && fields == [f] + fields[1..];
    }
  }

  /** Parsing a printed value gives the value back. */
  lemma JsonRoundTrip(j: Json)
    ensures Parse(Print(j)) == Some(j)
  {
    PrintHead(j);
    NoSpace(Print(j));
    ValueRoundTrip(j, "");
    assert Print(j) + "" == Print(j);
  }
}
