/** The opaque continuation cursor: a checksummed JSON envelope in unpadded URL-safe base64. */
module CursorCodec {
  import opened Common
  import opened Text
  import opened Base64
  import opened Utf8
  import opened Json

  const CURSOR_VERSION := "DATA_ENGINE_DISCOVERY_CURSOR_V1"
  const MAX_CURSOR_JSON_BYTES := 4096
  const MAX_CURSOR_TOKEN_LENGTH := 8192

  datatype Limits = Limits(pageSize: int, maxPages: int, maxResults: int)

  datatype Payload =
    Payload(queryHash: string, snapshotId: string, position: seq<Json>, nextPage: int, emittedCount: int)

  datatype CursorError =
    | BadQueryHash | BadText | PageOutOfBounds | CountOutOfBounds | BadPosition | TooLarge
    | BadToken | NotBase64 | NotJson | BadEnvelope | BadPayload | ChecksumMismatch | BadVersion
    | QueryMismatch | SnapshotMismatch | NotComparable

  /** The lower-case hexadecimal SHA-256 digest, of which only its form is used. */
  type Sha = seq<Byte> -> string

  predicate LowerHex(s: string) {
    forall i :: 0 <= i < |s| ==> '0' <= s[i] <= '9' || 'a' <= s[i] <= 'f'
  }

  predicate IsDigest(s: string) { |s| == 64 && LowerHex(s) }

  predicate IsQueryHash(s: string) { "sha256:" <= s && IsDigest(s[7..]) }

  /** `hmac.compare_digest` accepts texts of ASCII characters only. */
  predicate IsAscii(s: string) {
    forall i :: 0 <= i < |s| ==> s[i] as int < 0x80
  }

  predicate IsText(s: string) { s != "" && |s| <= 512 }

  predicate IsScalar(j: Json) { j.Null? || j.Bool? || j.Int? || j.Str? }

  predicate IsPosition(position: seq<Json>) {
    position != [] && forall i :: 0 <= i < |position| ==> IsScalar(position[i])
  }

  // ---------- The envelope, with the names of every object in ascending order ----------

  function PayloadFields(p: Payload): seq<Field> {
    [ Field("cursor_version", Str(CURSOR_VERSION)),
      Field("emitted_count", Int(p.emittedCount)),
      Field("next_page", Int(p.nextPage)),
      Field("position", Arr(p.position)),
      Field("query_hash", Str(p.queryHash)),
      Field("snapshot_id", Str(p.snapshotId)) ]
  }

  function Checksum(sha: Sha, fields: seq<Field>): string {
    sha(Utf8Encode(Print(Obj(fields))))
  }

  function Envelope(sha: Sha, p: Payload): Json {
    Obj([Field("checksum", Str(Checksum(sha, PayloadFields(p)))), Field("payload", Obj(PayloadFields(p)))])
  }

  function RawEnvelope(sha: Sha, p: Payload): seq<Byte> {
    Utf8Encode(Print(Envelope(sha, p)))
  }

  function InBounds(nextPage: int, emittedCount: int, limits: Limits): Option<CursorError> {
    if nextPage < 2 || nextPage > limits.maxPages then Some(PageOutOfBounds)
    else if emittedCount <= 0 || emittedCount >= limits.maxResults then Some(CountOutOfBounds)
    else None
  }

  function EncodeCursor(sha: Sha, queryHash: string, snapshotId: string, position: seq<Json>,
                        nextPage: int, emittedCount: int, limits: Limits): Result<string, CursorError>
  {
    if !IsQueryHash(Strip(queryHash)) then Err(BadQueryHash)
    else if !IsText(Strip(snapshotId)) then Err(BadText)
    else
      match InBounds(nextPage, emittedCount, limits)
      case Some(e) => Err(e)
      case None =>
        if !IsPosition(position) then Err(BadPosition)
        else
          var raw := RawEnvelope(sha, Payload(Strip(queryHash), Strip(snapshotId), position, nextPage, emittedCount));
          if |raw| > MAX_CURSOR_JSON_BYTES then Err(TooLarge) else Ok(Base64.Encode(raw))
  }

  // ---------- Decoding ----------

  /** A repeated name keeps its last value. */
  function Lookup(fields: seq<Field>, name: string): Option<Json> {
    if fields == [] then None
    else if fields[|fields| - 1].name == name then Some(fields[|fields| - 1].value)
    else Lookup(fields[..|fields| - 1], name)
  }

  function Names(fields: seq<Field>): set<string> {
    set i | 0 <= i < |fields| :: fields[i].name
  }

  const PAYLOAD_NAMES := {"cursor_version", "emitted_count", "next_page", "position", "query_hash", "snapshot_id"}

  /** The fields of the checked payload dictionary in canonical order. */
  function Canonical(fields: seq<Field>): Option<seq<Field>> {
    match (Lookup(fields, "cursor_version"), Lookup(fields, "emitted_count"), Lookup(fields, "next_page"),
           Lookup(fields, "position"), Lookup(fields, "query_hash"), Lookup(fields, "snapshot_id"))
    case (Some(v), Some(e), Some(n), Some(p), Some(q), Some(s)) =>
      Some([Field("cursor_version", v), Field("emitted_count", e), Field("next_page", n),
            Field("position", p), Field("query_hash", q), Field("snapshot_id", s)])
    case _ => None
  }

  /** The token up to and including the checksum comparison. */
  function OpenEnvelope(sha: Sha, token: string): Result<seq<Field>, CursorError> {
    if token == "" || |token| > MAX_CURSOR_TOKEN_LENGTH || exists i :: 0 <= i < |token| && token[i] as int >= 0x80
    then Err(BadToken)
    else
      match Base64.Decode(token)
      case None => Err(NotBase64)
      case Some(raw) =>
        if |raw| > MAX_CURSOR_JSON_BYTES then Err(TooLarge)
        else
          match Utf8Decode(raw)
          case None => Err(NotJson)
          case Some(text) =>
            match Parse(text)
            case Some(Obj(fields)) => OpenFields(sha, fields)
            case Some(_) => Err(BadEnvelope)
            case None => Err(NotJson)
  }

  function OpenFields(sha: Sha, fields: seq<Field>): Result<seq<Field>, CursorError> {
    if Names(fields) != {"checksum", "payload"} then Err(BadEnvelope)
    else
      match (Lookup(fields, "payload"), Lookup(fields, "checksum"))
      case (Some(Obj(payload)), Some(Str(checksum))) =>
        if Names(payload) != PAYLOAD_NAMES then Err(BadPayload)
        else if !IsDigest(checksum) then Err(BadEnvelope)
        else
          (match Canonical(payload)
           case Some(canonical) => if checksum == Checksum(sha, canonical) then Ok(canonical) else Err(ChecksumMismatch)
           case None => Err(BadPayload))
      case _ => Err(BadEnvelope)
  }

  /** The checks on the six values, in the order of `Canonical`. */
  function CheckPayload(fields: seq<Field>, expectedHash: string, expectedSnapshot: string, limits: Limits)
    : Result<Payload, CursorError>
    requires |fields| == 6
  {
    var version, emitted, page := fields[0].value, fields[1].value, fields[2].value;
    var position, hash, snapshot := fields[3].value, fields[4].value, fields[5].value;
    if version != Str(CURSOR_VERSION) then Err(BadVersion)
    else if !hash.Str? || !IsQueryHash(Strip(hash.s)) || !IsQueryHash(Strip(expectedHash)) then Err(BadQueryHash)
    else if Strip(hash.s) != Strip(expectedHash) then Err(QueryMismatch)
    else if !snapshot.Str? || !IsText(Strip(snapshot.s)) || !IsText(Strip(expectedSnapshot)) then Err(BadText)
    else if !IsAscii(Strip(snapshot.s)) || !IsAscii(Strip(expectedSnapshot)) then Err(NotComparable)
    else if Strip(snapshot.s) != Strip(expectedSnapshot) then Err(SnapshotMismatch)
    else if !position.Arr? || !IsPosition(position.items) then Err(BadPosition)
    else if !page.Int? || !emitted.Int? then Err(BadPayload)
    else
      match InBounds(page.n, emitted.n, limits)
      case Some(e) => Err(e)
      case None => Ok(Payload(Strip(hash.s), Strip(snapshot.s), position.items, page.n, emitted.n))
  }

  function DecodeCursor(sha: Sha, token: string, expectedHash: string, expectedSnapshot: string, limits: Limits)
    : Result<Payload, CursorError>
  {
    match OpenEnvelope(sha, token)
    case Err(e) => Err(e)
    case Ok(fields) =>
      if |fields| != 6 then Err(BadPayload) else CheckPayload(fields, expectedHash, expectedSnapshot, limits)
  }

  // ---------- Round trip ----------

  predicate DistinctNames(fields: seq<Field>) {
    forall i, j :: 0 <= i < j < |fields| ==> fields[i].name != fields[j].name
  }

  lemma {:induction false} LookupAt(fields: seq<Field>, i: nat)
    requires DistinctNames(fields) && i < |fields|
    ensures Lookup(fields, fields[i].name) == Some(fields[i].value)
  {
    if i < |fields| - 1 {
      LookupAt(fields[..|fields| - 1], i);
    }
  }

  lemma PayloadNames(p: Payload)
    ensures DistinctNames(PayloadFields(p)) && Names(PayloadFields(p)) == PAYLOAD_NAMES
  {
    var f := PayloadFields(p);
    assert f[0].name[0] == 'c' && f[1].name[0] == 'e' && f[2].name[0] == 'n' && f[3].name[0] == 'p'
           && f[4].name[0] == 'q' && f[5].name[0] == 's';
    assert f[0].name in Names(f) && f[1].name in Names(f) && f[2].name in Names(f) && f[3].name in Names(f)
           && f[4].name in Names(f) && f[5].name in Names(f);
  }

  lemma PayloadCanonical(p: Payload)
    ensures Canonical(PayloadFields(p)) == Some(PayloadFields(p))
  {
    var f := PayloadFields(p);
    PayloadNames(p);
    LookupAt(f, 0);
    LookupAt(f, 1);
    LookupAt(f, 2);
    LookupAt(f, 3);
    LookupAt(f, 4);
    LookupAt(f, 5);
  }

  /** Both objects are written with their names in ascending order. */
  lemma KeysAreSorted(sha: Sha, p: Payload)
    ensures KeysSorted(PayloadFields(p)) && KeysSorted(Envelope(sha, p).fields)
  {
    var f, e := PayloadFields(p), Envelope(sha, p).fields;
    assert f[0].name[0] < f[1].name[0] < f[2].name[0] < f[3].name[0] < f[4].name[0] < f[5].name[0];
    assert e[0].name[0] < e[1].name[0];
  }

  lemma EnvelopeFieldsOpen(sha: Sha, p: Payload)
    requires forall b :: IsDigest(sha(b))
    ensures OpenFields(sha, Envelope(sha, p).fields) == Ok(PayloadFields(p))
  {
    var fields := Envelope(sha, p).fields;
    assert fields[0].name[0] == 'c' && fields[1].name[0] == 'p';
    LookupAt(fields, 0);
    LookupAt(fields, 1);
    assert fields[0].name in Names(fields) && fields[1].name in Names(fields);
    assert Names(fields) == {"checksum", "payload"};
    PayloadNames(p);
    PayloadCanonical(p);
  }

  lemma SymbolsAreAscii(token: string)
    requires forall c :: c in token ==> ValueOf(c).Some?
    ensures forall i :: 0 <= i < |token| ==> (token[i] as int) < 0x80
  {
    forall i | 0 <= i < |token| ensures (token[i] as int) < 0x80 {
      assert token[i] in token;
    }
  }

  lemma EnvelopeOpens(sha: Sha, p: Payload)
    requires (forall b :: IsDigest(sha(b))) && |RawEnvelope(sha, p)| <= MAX_CURSOR_JSON_BYTES
    ensures var token := Base64.Encode(RawEnvelope(sha, p));
            0 < |token| <= MAX_CURSOR_TOKEN_LENGTH && OpenEnvelope(sha, token) == Ok(PayloadFields(p))
  {
    hide OpenFields, OpenEnvelope, Print, Utf8Encode, Base64.Encode, Envelope;
    EnvelopeIsObject(sha, p);
    TokenOpens(sha, Envelope(sha, p).fields);
    EnvelopeFieldsOpen(sha, p);
  }

  /** The token of any object: it is opened as that object, if it is not too large. */
  lemma TokenOpens(sha: Sha, fields: seq<Field>)
    ensures var raw := Utf8Encode(Print(Obj(fields)));
            var token := Base64.Encode(raw);
            if |raw| <= MAX_CURSOR_JSON_BYTES
            then 0 < |token| <= MAX_CURSOR_TOKEN_LENGTH && OpenEnvelope(sha, token) == OpenFields(sha, fields)
            else OpenEnvelope(sha, token).Err?
  {
    hide OpenFields, Parse, Print, Utf8Decode, Utf8Encode, Base64.Decode, Base64.Encode;
    var raw := Utf8Encode(Print(Obj(fields)));
    var token := Base64.Encode(raw);
    PrintedNotEmpty(Obj(fields));
    PaddingRestored(raw);
    SymbolsAreAscii(token);
    Base64.RoundTrip(raw);
    Utf8RoundTrip(Print(Obj(fields)));
    JsonRoundTrip(Obj(fields));
  }

  lemma PrintedNotEmpty(j: Json)
    ensures Utf8Encode(Print(j)) != []
  {
    PrintHead(j);
  }

  lemma EnvelopeIsObject(sha: Sha, p: Payload)
    ensures Envelope(sha, p).Obj?
  {
  }

  /** A token the encoder returns passes every check up to the comparison of snapshots; decoding
      gives back its position, page and count exactly when the snapshot id is ASCII, with
      surrounding white space of the identities ignored. For any other snapshot id the encoder
      issues tokens that no decoder call accepts. */
  lemma CursorRoundTrip(sha: Sha, queryHash: string, snapshotId: string, position: seq<Json>, nextPage: int,
                        emittedCount: int, limits: Limits, expectedHash: string, expectedSnapshot: string)
    requires forall b :: IsDigest(sha(b))
    requires EncodeCursor(sha, queryHash, snapshotId, position, nextPage, emittedCount, limits).Ok?
    requires Strip(expectedHash) == Strip(queryHash) && Strip(expectedSnapshot) == Strip(snapshotId)
    ensures var token := EncodeCursor(sha, queryHash, snapshotId, position, nextPage, emittedCount, limits).value;
            var decoded := DecodeCursor(sha, token, expectedHash, expectedSnapshot, limits);
            && 0 < |token| <= MAX_CURSOR_TOKEN_LENGTH
            && (decoded == Ok(Payload(Strip(queryHash), Strip(snapshotId), position, nextPage, emittedCount))
                <==> IsAscii(Strip(snapshotId)))
            && (decoded == Err(NotComparable) <==> !IsAscii(Strip(snapshotId)))
  {
    hide OpenEnvelope, RawEnvelope, Base64.Encode, IsQueryHash, IsText, IsAscii, Strip, IsPosition;
    var p := Payload(Strip(queryHash), Strip(snapshotId), position, nextPage, emittedCount);
    EnvelopeOpens(sha, p);
    StripIdempotent(queryHash);
    StripIdempotent(snapshotId);
  }

  /** The token is refused for any other query or snapshot. */
  lemma CursorBoundToQuery(sha: Sha, queryHash: string, snapshotId: string, position: seq<Json>, nextPage: int,
                           emittedCount: int, limits: Limits, expectedHash: string, expectedSnapshot: string,
                           laterLimits: Limits)
    requires forall b :: IsDigest(sha(b))
    requires EncodeCursor(sha, queryHash, snapshotId, position, nextPage, emittedCount, limits).Ok?
    requires Strip(expectedHash) != Strip(queryHash) || Strip(expectedSnapshot) != Strip(snapshotId)
    ensures var token := EncodeCursor(sha, queryHash, snapshotId, position, nextPage, emittedCount, limits).value;
            DecodeCursor(sha, token, expectedHash, expectedSnapshot, laterLimits).Err?
  {
    hide OpenEnvelope, RawEnvelope, Base64.Encode, IsQueryHash, IsText, IsAscii, Strip, IsPosition;
    EnvelopeOpens(sha, Payload(Strip(queryHash), Strip(snapshotId), position, nextPage, emittedCount));
    StripIdempotent(queryHash);
    StripIdempotent(snapshotId);
  }

  // ---------- Tokens the encoder did not issue ----------

  /** The bytes that the checksum of a payload is taken of. */
  function CanonicalBytes(p: Payload): seq<Byte> {
    Utf8Encode(Print(Obj([
      Field("cursor_version", Str("DATA_ENGINE_DISCOVERY_CURSOR_V1")),
      Field("emitted_count", Int(p.emittedCount)),
      Field("next_page", Int(p.nextPage)),
      Field("position", Arr(p.position)),
      Field("query_hash", Str(p.queryHash)),
      Field("snapshot_id", Str(p.snapshotId))])))
  }

  /** A payload under another payload's checksum is refused, with the mismatch as the reason unless
      the token is too large. */
  lemma ForgedPayloadRefused(sha: Sha, p: Payload, q: Payload, expectedHash: string, expectedSnapshot: string,
                             limits: Limits)
    requires (forall b :: IsDigest(sha(b))) && sha(CanonicalBytes(p)) != sha(CanonicalBytes(q))
    ensures var forged := [Field("checksum", Str(sha(CanonicalBytes(p)))), Field("payload", Obj(PayloadFields(q)))];
            var raw := Utf8Encode(Print(Obj(forged)));
            var decoded := DecodeCursor(sha, Base64.Encode(raw), expectedHash, expectedSnapshot, limits);
            decoded.Err? && (|raw| <= 4096 ==> decoded == Err(ChecksumMismatch))
  {
    hide OpenFields, OpenEnvelope, Print, Utf8Encode, Base64.Encode, CheckPayload;
    var forged := [Field("checksum", Str(sha(CanonicalBytes(p)))), Field("payload", Obj(PayloadFields(q)))];
    TokenOpens(sha, forged);
    ForgedFieldsRefused(sha, sha(CanonicalBytes(p)), q);
  }

  lemma ForgedFieldsRefused(sha: Sha, checksum: string, q: Payload)
    requires IsDigest(checksum) && checksum != sha(CanonicalBytes(q))
    ensures OpenFields(sha, [Field("checksum", Str(checksum)), Field("payload", Obj(PayloadFields(q)))])
            == Err(ChecksumMismatch)
  {
    hide Print, Utf8Encode;
    var fields := [Field("checksum", Str(checksum)), Field("payload", Obj(PayloadFields(q)))];
    assert fields[0].name[0] == 'c' && fields[1].name[0] == 'p';
    LookupAt(fields, 0);
    LookupAt(fields, 1);
    assert fields[0].name in Names(fields) && fields[1].name in Names(fields);
    assert Names(fields) == {"checksum", "payload"};
    PayloadNames(q);
    PayloadCanonical(q);
  }

  /** The JSON object inside a token. */
  ghost predicate Contains(token: string, fields: seq<Field>) {
    exists raw, text ::
      && Base64.Decode(token) == Some(raw) && |raw| <= 4096
      && Utf8Decode(raw) == Some(text) && Parse(text) == Some(Obj(fields))
  }

  /** The token carries this payload, whose checksum it carries too. */
  ghost predicate Authentic(sha: Sha, token: string, p: Payload) {
    exists fields, inner ::
      && Contains(token, fields)
      && (forall f: Field :: f in fields ==> f.name == "checksum" || f.name == "payload")
      && (forall f: Field :: f in inner ==>
            f.name == "cursor_version" || f.name == "emitted_count" || f.name == "next_page" || f.name == "position"
            || f.name == "query_hash" || f.name == "snapshot_id")
      && Lookup(fields, "checksum") == Some(Str(sha(CanonicalBytes(p))))
      && Lookup(fields, "payload") == Some(Obj(inner))
      && Lookup(inner, "cursor_version") == Some(Str("DATA_ENGINE_DISCOVERY_CURSOR_V1"))
      && Lookup(inner, "emitted_count") == Some(Int(p.emittedCount))
      && Lookup(inner, "next_page") == Some(Int(p.nextPage))
      && Lookup(inner, "position") == Some(Arr(p.position))
      && Lookup(inner, "query_hash") == Some(Str(p.queryHash))
      && Lookup(inner, "snapshot_id") == Some(Str(p.snapshotId))
  }

  /** What the decoder promises of every token it accepts, issued or not. */
  lemma AcceptedIsAuthentic(sha: Sha, token: string, expectedHash: string, expectedSnapshot: string, limits: Limits)
    returns (inside: Payload)
    requires DecodeCursor(sha, token, expectedHash, expectedSnapshot, limits).Ok?
    ensures var p := DecodeCursor(sha, token, expectedHash, expectedSnapshot, limits).value;
            && Authentic(sha, token, inside)
            && p == inside.(queryHash := Strip(inside.queryHash), snapshotId := Strip(inside.snapshotId))
            && p.queryHash == Strip(expectedHash) && p.snapshotId == Strip(expectedSnapshot)
            && 2 <= p.nextPage <= limits.maxPages && 0 < p.emittedCount < limits.maxResults
            && p.position != [] && (forall i :: 0 <= i < |p.position| ==> !p.position[i].Arr? && !p.position[i].Obj?)
            && 0 < |token| <= 8192
  {
    hide CheckPayload, OpenFields, OpenEnvelope, Authentic, Contains, CanonicalBytes, Strip;
    var canonical := OpenEnvelope(sha, token).value;
    CheckedPayload(canonical, expectedHash, expectedSnapshot, limits);
    inside := Payload(canonical[4].value.s, canonical[5].value.s, canonical[3].value.items, canonical[2].value.n,
                      canonical[1].value.n);
    var fields := OpenedFields(sha, token);
    OpenedIsAuthentic(sha, token, fields, inside);
  }

  lemma OpenedIsAuthentic(sha: Sha, token: string, fields: seq<Field>, inside: Payload)
    requires Contains(token, fields) && OpenFields(sha, fields).Ok? && |OpenFields(sha, fields).value| == 6
    requires var values := OpenFields(sha, fields).value;
             && values[0].value == Str("DATA_ENGINE_DISCOVERY_CURSOR_V1") && values[1].value == Int(inside.emittedCount)
             && values[2].value == Int(inside.nextPage) && values[3].value == Arr(inside.position)
             && values[4].value == Str(inside.queryHash) && values[5].value == Str(inside.snapshotId)
    ensures Authentic(sha, token, inside)
  {
    hide OpenFields, Contains, Lookup, Print, Utf8Encode, Names;
    var inner := OpenedPayload(sha, fields);
    NamesAre(fields);
    NamesAre(inner);
    var values := OpenFields(sha, fields).value;
    assert values == [values[0], values[1], values[2], values[3], values[4], values[5]];
    assert values == PayloadFields(inside);
  }

  lemma CheckedPayload(fields: seq<Field>, expectedHash: string, expectedSnapshot: string, limits: Limits)
    requires |fields| == 6 && CheckPayload(fields, expectedHash, expectedSnapshot, limits).Ok?
    ensures fields[0].value == Str("DATA_ENGINE_DISCOVERY_CURSOR_V1")
    ensures fields[1].value.Int? && fields[2].value.Int? && fields[3].value.Arr?
    ensures fields[4].value.Str? && fields[5].value.Str?
    ensures var p := CheckPayload(fields, expectedHash, expectedSnapshot, limits).value;
            && p == Payload(Strip(fields[4].value.s), Strip(fields[5].value.s), fields[3].value.items,
                            fields[2].value.n, fields[1].value.n)
            && p.queryHash == Strip(expectedHash) && p.snapshotId == Strip(expectedSnapshot)
            && 2 <= p.nextPage <= limits.maxPages && 0 < p.emittedCount < limits.maxResults
            && p.position != [] && forall i :: 0 <= i < |p.position| ==> !p.position[i].Arr? && !p.position[i].Obj?
  {
    hide Strip, IsQueryHash, IsText, IsAscii;
  }

  lemma OpenedFields(sha: Sha, token: string) returns (fields: seq<Field>)
    requires OpenEnvelope(sha, token).Ok?
    ensures Contains(token, fields) && OpenFields(sha, fields) == OpenEnvelope(sha, token) && 0 < |token| <= 8192
  {
    hide OpenFields, Utf8Decode, Parse, Base64.Decode;
    var raw := Base64.Decode(token).value;
    var text := Utf8Decode(raw).value;
    fields := Parse(text).value.fields;
  }

  lemma OpenedPayload(sha: Sha, fields: seq<Field>) returns (inner: seq<Field>)
    requires OpenFields(sha, fields).Ok?
    ensures Names(fields) == {"checksum", "payload"} && Names(inner) == PAYLOAD_NAMES
    ensures var canonical := OpenFields(sha, fields).value;
            && Lookup(fields, "payload") == Some(Obj(inner))
            && Lookup(fields, "checksum") == Some(Str(sha(Utf8Encode(Print(Obj(canonical))))))
            && |canonical| == 6
            && canonical[0].name == "cursor_version" && Lookup(inner, "cursor_version") == Some(canonical[0].value)
            && canonical[1].name == "emitted_count" && Lookup(inner, "emitted_count") == Some(canonical[1].value)
            && canonical[2].name == "next_page" && Lookup(inner, "next_page") == Some(canonical[2].value)
            && canonical[3].name == "position" && Lookup(inner, "position") == Some(canonical[3].value)
            && canonical[4].name == "query_hash" && Lookup(inner, "query_hash") == Some(canonical[4].value)
            && canonical[5].name == "snapshot_id" && Lookup(inner, "snapshot_id") == Some(canonical[5].value)
  {
    hide Print, Utf8Encode, Lookup, IsDigest, Names;
    inner := Lookup(fields, "payload").value.fields;
  }

  lemma NamesAre(fields: seq<Field>)
    ensures forall f :: f in fields ==> f.name in Names(fields)
  {
    forall f | f in fields ensures f.name in Names(fields) {
      var i :| 0 <= i < |fields| && fields[i] == f;
    }
  }

  lemma CanonicalIsInjective(p: Payload, q: Payload)
    requires CanonicalBytes(p) == CanonicalBytes(q)
    ensures p == q
  {
    hide Print, Utf8Encode, Parse, Utf8Decode;
    var a, b := Obj(PayloadFields(p)), Obj(PayloadFields(q));
    Utf8RoundTrip(Print(a));
    Utf8RoundTrip(Print(b));
    JsonRoundTrip(a);
    JsonRoundTrip(b);
    assert a.fields[1] == b.fields[1] && a.fields[2] == b.fields[2] && a.fields[3] == b.fields[3]
           && a.fields[4] == b.fields[4] && a.fields[5] == b.fields[5];
  }

  /** Without collisions of the digest, a checksum is good for one payload: any token that carries
      the checksum of payload `p` and is accepted gives back `p`, with its identities stripped. */
  lemma ChecksumBindsPayload(sha: Sha, p: Payload, token: string, fields: seq<Field>, expectedHash: string,
                             expectedSnapshot: string, limits: Limits)
    requires forall a, b :: sha(a) == sha(b) ==> a == b
    requires Contains(token, fields) && Lookup(fields, "checksum") == Some(Str(sha(CanonicalBytes(p))))
    requires DecodeCursor(sha, token, expectedHash, expectedSnapshot, limits).Ok?
    ensures DecodeCursor(sha, token, expectedHash, expectedSnapshot, limits).value
            == p.(queryHash := Strip(p.queryHash), snapshotId := Strip(p.snapshotId))
  {
    hide DecodeCursor, CanonicalBytes, Strip, Lookup, Base64.Decode, Utf8Decode, Parse;
    var inside := AcceptedIsAuthentic(sha, token, expectedHash, expectedSnapshot, limits);
    CanonicalIsInjective(p, inside) by { assert sha(CanonicalBytes(p)) == sha(CanonicalBytes(inside)); }
  }

  /** When the encoder issues a token, and which. */
  lemma IssuedIff(sha: Sha, queryHash: string, snapshotId: string, position: seq<Json>, nextPage: int,
                  emittedCount: int, limits: Limits)
    ensures var p := Payload(Strip(queryHash), Strip(snapshotId), position, nextPage, emittedCount);
            var checksum := Field("checksum", Str(sha(CanonicalBytes(p))));
            var raw := Utf8Encode(Print(Obj([checksum, Field("payload", Obj(PayloadFields(p)))])));
            EncodeCursor(sha, queryHash, snapshotId, position, nextPage, emittedCount, limits)
            == (if !IsQueryHash(Strip(queryHash)) then Err(BadQueryHash)
                else if Strip(snapshotId) == "" || |Strip(snapshotId)| > 512 then Err(BadText)
                else if nextPage < 2 || nextPage > limits.maxPages then Err(PageOutOfBounds)
                else if emittedCount < 1 || emittedCount >= limits.maxResults then Err(CountOutOfBounds)
                else if position == [] || exists i :: 0 <= i < |position| && (position[i].Arr? || position[i].Obj?)
                then Err(BadPosition)
                else if |raw| > 4096 then Err(TooLarge) else Ok(Base64.Encode(raw)))
  {
    hide Print, Utf8Encode, Base64.Encode, Strip, IsQueryHash;
  }

  /** The form of a query hash. */
  lemma QueryHashIs(s: string)
    ensures IsQueryHash(s) <==>
              && |s| == 71 && s[..7] == "sha256:"
              && forall i :: 7 <= i < 71 ==> '0' <= s[i] <= '9' || 'a' <= s[i] <= 'f'
  {
    if |s| == 71 && s[..7] == "sha256:" {
      assert "sha256:" <= s;
      assert forall i :: 0 <= i < 64 ==> s[7..][i] == s[i + 7];
    }
    if IsQueryHash(s) {
      forall i | 7 <= i < 71 ensures '0' <= s[i] <= '9' || 'a' <= s[i] <= 'f' {
        assert s[i] == s[7..][i - 7];
      }
    }
  }

  // ---------- How large a cursor can get ----------

  /** An upper bound of the encoded size: an escaped character takes at most six bytes. */
  function MaxBytes(j: Json): nat
    decreases j
  {
    match j
    case Null => 4
    case Bool(_) => 5
    case Int(n) => 4 * |PrintInt(n)|
    case Str(text) => 6 * |text| + 2
    case Arr(items) => 2 + MaxItemBytes(items)
    case Obj(fields) => 2 + MaxFieldBytes(fields)
  }

  function MaxItemBytes(items: seq<Json>): nat
    decreases items
  {
    if items == [] then 0 else MaxBytes(items[0]) + 1 + MaxItemBytes(items[1..])
  }

  function MaxFieldBytes(fields: seq<Field>): nat
    decreases fields
  {
    if fields == [] then 0
    else 6 * |fields[0].name| + 4 + MaxBytes(fields[0].value) + MaxFieldBytes(fields[1..])
  }

  lemma {:induction false} BytesConcat(a: string, b: string)
    ensures Utf8Encode(a + b) == Utf8Encode(a) + Utf8Encode(b)
  {
    if a == [] {
      assert a + b == b;
    } else {
      assert (a + b)[1..] == a[1..] + b;
      BytesConcat(a[1..], b);
    }
  }

  lemma {:induction false} AtMostFour(s: string)
    ensures |Utf8Encode(s)| <= 4 * |s|
  {
    if s != [] { AtMostFour(s[1..]); }
  }

  lemma {:induction false} AsciiBytes(s: string)
    requires IsAscii(s)
    ensures |Utf8Encode(s)| == |s|
  {
    if s != [] { AsciiBytes(s[1..]); }
  }

  lemma EscapedBytes(c: char)
    ensures |Utf8Encode(EscapeChar(c))| <= 6
  {
    if c as int < 0x20 || c == '\"' || c == '\\' {
      AsciiBytes(EscapeChar(c));
    } else {
      AtMostFour(EscapeChar(c));
    }
  }

  lemma {:induction false} QuotedBytes(s: string)
    ensures |Utf8Encode(Escape(s))| <= 6 * |s|
    ensures |Utf8Encode(Quote(s))| <= 6 * |s| + 2
  {
    hide EscapeChar, Utf8Encode;
    if s == "" {
      AtMostFour("");
    } else {
      QuotedBytes(s[1..]);
      EscapedBytes(s[0]);
      BytesConcat(EscapeChar(s[0]), Escape(s[1..]));
    }
    AsciiBytes("\"");
    BytesConcat("\"", Escape(s));
    BytesConcat("\"" + Escape(s), "\"");
  }

  lemma {:induction false} PrintedBytes(j: Json)
    ensures |Utf8Encode(Print(j))| <= MaxBytes(j)
    decreases j
  {
    hide Utf8Encode, EscapeChar;
    match j
    case Null => AsciiBytes("null");
    case Bool(b) => AsciiBytes(if b then "true" else "false");
    case Int(n) => AtMostFour(PrintInt(n));
    case Str(text) => QuotedBytes(text);
    case Arr(items) =>
      PrintedItemBytes(items);
      Enclosed("[", PrintItems(items), "]");
    case Obj(fields) =>
      PrintedFieldBytes(fields);
      Enclosed("{", PrintFields(fields), "}");
  }

  lemma Enclosed(left: string, text: string, right: string)
    requires |left| == |right| == 1 && IsAscii(left) && IsAscii(right)
    ensures |Utf8Encode(left + text + right)| == |Utf8Encode(text)| + 2
  {
    AsciiBytes(left);
    AsciiBytes(right);
    BytesConcat(left, text);
    BytesConcat(left + text, right);
  }

  lemma {:induction false} PrintedItemBytes(items: seq<Json>)
    ensures |Utf8Encode(PrintItems(items))| <= MaxItemBytes(items)
    decreases items
  {
    hide Utf8Encode, EscapeChar;
    if items == [] {
      AtMostFour("");
    } else {
      PrintedBytes(items[0]);
      PrintedItemBytes(items[1..]);
      AsciiBytes(",");
      BytesConcat(Print(items[0]), ",");
      BytesConcat(Print(items[0]) + ",", PrintItems(items[1..]));
    }
  }

  lemma {:induction false} PrintedFieldBytes(fields: seq<Field>)
    ensures |Utf8Encode(PrintFields(fields))| <= MaxFieldBytes(fields)
    decreases fields
  {
    hide Utf8Encode, EscapeChar;
    if fields == [] {
      AtMostFour("");
    } else {
      var name, value := Quote(fields[0].name), Print(fields[0].value);
      QuotedBytes(fields[0].name);
      PrintedBytes(fields[0].value);
      PrintedFieldBytes(fields[1..]);
      AsciiBytes(":");
      AsciiBytes(",");
      BytesConcat(name, ":");
      BytesConcat(name + ":", value);
      BytesConcat(name + ":" + value, ",");
      BytesConcat(name + ":" + value + ",", PrintFields(fields[1..]));
    }
  }

  lemma {:induction false} ShortNumbers(n: nat)
    requires n < 10000
    ensures |PrintInt(n)| <= 4
  {
    assert n / 1000 < 10 ==> |PrintNat(n / 1000)| == 1;
    assert n / 100 / 10 == n / 1000 && |PrintNat(n / 100)| <= 2;
    assert n / 10 / 10 == n / 100 && |PrintNat(n / 10)| <= 3;
  }

  /** A cursor for one short text of a short snapshot id is within the size bound. */
  lemma ShortCursorsFit(sha: Sha, p: Payload, text: string)
    requires forall b :: IsDigest(sha(b))
    requires IsQueryHash(p.queryHash) && p.position == [Str(text)] && |text| + |p.snapshotId| <= 380
    requires 0 <= p.nextPage < 10000 && 0 <= p.emittedCount < 10000
    ensures |RawEnvelope(sha, p)| <= MAX_CURSOR_JSON_BYTES
  {
    hide Print, Utf8Encode, PrintInt, MaxFieldBytes;
    PrintedBytes(Envelope(sha, p));
    ShortNumbers(p.nextPage);
    ShortNumbers(p.emittedCount);
    PayloadBytes(p, text);
    var checksum := Checksum(sha, PayloadFields(p));
    assert IsDigest(checksum);
    var fields := Envelope(sha, p).fields;
    FieldBytes(fields, 0);
    FieldBytes(fields, 1);
    assert fields[0..] == fields;
  }

  lemma PayloadBytes(p: Payload, text: string)
    requires |p.queryHash| == 71 && p.position == [Str(text)]
    requires |PrintInt(p.nextPage)| <= 4 && |PrintInt(p.emittedCount)| <= 4
    ensures MaxFieldBytes(PayloadFields(p)) <= 1200 + 6 * |text| + 6 * |p.snapshotId|
  {
    hide PrintInt, MaxFieldBytes;
    var f := PayloadFields(p);
    assert MaxItemBytes(p.position) == MaxBytes(Str(text)) + 1 by {
      assert p.position[1..] == [];
    }
    FieldBytes(f, 0);
    FieldBytes(f, 1);
    FieldBytes(f, 2);
    FieldBytes(f, 3);
    FieldBytes(f, 4);
    FieldBytes(f, 5);
    assert MaxBytes(f[3].value) == 6 * |text| + 5;
    assert f[0..] == f;
  }

  lemma FieldBytes(fields: seq<Field>, i: nat)
    requires i < |fields|
    ensures MaxFieldBytes(fields[i..])
            == 6 * |fields[i].name| + 4 + MaxBytes(fields[i].value) + MaxFieldBytes(fields[i + 1..])
    ensures MaxFieldBytes(fields[|fields|..]) == 0
  {
    assert fields[i..][1..] == fields[i + 1..];
  }

  /** A snapshot id whose tokens are issued and never accepted. */
  lemma SnapshotOutsideAscii(sha: Sha, queryHash: string, limits: Limits) returns (snapshotId: string, token: string)
    requires (forall b :: IsDigest(sha(b))) && IsQueryHash(queryHash) && Strip(queryHash) == queryHash
    requires limits.maxPages >= 2 && limits.maxResults >= 2
    ensures snapshotId == "\U{5feb}\U{7167}"
    ensures EncodeCursor(sha, queryHash, snapshotId, [Str("a")], 2, 1, limits) == Ok(token)
    ensures DecodeCursor(sha, token, queryHash, snapshotId, limits) == Err(NotComparable)
  {
    hide RawEnvelope, Base64.Encode, DecodeCursor, IsQueryHash;
    snapshotId := "\U{5feb}\U{7167}";
    assert !IsSpace(snapshotId[0]) && !IsSpace(snapshotId[1]);
    assert Strip(snapshotId) == snapshotId;
    assert !IsAscii(snapshotId) by { assert snapshotId[0] as int >= 0x80; }
    assert IsPosition([Str("a")]);
    ShortCursorsFit(sha, Payload(queryHash, snapshotId, [Str("a")], 2, 1), "a");
    token := EncodeCursor(sha, queryHash, snapshotId, [Str("a")], 2, 1, limits).value;
    CursorRoundTrip(sha, queryHash, snapshotId, [Str("a")], 2, 1, limits, queryHash, snapshotId);
  }
}
