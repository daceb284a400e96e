/** Research dataset references: normalised when they are built, identified by a fingerprint of
    the normal form, and rebuilt when they are parsed. */
module ResearchDataset {
  import opened Common
  import opened Ordering
  import opened Text

  /** A value of a decoded document; dictionaries are compared without regard to order. */
  datatype Value =
    | Null | Flag(b: bool) | Number(n: int) | Str(s: string)
    | List(items: seq<Value>) | Object(fields: map<string, Value>)

  type Dict = map<string, Value>

  datatype DatasetError = Invalid(field: string)

  /** The fields that the fingerprint covers. */
  datatype Identity = Identity(
    engineVersion: string, factSchemaVersion: string,
    jurisdictions: seq<string>, resourceKinds: seq<string>,
    query: Dict, asOf: Option<string>, watermark: Option<string>, completeness: string,
    pagination: Option<Dict>, aggregation: Option<Dict>, sampling: Option<Dict>, partition: Option<Dict>)

  datatype Ref =
    Ref(id: string, identity: Identity, rowCount: nat, generatedAt: string, fingerprint: string, digest: string)

  /** Letter case, timestamps and the digest of the canonical JSON text. */
  datatype Tools = Tools(
    upper: string -> string,
    lower: string -> string,
    isInstant: string -> bool,
    fingerprint: Identity -> string)

  /** Upper case is a fixed point and keeps both ends of a text; lower-case hexadecimal has no
      other lower case. */
  ghost predicate Sound(tools: Tools) {
    && (forall s :: Strip(s) == s && s != "" ==> Strip(tools.upper(s)) == tools.upper(s) && tools.upper(s) != "")
    && (forall s :: tools.upper(tools.upper(s)) == tools.upper(s))
    && (forall s :: IsDigest(s) ==> tools.lower(s) == s)
  }

  const PREFIX := "research-dataset_"
  const COMPLETENESS := {"COMPLETE_BOUNDED", "COMPLETE_TO_WATERMARK", "PAGE_STREAM"}

  predicate IsDigest(s: string) {
    |s| == 64 && forall i :: 0 <= i < |s| ==> '0' <= s[i] <= '9' || 'a' <= s[i] <= 'f'
  }

  // ---------- Normalising one field ----------

  function AsText(v: Value, field: string): Result<string, DatasetError> {
    if v.Str? && Strip(v.s) != "" then Ok(Strip(v.s)) else Err(Invalid(field))
  }

  function AsInstant(tools: Tools, v: Value, field: string): Result<string, DatasetError> {
    var text :- AsText(v, field);
    if tools.isInstant(text) then Ok(text) else Err(Invalid(field))
  }

  function AsTexts(items: seq<Value>, field: string): Result<seq<string>, DatasetError> {
    if items == [] then Ok([])
    else
      var first :- AsText(items[0], field);
      var rest :- AsTexts(items[1..], field);
      Ok([first] + rest)
  }

  function Uppered(tools: Tools, s: seq<string>): (r: seq<string>)
    ensures |r| == |s| && forall i :: 0 <= i < |s| ==> r[i] == tools.upper(s[i])
  {
    seq(|s|, i requires 0 <= i < |s| => tools.upper(s[i]))
  }

  predicate Distinct(s: seq<string>) {
    forall i, j :: 0 <= i < j < |s| ==> s[i] != s[j]
  }

  function AsNames(tools: Tools, v: Value, field: string, uppercase: bool): Result<seq<string>, DatasetError> {
    if !v.List? || v.items == [] then Err(Invalid(field))
    else
      var texts :- AsTexts(v.items, field);
      var names := if uppercase then Uppered(tools, texts) else texts;
      if Distinct(names) then Ok(Sort(names)) else Err(Invalid(field))
  }

  function AsDict(v: Value, field: string): Result<Dict, DatasetError> {
    if v.Object? then Ok(v.fields) else Err(Invalid(field))
  }

  function AsOptional(v: Value, field: string): Result<Option<Dict>, DatasetError> {
    if v == Null then Ok(None)
    else var d :- AsDict(v, field); Ok(Some(d))
  }

  function Get(d: Dict, key: string): Value {
    if key in d then d[key] else Null
  }

  function AsSampling(v: Value): Result<Option<Dict>, DatasetError> {
    if v == Null then Ok(None)
    else
      var d :- AsDict(v, "sampling");
      var strategy :- AsText(Get(d, "strategy"), "sampling.strategy");
      if !Get(d, "seed").Number? then Err(Invalid("sampling.seed"))
      else Ok(Some(d["strategy" := Str(strategy)]))
  }

  function AsMoment(tools: Tools, v: Value): Result<Option<string>, DatasetError> {
    if v == Null then Ok(None)
    else var s :- AsInstant(tools, v, "as_of"); Ok(Some(s))
  }

  function AsWatermark(v: Value): Result<Option<string>, DatasetError> {
    if v == Null then Ok(None)
    else var s :- AsText(v, "watermark"); Ok(Some(s))
  }

  // ---------- Building and parsing ----------

  datatype Request = Request(
    engineVersion: Value, factSchemaVersion: Value, jurisdictions: Value, resourceKinds: Value,
    query: Value, completeness: Value, rowCount: Value, generatedAt: Value, digest: Value,
    asOf: Value, watermark: Value, pagination: Value, aggregation: Value, sampling: Value, partition: Value)

  function BuildIdentity(tools: Tools, q: Request): Result<Identity, DatasetError> {
    var engineVersion :- AsText(q.engineVersion, "engine_version");
    var factSchemaVersion :- AsText(q.factSchemaVersion, "fact_schema_version");
    var jurisdictions :- AsNames(tools, q.jurisdictions, "jurisdictions", true);
    var resourceKinds :- AsNames(tools, q.resourceKinds, "resource_kinds", false);
    var query :- AsDict(q.query, "query");
    var asOf :- AsMoment(tools, q.asOf);
    var watermark :- AsWatermark(q.watermark);
    var pagination :- AsOptional(q.pagination, "pagination");
    var aggregation :- AsOptional(q.aggregation, "aggregation");
    var sampling :- AsSampling(q.sampling);
    var partition :- AsOptional(q.partition, "partition");
    if !q.completeness.Str? then Err(Invalid("completeness"))
    else Ok(Identity(engineVersion, factSchemaVersion, jurisdictions, resourceKinds, query, asOf, watermark,
                     q.completeness.s, pagination, aggregation, sampling, partition))
  }

  function AsDigest(tools: Tools, v: Value): Result<string, DatasetError> {
    var text :- AsText(v, "integrity_sha256");
    if IsDigest(tools.lower(text)) then Ok(tools.lower(text)) else Err(Invalid("integrity_sha256"))
  }

  function Build(tools: Tools, q: Request): Result<Ref, DatasetError> {
    if (q.asOf == Null) == (q.watermark == Null) then Err(Invalid("as_of or watermark"))
    else if !q.completeness.Str? || q.completeness.s !in COMPLETENESS then Err(Invalid("completeness"))
    else if !q.rowCount.Number? || q.rowCount.n < 0 then Err(Invalid("row_count"))
    else
      var digest :- AsDigest(tools, q.digest);
      var identity :- BuildIdentity(tools, q);
      var generatedAt :- AsInstant(tools, q.generatedAt, "generated_at");
      var hash := tools.fingerprint(identity);
      Ok(Ref(PREFIX + hash, identity, q.rowCount.n, generatedAt, hash, digest))
  }

  function Names(s: seq<string>): (v: Value) {
    List(seq(|s|, i requires 0 <= i < |s| => Str(s[i])))
  }

  function OrNull(d: Option<Dict>): Value {
    if d.Some? then Object(d.value) else Null
  }

  function TextOrNull(s: Option<string>): Value {
    if s.Some? then Str(s.value) else Null
  }

  function ToDict(r: Ref): Dict {
    map[
      "contract_version" := Number(1),
      "dataset_ref_id" := Str(r.id),
      "engine_version" := Str(r.identity.engineVersion),
      "fact_schema_version" := Str(r.identity.factSchemaVersion),
      "jurisdictions" := Names(r.identity.jurisdictions),
      "resource_kinds" := Names(r.identity.resourceKinds),
      "query" := Object(r.identity.query),
      "as_of" := TextOrNull(r.identity.asOf),
      "watermark" := TextOrNull(r.identity.watermark),
      "completeness" := Str(r.identity.completeness),
      "pagination" := OrNull(r.identity.pagination),
      "aggregation" := OrNull(r.identity.aggregation),
      "sampling" := OrNull(r.identity.sampling),
      "partition" := OrNull(r.identity.partition),
      "row_count" := Number(r.rowCount),
      "generated_at" := Str(r.generatedAt),
      "query_fingerprint_sha256" := Str(r.fingerprint),
      "integrity_sha256" := Str(r.digest)
    ]
  }

  function RequestOf(d: Dict): Request {
    Request(
      Get(d, "engine_version"), Get(d, "fact_schema_version"), Get(d, "jurisdictions"), Get(d, "resource_kinds"),
      Get(d, "query"), Get(d, "completeness"), Get(d, "row_count"), Get(d, "generated_at"), Get(d, "integrity_sha256"),
      Get(d, "as_of"), Get(d, "watermark"), Get(d, "pagination"), Get(d, "aggregation"), Get(d, "sampling"),
      Get(d, "partition"))
  }

  function Parse(tools: Tools, d: Dict): Result<Ref, DatasetError> {
    if Get(d, "contract_version") != Number(1) then Err(Invalid("contract_version"))
    else
      var r :- Build(tools, RequestOf(d));
      if Get(d, "dataset_ref_id") != Str(r.id) then Err(Invalid("dataset_ref_id"))
      else if Get(d, "query_fingerprint_sha256") != Str(r.fingerprint) then Err(Invalid("query_fingerprint_sha256"))
      else Ok(r)
  }

  predicate ReplayMatches(a: Ref, b: Ref) {
    a.fingerprint == b.fingerprint && a.rowCount == b.rowCount && a.digest == b.digest
  }

  // ---------- Sorting ----------

  function Insert(s: seq<string>, e: string): seq<string> {
    if s == [] || Less(e, s[0]) then [e] + s else [s[0]] + Insert(s[1..], e)
  }

  function Sort(s: seq<string>): seq<string> {
    if s == [] then [] else Insert(Sort(s[1..]), s[0])
  }

  ghost predicate Ascending(s: seq<string>) {
    forall i, j :: 0 <= i < j < |s| ==> Less(s[i], s[j])
  }

  lemma {:induction false} InsertKeeps(s: seq<string>, e: string)
    ensures multiset(Insert(s, e)) == multiset(s) + multiset{e} && |Insert(s, e)| == |s| + 1
  {
    if s != [] {
      assert s == [s[0]] + s[1..];
      if !Less(e, s[0]) { InsertKeeps(s[1..], e); }
    }
  }

  lemma {:induction false} InsertAscends(s: seq<string>, e: string)
    requires Ascending(s) && e !in s
    ensures Ascending(Insert(s, e))
  {
    if s != [] {
      if Less(e, s[0]) {
        forall j | 0 < j < |s| ensures Less(e, s[j]) { LessTransitive(e, s[0], s[j]); }
      } else {
        LessTotal(e, s[0]);
        InsertAscends(s[1..], e);
        InsertKeeps(s[1..], e);
        var rest := Insert(s[1..], e);
        forall j | 0 <= j < |rest| ensures Less(s[0], rest[j]) {
          assert rest[j] in multiset(rest);
        }
      }
    }
  }

  lemma {:induction false} SortKeeps(s: seq<string>)
    ensures multiset(Sort(s)) == multiset(s) && |Sort(s)| == |s|
  {
    if s != [] {
      SortKeeps(s[1..]);
      InsertKeeps(Sort(s[1..]), s[0]);
      assert s == [s[0]] + s[1..];
    }
  }

  lemma {:induction false} SortAscends(s: seq<string>)
    requires Distinct(s)
    ensures Ascending(Sort(s))
  {
    if s != [] {
      SortAscends(s[1..]);
      SortKeeps(s[1..]);
      assert s[0] !in multiset(s[1..]);
      InsertAscends(Sort(s[1..]), s[0]);
    }
  }

  lemma LeastIsFirst(a: seq<string>, b: seq<string>)
    requires Ascending(a) && Ascending(b) && multiset(a) == multiset(b) && a != []
    ensures b != [] && a[0] == b[0] && multiset(a[1..]) == multiset(b[1..])
  {
    hide Less;
    assert a[0] in multiset(b);
    var i :| 0 <= i < |b| && b[i] == a[0];
    assert b[0] in multiset(a);
    var j :| 0 <= j < |a| && a[j] == b[0];
    if i > 0 && j > 0 { LessAsymmetric(a[0], b[0]); }
    TailOf(a);
    TailOf(b);
  }

  lemma TailOf(s: seq<string>)
    requires s != []
    ensures multiset(s[1..]) == multiset(s) - multiset{s[0]}
  {
    assert s == [s[0]] + s[1..];
  }

  /** There is only one ascending arrangement. */
  lemma {:induction false} AscendingUnique(a: seq<string>, b: seq<string>)
    requires Ascending(a) && Ascending(b) && multiset(a) == multiset(b)
    ensures a == b
  {
    hide Less;
    if a == [] {
      assert |multiset(a)| == |multiset(b)|;
    } else {
      LeastIsFirst(a, b);
      AscendingUnique(a[1..], b[1..]);
    }
  }

  lemma DistinctByCount(s: seq<string>)
    ensures Distinct(s) <==> forall x :: x in multiset(s) ==> multiset(s)[x] == 1
  {
    if Distinct(s) {
      forall x | x in multiset(s) ensures multiset(s)[x] == 1 { DistinctCounts(s, x); }
    } else {
      var i, j :| 0 <= i < j < |s| && s[i] == s[j];
      assert s == s[..j] + [s[j]] + s[j + 1..];
      assert s[..j][i] == s[i] && s[i] in multiset(s[..j]);
      assert multiset(s)[s[i]] >= 2;
    }
  }

  lemma {:induction false} DistinctCounts(s: seq<string>, x: string)
    requires Distinct(s)
    ensures multiset(s)[x] == if x in s then 1 else 0
  {
    if s != [] {
      DistinctCounts(s[1..], x);
      assert s == [s[0]] + s[1..];
    }
  }

  lemma SortIsInvariant(a: seq<string>, b: seq<string>)
    requires multiset(a) == multiset(b)
    ensures Distinct(a) <==> Distinct(b)
    ensures Distinct(a) ==> Sort(a) == Sort(b)
  {
    DistinctByCount(a);
    DistinctByCount(b);
    if Distinct(a) {
      SortAscends(a);
      SortAscends(b);
      SortKeeps(a);
      SortKeeps(b);
      AscendingUnique(Sort(a), Sort(b));
    }
  }

  // ---------- A list of names is identified by its names, whatever their order and case ----------

  /** The name that an item stands for. */
  function KeyOf(tools: Tools, v: Value, uppercase: bool): Option<string> {
    if !v.Str? || Strip(v.s) == "" then None
    else Some(if uppercase then tools.upper(Strip(v.s)) else Strip(v.s))
  }

  function Keys(tools: Tools, items: seq<Value>, uppercase: bool): seq<Option<string>> {
    if items == [] then [] else [KeyOf(tools, items[0], uppercase)] + Keys(tools, items[1..], uppercase)
  }

  ghost predicate SameNames(tools: Tools, a: Value, b: Value, uppercase: bool) {
    a.List? && b.List? && multiset(Keys(tools, a.items, uppercase)) == multiset(Keys(tools, b.items, uppercase))
  }

  lemma {:induction false} KeysConcat(tools: Tools, a: seq<Value>, b: seq<Value>, uppercase: bool)
    ensures Keys(tools, a + b, uppercase) == Keys(tools, a, uppercase) + Keys(tools, b, uppercase)
  {
    if a == [] {
      assert a + b == b;
    } else {
      assert (a + b)[1..] == a[1..] + b;
      KeysConcat(tools, a[1..], b, uppercase);
    }
  }

  lemma KeysWithout(tools: Tools, front: seq<Value>, v: Value, back: seq<Value>, uppercase: bool)
    ensures multiset(Keys(tools, front + [v] + back, uppercase))
            == multiset(Keys(tools, front + back, uppercase)) + multiset{KeyOf(tools, v, uppercase)}
  {
    hide KeyOf;
    KeysConcat(tools, front, back, uppercase);
    KeysConcat(tools, front + [v], back, uppercase);
    KeysConcat(tools, front, [v], uppercase);
    assert Keys(tools, [v], uppercase) == [KeyOf(tools, v, uppercase)];
  }

  lemma SplitAt<T>(s: seq<T>, x: T) returns (front: seq<T>, back: seq<T>)
    requires x in s
    ensures s == front + [x] + back && multiset(front + back) == multiset(s) - multiset{x}
  {
    var i :| 0 <= i < |s| && s[i] == x;
    front, back := s[..i], s[i + 1..];
    assert s == front + [x] + back;
  }

  /** A permutation of the items has the same names. */
  lemma {:induction false} PermutationHasSameNames(tools: Tools, a: seq<Value>, b: seq<Value>, uppercase: bool)
    requires multiset(a) == multiset(b)
    ensures multiset(Keys(tools, a, uppercase)) == multiset(Keys(tools, b, uppercase))
    decreases |a|
  {
    hide Keys, KeyOf;
    if a == [] {
      assert |multiset(a)| == |multiset(b)|;
    } else {
      assert a[0] in multiset(b);
      var front, back := SplitAt(b, a[0]);
      assert a == [] + [a[0]] + a[1..] && [] + a[1..] == a[1..];
      assert multiset(a[1..]) == multiset(a) - multiset{a[0]};
      PermutationHasSameNames(tools, a[1..], front + back, uppercase);
      KeysWithout(tools, [], a[0], a[1..], uppercase);
      KeysWithout(tools, front, a[0], back, uppercase);
    }
  }

  function Cased(tools: Tools, texts: seq<string>, uppercase: bool): seq<string> {
    if uppercase then Uppered(tools, texts) else texts
  }

  lemma {:induction false} KeysAreTexts(tools: Tools, items: seq<Value>, field: string, uppercase: bool)
    ensures |Keys(tools, items, uppercase)| == |items|
    ensures AsTexts(items, field).Ok? <==> None !in Keys(tools, items, uppercase)
    ensures AsTexts(items, field).Err? ==> AsTexts(items, field).error == Invalid(field)
    ensures AsTexts(items, field).Ok? ==>
              var names := Cased(tools, AsTexts(items, field).value, uppercase);
              |names| == |items| && forall i :: 0 <= i < |names| ==> Keys(tools, items, uppercase)[i] == Some(names[i])
  {
    hide Strip;
    if items != [] { KeysAreTexts(tools, items[1..], field, uppercase); }
  }

  lemma {:induction false} CountsOfKeys(names: seq<string>, keys: seq<Option<string>>)
    requires |names| == |keys| && forall i :: 0 <= i < |names| ==> keys[i] == Some(names[i])
    ensures forall x :: multiset(names)[x] == multiset(keys)[Some(x)]
  {
    if names != [] {
      CountsOfKeys(names[1..], keys[1..]);
      assert names == [names[0]] + names[1..] && keys == [keys[0]] + keys[1..];
    }
  }

  lemma NamesByKeys(tools: Tools, a: Value, b: Value, field: string, uppercase: bool)
    requires SameNames(tools, a, b, uppercase)
    ensures AsNames(tools, a, field, uppercase) == AsNames(tools, b, field, uppercase)
  {
    hide Sort, Distinct, AsTexts, Keys;
    KeysAreTexts(tools, a.items, field, uppercase);
    KeysAreTexts(tools, b.items, field, uppercase);
    assert |multiset(Keys(tools, a.items, uppercase))| == |a.items|;
    assert |multiset(Keys(tools, b.items, uppercase))| == |b.items|;
    assert None in multiset(Keys(tools, a.items, uppercase)) <==> None in multiset(Keys(tools, b.items, uppercase));
    if AsTexts(a.items, field).Ok? {
      var left := Cased(tools, AsTexts(a.items, field).value, uppercase);
      var right := Cased(tools, AsTexts(b.items, field).value, uppercase);
      CountsOfKeys(left, Keys(tools, a.items, uppercase));
      CountsOfKeys(right, Keys(tools, b.items, uppercase));
      assert multiset(left) == multiset(right);
      SortIsInvariant(left, right);
    }
  }

  /** Permuting the jurisdictions or resource kinds, or changing the letter case of a
      jurisdiction, changes neither the reference nor the verdict. */
  lemma OrderAndCaseDoNotMatter(tools: Tools, a: Request, b: Request)
    requires b == a.(jurisdictions := b.jurisdictions, resourceKinds := b.resourceKinds)
    requires SameNames(tools, a.jurisdictions, b.jurisdictions, true)
    requires SameNames(tools, a.resourceKinds, b.resourceKinds, false)
    ensures Build(tools, a) == Build(tools, b)
  {
    hide AsNames, SameNames, AsText, AsInstant, AsDigest, AsSampling;
    hide AsMoment, AsWatermark, AsOptional, AsDict, Strip, IsDigest;
    NamesByKeys(tools, a.jurisdictions, b.jurisdictions, "jurisdictions", true);
    NamesByKeys(tools, a.resourceKinds, b.resourceKinds, "resource_kinds", false);
  }

  // ---------- Normalising again changes nothing ----------

  lemma TextAgain(v: Value, field: string)
    requires AsText(v, field).Ok?
    ensures AsText(Str(AsText(v, field).value), field) == AsText(v, field)
  {
    StripIdempotent(v.s);
  }

  lemma DigestAgain(tools: Tools, v: Value)
    requires Sound(tools) && AsDigest(tools, v).Ok?
    ensures AsDigest(tools, Str(AsDigest(tools, v).value)) == AsDigest(tools, v)
  {
    var digest := AsDigest(tools, v).value;
    assert IsDigest(digest) && tools.lower(digest) == digest;
    assert Strip(digest) == digest;
  }

  lemma {:induction false} TextsOfNames(s: seq<string>, field: string)
    requires forall x :: x in s ==> Strip(x) == x && x != ""
    ensures AsTexts(Names(s).items, field) == Ok(s)
  {
    if s != [] {
      forall x | x in s[1..] ensures Strip(x) == x && x != "" { assert x in s; }
      TextsOfNames(s[1..], field);
      assert Names(s).items[1..] == Names(s[1..]).items;
      assert s[0] in s && AsText(Names(s).items[0], field) == Ok(s[0]);
      assert s == [s[0]] + s[1..];
    }
  }

  lemma {:induction false} TextsAreStripped(items: seq<Value>, field: string)
    requires AsTexts(items, field).Ok?
    ensures |AsTexts(items, field).value| == |items|
    ensures forall x :: x in AsTexts(items, field).value ==> Strip(x) == x && x != ""
  {
    if items != [] {
      TextsAreStripped(items[1..], field);
      StripIdempotent(items[0].s);
    }
  }

  lemma AscendingIsDistinct(s: seq<string>)
    requires Ascending(s)
    ensures Distinct(s)
  {
    forall i, j | 0 <= i < j < |s| ensures s[i] != s[j] { LessIrreflexive(s[i]); }
  }

  /** What a normalised list of names is. */
  lemma NamesAreNormal(tools: Tools, v: Value, field: string, uppercase: bool)
    requires Sound(tools) && AsNames(tools, v, field, uppercase).Ok?
    ensures var names := AsNames(tools, v, field, uppercase).value;
            && names != [] && Ascending(names)
            && (forall x :: x in names ==> Strip(x) == x && x != "" && (uppercase ==> tools.upper(x) == x))
  {
    hide Sort, Distinct, AsTexts, Ascending, Strip;
    var texts := AsTexts(v.items, field).value;
    TextsAreStripped(v.items, field);
    var names := Cased(tools, texts, uppercase);
    SortAscends(names);
    SortKeeps(names);
    forall x | x in Sort(names) ensures Strip(x) == x && x != "" && (uppercase ==> tools.upper(x) == x) {
      assert x in multiset(names);
      var i :| 0 <= i < |names| && names[i] == x;
      assert texts[i] in texts;
    }
  }

  lemma NamesAgain(tools: Tools, v: Value, field: string, uppercase: bool)
    requires Sound(tools) && AsNames(tools, v, field, uppercase).Ok?
    ensures AsNames(tools, Names(AsNames(tools, v, field, uppercase).value), field, uppercase)
            == AsNames(tools, v, field, uppercase)
  {
    var names := AsNames(tools, v, field, uppercase).value;
    NamesAreNormal(tools, v, field, uppercase);
    hide Sort, Distinct, AsTexts, Ascending, Strip;
    TextsOfNames(names, field);
    assert Cased(tools, names, uppercase) == names;
    AscendingIsDistinct(names);
    SortAscends(names);
    SortKeeps(names);
    AscendingUnique(Sort(names), names);
  }

  lemma SamplingAgain(v: Value)
    requires AsSampling(v).Ok?
    ensures AsSampling(OrNull(AsSampling(v).value)) == AsSampling(v)
  {
    if v != Null {
      TextAgain(Get(v.fields, "strategy"), "sampling.strategy");
      var d := AsSampling(v).value.value;
      assert d["strategy" := d["strategy"]] == d;
    }
  }

  /** The request that the fields of a reference make up. */
  function Rebuilt(r: Ref): Request {
    var i := r.identity;
    Request(
      Str(i.engineVersion), Str(i.factSchemaVersion), Names(i.jurisdictions), Names(i.resourceKinds),
      Object(i.query), Str(i.completeness), Number(r.rowCount), Str(r.generatedAt), Str(r.digest),
      TextOrNull(i.asOf), TextOrNull(i.watermark), OrNull(i.pagination), OrNull(i.aggregation), OrNull(i.sampling),
      OrNull(i.partition))
  }

  lemma DictHoldsIds(r: Ref)
    ensures Get(ToDict(r), "contract_version") == Number(1)
    ensures Get(ToDict(r), "dataset_ref_id") == Str(r.id)
    ensures Get(ToDict(r), "query_fingerprint_sha256") == Str(r.fingerprint)
  {
    hide Names;
  }

  lemma DictHoldsScope(r: Ref)
    ensures var q, built := RequestOf(ToDict(r)), Rebuilt(r);
            && q.engineVersion == built.engineVersion && q.factSchemaVersion == built.factSchemaVersion
            && q.jurisdictions == built.jurisdictions && q.resourceKinds == built.resourceKinds
            && q.query == built.query && q.completeness == built.completeness
            && q.asOf == built.asOf && q.watermark == built.watermark
  {
    hide Names, OrNull, TextOrNull;
  }

  lemma DictHoldsResult(r: Ref)
    ensures var q, built := RequestOf(ToDict(r)), Rebuilt(r);
            && q.rowCount == built.rowCount && q.generatedAt == built.generatedAt && q.digest == built.digest
            && q.pagination == built.pagination && q.aggregation == built.aggregation
            && q.sampling == built.sampling && q.partition == built.partition
  {
    hide Names, OrNull, TextOrNull;
  }

  lemma MomentsAgain(tools: Tools, q: Request)
    requires AsMoment(tools, q.asOf).Ok? && AsWatermark(q.watermark).Ok?
    ensures AsMoment(tools, TextOrNull(AsMoment(tools, q.asOf).value)) == AsMoment(tools, q.asOf)
    ensures AsWatermark(TextOrNull(AsWatermark(q.watermark).value)) == AsWatermark(q.watermark)
    ensures AsMoment(tools, q.asOf).value == None <==> q.asOf == Null
    ensures AsWatermark(q.watermark).value == None <==> q.watermark == Null
  {
    if q.asOf != Null { TextAgain(q.asOf, "as_of"); }
    if q.watermark != Null { TextAgain(q.watermark, "watermark"); }
  }

  lemma IdentityAgain(tools: Tools, q: Request, r: Ref)
    requires Sound(tools) && BuildIdentity(tools, q) == Ok(r.identity)
    ensures BuildIdentity(tools, Rebuilt(r)) == Ok(r.identity)
  {
    hide Sound, AsText, AsNames, AsMoment, AsWatermark, AsSampling;
    TextAgain(q.engineVersion, "engine_version");
    TextAgain(q.factSchemaVersion, "fact_schema_version");
    NamesAgain(tools, q.jurisdictions, "jurisdictions", true);
    NamesAgain(tools, q.resourceKinds, "resource_kinds", false);
    MomentsAgain(tools, q);
    SamplingAgain(q.sampling);
  }

  lemma BuildAgain(tools: Tools, q: Request)
    requires Sound(tools) && Build(tools, q).Ok?
    ensures Build(tools, Rebuilt(Build(tools, q).value)) == Build(tools, q)
  {
    hide Sound, BuildIdentity, AsDigest;
    var r := Build(tools, q).value;
    IdentityAgain(tools, q, r);
    DigestAgain(tools, q.digest);
    TextAgain(q.generatedAt, "generated_at");
    ClocksKept(tools, q, r);
  }

  lemma ClocksKept(tools: Tools, q: Request, r: Ref)
    requires BuildIdentity(tools, q) == Ok(r.identity)
    ensures TextOrNull(r.identity.asOf) == Null <==> q.asOf == Null
    ensures TextOrNull(r.identity.watermark) == Null <==> q.watermark == Null
    ensures q.completeness == Str(r.identity.completeness)
  {
    hide AsText, AsNames, AsSampling;
    MomentsAgain(tools, q);
  }

  /** Parsing the dictionary of any built reference gives that reference back. */
  lemma DatasetRoundTrip(tools: Tools, q: Request)
    requires Sound(tools) && Build(tools, q).Ok?
    ensures Parse(tools, ToDict(Build(tools, q).value)) == Build(tools, q)
  {
    hide ToDict, RequestOf, Rebuilt, Sound, BuildIdentity, Build;
    var r := Build(tools, q).value;
    DictHoldsIds(r);
    DictHoldsScope(r);
    DictHoldsResult(r);
    assert RequestOf(ToDict(r)) == Rebuilt(r);
    BuildAgain(tools, q);
  }

  // ---------- What an identifier identifies ----------

  ghost predicate CollisionFree(tools: Tools) {
    forall a, b :: tools.fingerprint(a) == tools.fingerprint(b) ==> a == b
  }

  /** Two accepted documents with the same identifier have the same normal form, so a document
      that was changed under its old identifier is refused. */
  lemma IdentifierBindsIdentity(tools: Tools, a: Dict, b: Dict)
    requires CollisionFree(tools) && Parse(tools, a).Ok? && Parse(tools, b).Ok?
    ensures Get(a, "dataset_ref_id") == Get(b, "dataset_ref_id")
            <==> Parse(tools, a).value.identity == Parse(tools, b).value.identity
    ensures Get(a, "dataset_ref_id") == Get(b, "dataset_ref_id")
            <==> Get(a, "query_fingerprint_sha256") == Get(b, "query_fingerprint_sha256")
  {
    hide RequestOf, BuildIdentity, AsDigest;
    var left, right := Parse(tools, a).value, Parse(tools, b).value;
    assert left.id == PREFIX + left.fingerprint && right.id == PREFIX + right.fingerprint;
    assert left.id[|PREFIX|..] == left.fingerprint && right.id[|PREFIX|..] == right.fingerprint;
  }

  /** A replay matches exactly when scope, row count and digest of the result agree. */
  lemma ReplayMatchesIff(tools: Tools, a: Request, b: Request)
    requires CollisionFree(tools) && Build(tools, a).Ok? && Build(tools, b).Ok?
    ensures var left, right := Build(tools, a).value, Build(tools, b).value;
            ReplayMatches(left, right) <==>
              BuildIdentity(tools, a) == BuildIdentity(tools, b) && a.rowCount == b.rowCount
              && AsDigest(tools, a.digest) == AsDigest(tools, b.digest)
  {
    hide BuildIdentity, AsDigest;
  }

  // ---------- What is accepted, and where every field comes from ----------

  predicate IsText(v: Value) { v.Str? && Strip(v.s) != "" }

  predicate IsMapping(v: Value) { v == Null || v.Object? }

  predicate IsTime(tools: Tools, v: Value) { IsText(v) && tools.isInstant(Strip(v.s)) }

  predicate IsSampling(v: Value) {
    v == Null
    || (v.Object? && "strategy" in v.fields && IsText(v.fields["strategy"])
        && "seed" in v.fields && v.fields["seed"].Number?)
  }

  /** A list of texts that are different after stripping, and after upper-casing where asked. */
  predicate IsNameList(tools: Tools, v: Value, uppercase: bool) {
    && v.List? && v.items != []
    && (forall i :: 0 <= i < |v.items| ==> IsText(v.items[i]))
    && forall i, j :: 0 <= i < j < |v.items| && IsText(v.items[i]) && IsText(v.items[j]) ==>
         NameOf(tools, v.items[i], uppercase) != NameOf(tools, v.items[j], uppercase)
  }

  function NameOf(tools: Tools, v: Value, uppercase: bool): string
    requires v.Str?
  {
    if uppercase then tools.upper(Strip(v.s)) else Strip(v.s)
  }

  predicate Accepts(tools: Tools, q: Request) {
    && ((q.asOf == Null && IsText(q.watermark)) || (q.watermark == Null && IsTime(tools, q.asOf)))
    && q.completeness.Str?
    && (q.completeness.s == "COMPLETE_BOUNDED" || q.completeness.s == "COMPLETE_TO_WATERMARK"
        || q.completeness.s == "PAGE_STREAM")
    && q.rowCount.Number? && q.rowCount.n >= 0
    && IsText(q.digest) && IsDigest(tools.lower(Strip(q.digest.s)))
    && IsText(q.engineVersion) && IsText(q.factSchemaVersion) && IsTime(tools, q.generatedAt)
    && IsNameList(tools, q.jurisdictions, true) && IsNameList(tools, q.resourceKinds, false)
    && q.query.Object? && IsMapping(q.pagination) && IsMapping(q.aggregation) && IsMapping(q.partition)
    && IsSampling(q.sampling)
  }

  lemma {:induction false} TextsAre(items: seq<Value>, field: string)
    ensures AsTexts(items, field).Ok? <==> forall i :: 0 <= i < |items| ==> IsText(items[i])
    ensures AsTexts(items, field).Ok? ==>
              |AsTexts(items, field).value| == |items|
              && forall i :: 0 <= i < |items| ==> items[i].Str? && AsTexts(items, field).value[i] == Strip(items[i].s)
  {
    hide Strip;
    if items != [] { TextsAre(items[1..], field); }
  }

  lemma NamesAre(tools: Tools, v: Value, field: string, uppercase: bool)
    ensures AsNames(tools, v, field, uppercase).Ok? <==> IsNameList(tools, v, uppercase)
    ensures AsNames(tools, v, field, uppercase).Ok? ==>
              var names := AsNames(tools, v, field, uppercase).value;
              && |names| == |v.items| && Ascending(names)
              && forall i :: 0 <= i < |v.items| ==> v.items[i].Str? && NameOf(tools, v.items[i], uppercase) in names
  {
    hide Strip, AsTexts, Sort, Ascending;
    if v.List? && v.items != [] {
      TextsAre(v.items, field);
      if AsTexts(v.items, field).Ok? {
        var names := Cased(tools, AsTexts(v.items, field).value, uppercase);
        assert forall i :: 0 <= i < |v.items| ==> names[i] == NameOf(tools, v.items[i], uppercase);
        if Distinct(names) {
          SortAscends(names);
          SortKeeps(names);
          forall i | 0 <= i < |names| ensures names[i] in Sort(names) {
            assert names[i] in multiset(names) && multiset(names) == multiset(Sort(names));
          }
        }
      }
    }
  }

  lemma SamplingIs(v: Value)
    ensures AsSampling(v).Ok? <==> IsSampling(v)
    ensures AsSampling(v).Ok? ==>
              if v == Null then AsSampling(v).value == None
              else v.Object? && "strategy" in v.fields && v.fields["strategy"].Str?
                   && AsSampling(v).value == Some(v.fields["strategy" := Str(Strip(v.fields["strategy"].s))])
  {
    hide Strip;
  }

  /** A reference is built exactly from acceptable requests. */
  lemma BuiltIff(tools: Tools, q: Request)
    ensures Build(tools, q).Ok? <==> Accepts(tools, q)
  {
    hide Strip, IsDigest, AsNames, AsSampling, IsNameList, IsSampling;
    NamesAre(tools, q.jurisdictions, "jurisdictions", true);
    NamesAre(tools, q.resourceKinds, "resource_kinds", false);
    SamplingIs(q.sampling);
  }

  /** And every field of it comes from the field of the same name. */
  lemma BuiltFields(tools: Tools, q: Request)
    requires Build(tools, q).Ok?
    ensures Accepts(tools, q)
    ensures var r, i := Build(tools, q).value, Build(tools, q).value.identity;
            && i.engineVersion == Strip(q.engineVersion.s) && i.factSchemaVersion == Strip(q.factSchemaVersion.s)
            && i.query == q.query.fields && i.completeness == q.completeness.s
            && i.asOf == (if q.asOf == Null then None else Some(Strip(q.asOf.s)))
            && i.watermark == (if q.watermark == Null then None else Some(Strip(q.watermark.s)))
            && i.pagination == (if q.pagination == Null then None else Some(q.pagination.fields))
            && i.aggregation == (if q.aggregation == Null then None else Some(q.aggregation.fields))
            && i.partition == (if q.partition == Null then None else Some(q.partition.fields))
            && r.rowCount == q.rowCount.n && r.generatedAt == Strip(q.generatedAt.s)
            && r.digest == tools.lower(Strip(q.digest.s))
            && r.fingerprint == tools.fingerprint(i) && r.id == "research-dataset_" + tools.fingerprint(i)
    ensures var i := Build(tools, q).value.identity;
            if q.sampling == Null then i.sampling == None
            else i.sampling == Some(q.sampling.fields["strategy" := Str(Strip(q.sampling.fields["strategy"].s))])
    ensures var i := Build(tools, q).value.identity;
            && |i.jurisdictions| == |q.jurisdictions.items| && Ascending(i.jurisdictions)
            && (forall k :: 0 <= k < |q.jurisdictions.items| ==>
                  tools.upper(Strip(q.jurisdictions.items[k].s)) in i.jurisdictions)
            && |i.resourceKinds| == |q.resourceKinds.items| && Ascending(i.resourceKinds)
            && forall k :: 0 <= k < |q.resourceKinds.items| ==> Strip(q.resourceKinds.items[k].s) in i.resourceKinds
  {
    BuiltIff(tools, q);
    NamesAre(tools, q.jurisdictions, "jurisdictions", true);
    NamesAre(tools, q.resourceKinds, "resource_kinds", false);
    SamplingIs(q.sampling);
    hide Strip, IsDigest, AsNames, AsSampling, Ascending;
  }

  /** A document is parsed exactly when it has the version, the fields of a reference that can be
      built, and that reference's own identifier and fingerprint. */
  lemma ParsedIff(tools: Tools, d: Dict, r: Ref)
    ensures Parse(tools, d) == Ok(r) <==>
              && Build(tools, RequestOf(d)) == Ok(r)
              && "contract_version" in d && d["contract_version"] == Number(1)
              && "dataset_ref_id" in d && d["dataset_ref_id"] == Str(r.id)
              && "query_fingerprint_sha256" in d && d["query_fingerprint_sha256"] == Str(r.fingerprint)
  {
    hide Build, RequestOf;
  }
}
