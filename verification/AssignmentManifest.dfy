/** The assignment corpus manifest: source specs joined with the release metadata found anywhere
    in a nested JSON document. */
module AssignmentManifest {
  import opened Common
  import opened Ordering
  import opened Text
  import opened Json
  import opened MetadataDocument

  datatype Kind = Snapshot | Daily

  datatype RawSpec = NotAnObject | SpecObject(path: Option<string>, kind: Option<string>)

  datatype Spec = Spec(path: string, name: string, kind: Kind)

  /** Path, file-name, kind and ISO date parsing. */
  datatype Tools = Tools(
    normalizePath: string -> Option<string>,
    basename: string -> string,
    kindOf: string -> Option<Kind>,
    parseDate: string -> Option<string>)

  /** The file name of a file name is itself. */
  ghost predicate Sound(tools: Tools) {
    forall s :: tools.basename(tools.basename(s)) == tools.basename(s)
  }

  const FILE_NAME_KEYS := ["fileName", "filename", "file_name"]
  const DATE_KEYS := ["fileDate", "releaseDate", "file_date", "release_date"]
  const TIMESTAMP_KEYS :=
    ["snapshotAt", "releaseDateTime", "fileDateTime", "snapshot_at", "release_datetime", "file_datetime"]
  const PRODUCT_KEYS := ["productIdentifier", "product_identifier", "productId", "product_id"]
  const ACCEPTED_PRODUCTS := {"trtdxfag", "EIP-5903T-OL"}

  // ---------- The records of a file ----------

  predicate Describes(tools: Tools, row: Record, name: string) {
    var text := FirstText(row, FILE_NAME_KEYS);
    text.Some? && tools.basename(text.value) == tools.basename(name)
  }

  function MatchingRows(tools: Tools, rows: seq<Record>, name: string): seq<Record> {
    if rows == [] then []
    else (if Describes(tools, rows[0], name) then [rows[0]] else []) + MatchingRows(tools, rows[1..], name)
  }

  /** An explicit date field, or else the date of an explicit timestamp. */
  function EffectiveDate(tools: Tools, row: Record): Option<string> {
    match FirstText(row, DATE_KEYS)
    case Some(date) => tools.parseDate(date)
    case None =>
      match FirstText(row, TIMESTAMP_KEYS)
      case Some(timestamp) => tools.parseDate(timestamp)
      case None => None
  }

  /** The date of the only record for the file, if there is exactly one and it is dated. */
  function DateOf(tools: Tools, doc: Json, name: string): Option<string> {
    var matches := MatchingRows(tools, WalkDicts(doc), name);
    if |matches| == 1 then EffectiveDate(tools, matches[0]) else None
  }

  predicate ProductsAccepted(rows: seq<Record>) {
    forall i :: 0 <= i < |rows| ==>
      var product := FirstText(rows[i], PRODUCT_KEYS);
      product.Some? ==> product.value in ACCEPTED_PRODUCTS
  }

  /** The record's first file name is this one. */
  ghost predicate NamesFile(tools: Tools, row: Record, name: string) {
    exists text :: FirstUnder(row, FILE_NAME_KEYS, text) && tools.basename(text) == tools.basename(name)
  }

  /** The path is the only one in the document that leads to a record naming the file. */
  ghost predicate OnlyRecord(tools: Tools, doc: Json, name: string, path: seq<nat>, row: Record) {
    && RecordAt(doc, path, row) && NamesFile(tools, row, name)
    && forall p, r :: RecordAt(doc, p, r) && NamesFile(tools, r, name) ==> p == path
  }

  /** The date in the record's first date field, or without one in its first timestamp field. */
  ghost predicate HasDate(tools: Tools, row: Record, date: string) {
    || (exists text :: FirstUnder(row, DATE_KEYS, text) && tools.parseDate(text) == Some(date))
    || (NoneBefore(row, DATE_KEYS, |DATE_KEYS|)
        && exists text :: FirstUnder(row, TIMESTAMP_KEYS, text) && tools.parseDate(text) == Some(date))
  }

  lemma DescribesIs(tools: Tools, row: Record, name: string)
    ensures Describes(tools, row, name) <==> NamesFile(tools, row, name)
  {
    forall text ensures FirstText(row, FILE_NAME_KEYS) == Some(text) <==> FirstUnder(row, FILE_NAME_KEYS, text) {
      FirstTextIs(row, FILE_NAME_KEYS, text);
    }
    if Describes(tools, row, name) {
      assert FirstUnder(row, FILE_NAME_KEYS, FirstText(row, FILE_NAME_KEYS).value);
    }
  }

  lemma EffectiveDateIs(tools: Tools, row: Record, date: string)
    ensures EffectiveDate(tools, row) == Some(date) <==> HasDate(tools, row, date)
  {
    hide FirstText, FirstUnder, NoneBefore;
    forall text
      ensures FirstText(row, DATE_KEYS) == Some(text) <==> FirstUnder(row, DATE_KEYS, text)
      ensures FirstText(row, TIMESTAMP_KEYS) == Some(text) <==> FirstUnder(row, TIMESTAMP_KEYS, text)
    {
      FirstTextIs(row, DATE_KEYS, text);
      FirstTextIs(row, TIMESTAMP_KEYS, text);
    }
    FirstTextIs(row, DATE_KEYS, "");
    match FirstText(row, DATE_KEYS) {
      case Some(text) => assert FirstUnder(row, DATE_KEYS, text);
      case None =>
        if FirstText(row, TIMESTAMP_KEYS).Some? {
          assert FirstUnder(row, TIMESTAMP_KEYS, FirstText(row, TIMESTAMP_KEYS).value);
        }
    }
  }

  lemma {:induction false} NoMatch(tools: Tools, rows: seq<Record>, name: string)
    ensures MatchingRows(tools, rows, name) == [] <==>
              forall k :: 0 <= k < |rows| ==> !Describes(tools, rows[k], name)
  {
    hide Describes;
    if rows != [] { NoMatch(tools, rows[1..], name); }
  }

  ghost predicate OnlyMatch(tools: Tools, rows: seq<Record>, name: string, k: nat) {
    k < |rows| && Describes(tools, rows[k], name)
    && forall other :: 0 <= other < |rows| && Describes(tools, rows[other], name) ==> other == k
  }

  lemma {:induction false} OneMatch(tools: Tools, rows: seq<Record>, name: string) returns (k: nat)
    requires |MatchingRows(tools, rows, name)| == 1
    ensures OnlyMatch(tools, rows, name, k) && MatchingRows(tools, rows, name)[0] == rows[k]
  {
    hide Describes;
    NoMatch(tools, rows[1..], name);
    if Describes(tools, rows[0], name) {
      k := 0;
    } else {
      k := OneMatch(tools, rows[1..], name);
      k := k + 1;
    }
  }

  lemma {:induction false} OnlyIsOne(tools: Tools, rows: seq<Record>, name: string, k: nat)
    requires OnlyMatch(tools, rows, name, k)
    ensures MatchingRows(tools, rows, name) == [rows[k]]
  {
    hide Describes;
    NoMatch(tools, rows[1..], name);
    if k > 0 {
      assert !Describes(tools, rows[0], name);
      assert forall i :: 0 <= i < |rows| - 1 ==> rows[1..][i] == rows[i + 1];
      OnlyIsOne(tools, rows[1..], name, k - 1);
    }
  }

  /** The builder dates a file exactly by the only record that names it, wherever it is nested. */
  lemma DateOfIs(tools: Tools, doc: Json, name: string, date: string)
    ensures DateOf(tools, doc, name) == Some(date) <==>
              exists path, row :: OnlyRecord(tools, doc, name, path, row) && HasDate(tools, row, date)
  {
    hide Describes, NamesFile, HasDate, EffectiveDate, WalkDicts, NodeAt, MatchingRows;
    var rows := WalkDicts(doc);
    if DateOf(tools, doc, name) == Some(date) {
      var k := OneMatch(tools, rows, name);
      var path := WalkedHasPath(doc, k);
      DescribesIs(tools, rows[k], name);
      EffectiveDateIs(tools, rows[k], date);
      forall p, r | RecordAt(doc, p, r) && NamesFile(tools, r, name) ensures p == path {
        PathIsWalked(doc, p, r);
        DescribesIs(tools, r, name);
        PathsDiffer(doc, p, path, r, rows[k]);
      }
      assert OnlyRecord(tools, doc, name, path, rows[k]);
    }
    if path, row :| OnlyRecord(tools, doc, name, path, row) && HasDate(tools, row, date) {
      PathIsWalked(doc, path, row);
      var k := IndexOf(doc, path);
      DescribesIs(tools, row, name);
      forall other | 0 <= other < |rows| && Describes(tools, rows[other], name) ensures other == k {
        var p := WalkedHasPath(doc, other);
        DescribesIs(tools, rows[other], name);
        assert RecordAt(doc, p, rows[other]);
      }
      OnlyIsOne(tools, rows, name, k);
      EffectiveDateIs(tools, row, date);
    }
  }

  /** No record anywhere names a product of another data set. */
  ghost predicate NoOtherProduct(doc: Json) {
    forall path, row, text :: RecordAt(doc, path, row) && FirstUnder(row, PRODUCT_KEYS, text) ==>
      text == "trtdxfag" || text == "EIP-5903T-OL"
  }

  lemma ProductsAre(doc: Json)
    ensures ProductsAccepted(WalkDicts(doc)) <==> NoOtherProduct(doc)
  {
    hide WalkDicts, NodeAt, FirstText, FirstUnder;
    var rows := WalkDicts(doc);
    if ProductsAccepted(rows) {
      forall path, row, text | RecordAt(doc, path, row) && FirstUnder(row, PRODUCT_KEYS, text)
        ensures text == "trtdxfag" || text == "EIP-5903T-OL"
      {
        PathIsWalked(doc, path, row);
        FirstTextIs(row, PRODUCT_KEYS, text);
      }
    }
    if NoOtherProduct(doc) {
      forall k | 0 <= k < |rows| && FirstText(rows[k], PRODUCT_KEYS).Some?
        ensures FirstText(rows[k], PRODUCT_KEYS).value in ACCEPTED_PRODUCTS
      {
        var path := WalkedHasPath(doc, k);
        FirstTextIs(rows[k], PRODUCT_KEYS, FirstText(rows[k], PRODUCT_KEYS).value);
        assert RecordAt(doc, path, rows[k]);
      }
    }
  }

  // ---------- The specs ----------

  function SpecOf(tools: Tools, raw: RawSpec): Option<Spec> {
    if raw.NotAnObject? || raw.path.None? then None
    else
      match tools.normalizePath(raw.path.value)
      case None => None
      case Some(path) =>
        if raw.kind.None? then None
        else
          match tools.kindOf(raw.kind.value)
          case None => None
          case Some(kind) => Some(Spec(path, tools.basename(path), kind))
  }

  /** A raw spec names a path and a kind that are both understood. */
  ghost predicate IsSpec(tools: Tools, raw: RawSpec, path: string, kind: Kind) {
    && raw.SpecObject?
    && raw.path.Some? && tools.normalizePath(raw.path.value) == Some(path)
    && raw.kind.Some? && tools.kindOf(raw.kind.value) == Some(kind)
  }

  lemma SpecOfIs(tools: Tools, raw: RawSpec, path: string, kind: Kind)
    ensures SpecOf(tools, raw) == Some(Spec(path, tools.basename(path), kind)) <==> IsSpec(tools, raw, path, kind)
    ensures SpecOf(tools, raw).Some? ==> SpecOf(tools, raw).value.name == tools.basename(SpecOf(tools, raw).value.path)
  {
  }

  predicate AllSpecs(tools: Tools, raw: seq<RawSpec>) {
    forall i :: 0 <= i < |raw| ==> SpecOf(tools, raw[i]).Some?
  }

  function SpecsOf(tools: Tools, raw: seq<RawSpec>): (specs: seq<Spec>)
    requires AllSpecs(tools, raw)
    ensures |specs| == |raw|
  {
    seq(|raw|, i requires 0 <= i < |raw| => SpecOf(tools, raw[i]).value)
  }

  predicate DistinctSpecs(specs: seq<Spec>) {
    forall i, j :: 0 <= i < j < |specs| ==> specs[i].path != specs[j].path && specs[i].name != specs[j].name
  }

  function Snapshots(specs: seq<Spec>): nat {
    if specs == [] then 0 else Snapshots(specs[..|specs| - 1]) + (if specs[|specs| - 1].kind == Snapshot then 1 else 0)
  }

  predicate SpecsGood(tools: Tools, raw: seq<RawSpec>) {
    raw != [] && AllSpecs(tools, raw) && DistinctSpecs(SpecsOf(tools, raw)) && Snapshots(SpecsOf(tools, raw)) == 1
  }

  /** None stands for a non-empty list of issues. */
  method ParseSourceSpecs(tools: Tools, raw: seq<RawSpec>) returns (r: Option<seq<Spec>>)
    ensures r.Some? <==> SpecsGood(tools, raw)
    ensures r.Some? ==> r.value == SpecsOf(tools, raw)
  {
    if raw == [] { return None; }
    var normalized: seq<Spec> := [];
    var issues := 0;
    var seenPaths: set<string>, seenNames: set<string> := {}, {};
    var i := 0;
    while i < |raw|
      invariant 0 <= i <= |raw| && issues >= 0
      invariant seenPaths == (set s | s in normalized :: s.path) && seenNames == (set s | s in normalized :: s.name)
      invariant issues == 0 <==> AllSpecs(tools, raw[..i]) && DistinctSpecs(SpecsOf(tools, raw[..i]))
      invariant issues == 0 ==> normalized == SpecsOf(tools, raw[..i])
    {
      SpecsGrow(tools, raw, i);
      match SpecOf(tools, raw[i]) {
        case None => issues := issues + 1;
        case Some(spec) =>
          if spec.path in seenPaths || spec.name in seenNames {
            issues := issues + 1;
          } else {
            seenPaths, seenNames := seenPaths + {spec.path}, seenNames + {spec.name};
            normalized := normalized + [spec];
          }
      }
      i := i + 1;
    }
    assert raw[..|raw|] == raw;
    if issues > 0 || Snapshots(normalized) != 1 { return None; }
    return Some(normalized);
  }

  lemma SpecsGrow(tools: Tools, raw: seq<RawSpec>, i: nat)
    requires i < |raw|
    ensures AllSpecs(tools, raw[..i + 1]) <==> AllSpecs(tools, raw[..i]) && SpecOf(tools, raw[i]).Some?
    ensures AllSpecs(tools, raw[..i + 1]) ==>
              var specs := SpecsOf(tools, raw[..i]);
              var spec := SpecOf(tools, raw[i]).value;
              && SpecsOf(tools, raw[..i + 1]) == specs + [spec]
              && (DistinctSpecs(SpecsOf(tools, raw[..i + 1])) <==>
                    && DistinctSpecs(specs)
                    && spec.path !in (set s | s in specs :: s.path)
                    && spec.name !in (set s | s in specs :: s.name))
  {
    var longer := raw[..i + 1];
    assert forall k :: 0 <= k < i ==> longer[k] == raw[..i][k];
    assert longer[i] == raw[i];
    if AllSpecs(tools, longer) {
      var specs, spec := SpecsOf(tools, raw[..i]), SpecOf(tools, raw[i]).value;
      assert SpecsOf(tools, longer) == specs + [spec];
      if DistinctSpecs(specs + [spec]) {
        forall s | s in specs ensures s.path != spec.path && s.name != spec.name {
          var k :| 0 <= k < |specs| && specs[k] == s;
          assert (specs + [spec])[k] == s && (specs + [spec])[i] == spec;
        }
        assert forall k :: 0 <= k < |specs| ==> (specs + [spec])[k] == specs[k];
      }
    }
  }

  // ---------- The metadata ----------

  datatype Dated = Dated(name: string, date: string)

  predicate AllDated(tools: Tools, doc: Json, specs: seq<Spec>) {
    forall i :: 0 <= i < |specs| ==> DateOf(tools, doc, specs[i].name).Some?
  }

  function PlanOf(tools: Tools, doc: Json, specs: seq<Spec>): (plan: seq<Dated>)
    requires AllDated(tools, doc, specs)
    ensures |plan| == |specs|
  {
    seq(|specs|, i requires 0 <= i < |specs| => Dated(specs[i].name, DateOf(tools, doc, specs[i].name).value))
  }

  /** `specs` carry distinct file names; None stands for a non-empty list of issues. */
  method EvaluateMetadata(tools: Tools, doc: Json, specs: seq<Spec>) returns (r: Option<seq<Dated>>)
    requires Sound(tools) && DistinctSpecs(specs) && specs != []
    requires forall s :: s in specs ==> tools.basename(s.name) == s.name
    ensures r.Some? <==> ProductsAccepted(WalkDicts(doc)) && AllDated(tools, doc, specs)
    ensures r.Some? ==> r.value == PlanOf(tools, doc, specs)
    ensures r.Some? <==> NoOtherProduct(doc) && forall i :: 0 <= i < |specs| ==> IsDated(tools, doc, specs[i].name)
    ensures r.Some? ==>
              |r.value| == |specs|
              && forall i :: 0 <= i < |specs| ==>
                   r.value[i].name == specs[i].name && IsDatedOn(tools, doc, specs[i].name, r.value[i].date)
  {
    hide WalkDicts, ProductsAccepted, EffectiveDate, MatchingRows, DistinctSpecs;
    hide NoOtherProduct, IsDated, IsDatedOn;
    PlanIsDated(tools, doc, specs);
    NamesDistinct(specs);
    var rows := WalkDicts(doc);
    var issues := if ProductsAccepted(rows) then 0 else 1;
    var seen: set<string> := {};
    var plan: seq<Dated> := [];
    var i := 0;
    while i < |specs|
      invariant 0 <= i <= |specs| && issues >= 0
      invariant seen == set k | 0 <= k < i :: specs[k].name
      invariant issues == 0 <==> ProductsAccepted(rows) && AllDated(tools, doc, specs[..i])
      invariant issues == 0 ==> plan == PlanOf(tools, doc, specs[..i])
    {
      PlanGrows(tools, doc, specs, i);
      assert specs[i] in specs;
      var name := tools.basename(specs[i].name);
      if name in seen {
        issues := issues + 1;
      } else {
        seen := seen + {name};
        var matches := MatchingRows(tools, rows, name);
        if |matches| != 1 {
          issues := issues + 1;
        } else {
          match EffectiveDate(tools, matches[0]) {
            case None => issues := issues + 1;
            case Some(date) => plan := plan + [Dated(name, date)];
          }
        }
      }
      i := i + 1;
    }
    assert specs[..|specs|] == specs;
    if issues > 0 { return None; }
    return Some(plan);
  }

  /** Only one record in the document names the file, and it carries this date. */
  ghost predicate IsDatedOn(tools: Tools, doc: Json, name: string, date: string) {
    exists path, row :: OnlyRecord(tools, doc, name, path, row) && HasDate(tools, row, date)
  }

  ghost predicate IsDated(tools: Tools, doc: Json, name: string) {
    exists date :: IsDatedOn(tools, doc, name, date)
  }

  lemma PlanIsDated(tools: Tools, doc: Json, specs: seq<Spec>)
    ensures ProductsAccepted(WalkDicts(doc)) <==> NoOtherProduct(doc)
    ensures AllDated(tools, doc, specs) <==> forall i :: 0 <= i < |specs| ==> IsDated(tools, doc, specs[i].name)
    ensures AllDated(tools, doc, specs) ==>
              forall i :: 0 <= i < |specs| ==>
                IsDatedOn(tools, doc, specs[i].name, PlanOf(tools, doc, specs)[i].date)
  {
    hide DateOf, NoOtherProduct, OnlyRecord, HasDate, ProductsAccepted, WalkDicts, IsDatedOn;
    ProductsAre(doc);
    forall i | 0 <= i < |specs|
      ensures DateOf(tools, doc, specs[i].name).Some? <==> IsDated(tools, doc, specs[i].name)
      ensures DateOf(tools, doc, specs[i].name).Some? ==>
                IsDatedOn(tools, doc, specs[i].name, DateOf(tools, doc, specs[i].name).value)
    {
      var name := specs[i].name;
      if DateOf(tools, doc, name).Some? { DatedOnIs(tools, doc, name, DateOf(tools, doc, name).value); }
      if date :| IsDatedOn(tools, doc, name, date) { DatedOnIs(tools, doc, name, date); }
    }
  }

  lemma DatedOnIs(tools: Tools, doc: Json, name: string, date: string)
    ensures DateOf(tools, doc, name) == Some(date) <==> IsDatedOn(tools, doc, name, date)
  {
    hide DateOf, OnlyRecord, HasDate;
    DateOfIs(tools, doc, name, date);
  }

  lemma NamesDistinct(specs: seq<Spec>)
    requires DistinctSpecs(specs)
    ensures forall i, j :: 0 <= i < j < |specs| ==> specs[i].name != specs[j].name
  {
  }

  lemma PlanGrows(tools: Tools, doc: Json, specs: seq<Spec>, i: nat)
    requires i < |specs|
    ensures AllDated(tools, doc, specs[..i + 1]) <==>
              AllDated(tools, doc, specs[..i]) && DateOf(tools, doc, specs[i].name).Some?
    ensures AllDated(tools, doc, specs[..i + 1]) ==>
              PlanOf(tools, doc, specs[..i + 1])
              == PlanOf(tools, doc, specs[..i]) + [Dated(specs[i].name, DateOf(tools, doc, specs[i].name).value)]
  {
    var longer := specs[..i + 1];
    assert forall k :: 0 <= k < i ==> longer[k] == specs[..i][k];
    assert longer[i] == specs[i];
  }

  // ---------- The manifest ----------

  datatype Source = Source(path: string, kind: Kind, date: string)

  datatype Manifest = Manifest(expectedDaily: nat, dailyThrough: Option<string>, sources: seq<Source>)

  function SourcesOf(specs: seq<Spec>, plan: seq<Dated>): (sources: seq<Source>)
    requires |specs| == |plan|
    ensures |sources| == |specs|
  {
    seq(|specs|, i requires 0 <= i < |specs| => Source(specs[i].path, specs[i].kind, plan[i].date))
  }

  predicate DistinctDates(sources: seq<Source>) {
    forall i, j :: 0 <= i < j < |sources| ==> sources[i].date != sources[j].date
  }

  /** Every daily file is dated after every snapshot. */
  predicate SnapshotsFirst(sources: seq<Source>) {
    forall i, j :: 0 <= i < |sources| && 0 <= j < |sources| && sources[i].kind == Snapshot && sources[j].kind == Daily
      ==> Less(sources[i].date, sources[j].date)
  }

  function InsertByDate(s: seq<Source>, e: Source): seq<Source> {
    if s == [] || Less(e.date, s[0].date) then [e] + s else [s[0]] + InsertByDate(s[1..], e)
  }

  function SortByDate(s: seq<Source>): seq<Source> {
    if s == [] then [] else InsertByDate(SortByDate(s[..|s| - 1]), s[|s| - 1])
  }

  ghost predicate Ascending(s: seq<Source>) {
    forall i, j :: 0 <= i < j < |s| ==> Less(s[i].date, s[j].date)
  }

  lemma {:induction false} InsertKeeps(s: seq<Source>, e: Source)
    ensures multiset(InsertByDate(s, e)) == multiset(s) + multiset{e} && |InsertByDate(s, e)| == |s| + 1
  {
    if s != [] {
      assert s == [s[0]] + s[1..];
      if !Less(e.date, s[0].date) { InsertKeeps(s[1..], e); }
    }
  }

  lemma {:induction false} InsertAscends(s: seq<Source>, e: Source)
    requires Ascending(s) && forall x :: x in s ==> x.date != e.date
    ensures Ascending(InsertByDate(s, e))
  {
    hide Less;
    if s != [] {
      if Less(e.date, s[0].date) {
        forall j | 0 <= j < |s| ensures Less(e.date, s[j].date) {
          if j > 0 { LessTransitive(e.date, s[0].date, s[j].date); }
        }
      } else {
        LessTotal(e.date, s[0].date);
        InsertAscends(s[1..], e);
        InsertKeeps(s[1..], e);
        var rest := InsertByDate(s[1..], e);
        forall j | 0 <= j < |rest| ensures Less(s[0].date, rest[j].date) {
          assert rest[j] in multiset(rest);
        }
      }
    }
  }

  lemma {:induction false} SortKeeps(s: seq<Source>)
    ensures multiset(SortByDate(s)) == multiset(s) && |SortByDate(s)| == |s|
  {
    if s != [] {
      SortKeeps(s[..|s| - 1]);
      InsertKeeps(SortByDate(s[..|s| - 1]), s[|s| - 1]);
      assert s == s[..|s| - 1] + [s[|s| - 1]];
    }
  }

  lemma {:induction false} SortAscends(s: seq<Source>)
    requires DistinctDates(s)
    ensures Ascending(SortByDate(s))
  {
    if s != [] {
      var init := s[..|s| - 1];
      SortAscends(init);
      SortKeeps(init);
      forall x | x in SortByDate(init) ensures x.date != s[|s| - 1].date {
        assert x in multiset(init);
        var k :| 0 <= k < |init| && init[k] == x;
        assert s[k] == x;
      }
      InsertAscends(SortByDate(init), s[|s| - 1]);
    }
  }

  function LaterOf(a: Option<string>, date: string): Option<string> {
    if a.Some? && !Less(a.value, date) then a else Some(date)
  }

  /** `max(daily_dates)`, or None. */
  function LastDaily(sources: seq<Source>): Option<string> {
    if sources == [] then None
    else
      var init, last := LastDaily(sources[..|sources| - 1]), sources[|sources| - 1];
      if last.kind == Daily then LaterOf(init, last.date) else init
  }

  /** `historical_date`: the date of the last snapshot met. */
  function LastSnapshot(sources: seq<Source>): Option<string> {
    if sources == [] then None
    else
      var last := sources[|sources| - 1];
      if last.kind == Snapshot then Some(last.date) else LastSnapshot(sources[..|sources| - 1])
  }

  function ByName(plan: seq<Dated>): map<string, string> {
    if plan == [] then map[]
    else ByName(plan[..|plan| - 1])[plan[|plan| - 1].name := plan[|plan| - 1].date]
  }

  lemma {:induction false} ByNameAt(plan: seq<Dated>, i: nat)
    requires i < |plan| && forall j, k :: 0 <= j < k < |plan| ==> plan[j].name != plan[k].name
    ensures plan[i].name in ByName(plan) && ByName(plan)[plan[i].name] == plan[i].date
  {
    if i < |plan| - 1 { ByNameAt(plan[..|plan| - 1], i); }
  }

  predicate AllLate(sources: seq<Source>, historical: string) {
    forall k :: 0 <= k < |sources| && sources[k].kind == Daily ==> Less(historical, sources[k].date)
  }

  /** The sources of one snapshot and its daily files, if their dates allow it. */
  function ManifestFrom(sources: seq<Source>): Option<Manifest>
    requires sources != []
  {
    if DistinctDates(sources) && SnapshotsFirst(sources)
    then Some(Manifest(|sources| - 1, LastDaily(sources), SortByDate(sources)))
    else None
  }

  /** The plan has an entry for every spec, in the same order. */
  predicate PlanFor(specs: seq<Spec>, plan: seq<Dated>) {
    |plan| == |specs| && forall i :: 0 <= i < |specs| ==> plan[i].name == specs[i].name
  }

  /** The loop over the specs with a plan entry for each; None stands for a list of issues. */
  method BuildAssignmentManifest(specs: seq<Spec>, plan: seq<Dated>) returns (r: Option<Manifest>)
    requires PlanFor(specs, plan) && DistinctSpecs(specs) && Snapshots(specs) == 1 && specs != []
    ensures r == ManifestFrom(SourcesOf(specs, plan))
  {
    hide DistinctDates, SnapshotsFirst, LastDaily, LastSnapshot, Snapshots, DistinctSpecs;
    hide Less, ByName, AllLate, SortByDate;
    ghost var all := SourcesOf(specs, plan);
    PlanNamesDistinct(specs, plan);
    NothingYet(specs, all);
    var byName := ByName(plan);
    var rows: seq<Source> := [];
    var seenDates: set<string> := {};
    var duplicates := false;
    var historical: Option<string> := None;
    var daily := 0;
    var through: Option<string> := None;
    var i := 0;
    while i < |specs|
      invariant 0 <= i <= |specs| && rows == all[..i]
      invariant seenDates == set k | 0 <= k < i :: all[k].date
      invariant duplicates <==> !DistinctDates(all[..i])
      invariant daily >= 0 && daily + Snapshots(specs[..i]) == i
      invariant through == LastDaily(all[..i]) && historical == LastSnapshot(all[..i])
    {
      ByNameAt(plan, i);
      var spec, date := specs[i], byName[specs[i].name];
      DatesGrow(all, i);
      CountsGrow(specs, all, i);
      if date in seenDates { duplicates := true; }
      seenDates := seenDates + {date};
      if spec.kind == Snapshot {
        historical := Some(date);
      } else {
        daily := daily + 1;
        through := LaterOf(through, date);
      }
      rows := rows + [Source(spec.path, spec.kind, date)];
      i := i + 1;
    }
    assert specs[..|specs|] == specs && all[..|specs|] == all;
    LateIffFirst(specs, plan);
    if duplicates || !AllLate(rows, historical.value) { return None; }
    return Some(Manifest(daily, through, SortByDate(rows)));
  }

  lemma LateIffFirst(specs: seq<Spec>, plan: seq<Dated>)
    requires |plan| == |specs| && Snapshots(specs) == 1
    ensures var all := SourcesOf(specs, plan);
            LastSnapshot(all).Some? && (SnapshotsFirst(all) <==> AllLate(all, LastSnapshot(all).value))
  {
    hide Snapshots, Less, LastSnapshot;
    var all := SourcesOf(specs, plan);
    SnapshotExists(specs);
    var only :| 0 <= only < |specs| && specs[only].kind == Snapshot;
    OneSnapshot(specs, only);
    LastSnapshotAt(all, only);
    FirstIffBefore(all, only);
  }

  lemma {:induction false} LastSnapshotAt(all: seq<Source>, only: nat)
    requires only < |all| && all[only].kind == Snapshot
    requires forall k :: 0 <= k < |all| && k != only ==> all[k].kind == Daily
    ensures LastSnapshot(all) == Some(all[only].date)
  {
    if only < |all| - 1 { LastSnapshotAt(all[..|all| - 1], only); }
  }

  lemma PlanNamesDistinct(specs: seq<Spec>, plan: seq<Dated>)
    requires PlanFor(specs, plan) && DistinctSpecs(specs)
    ensures forall i, j :: 0 <= i < j < |plan| ==> plan[i].name != plan[j].name
  {
  }

  lemma NothingYet(specs: seq<Spec>, all: seq<Source>)
    ensures Snapshots(specs[..0]) == 0 && DistinctDates(all[..0])
    ensures LastDaily(all[..0]) == None && LastSnapshot(all[..0]) == None
  {
  }

  lemma CountsGrow(specs: seq<Spec>, all: seq<Source>, i: nat)
    requires |specs| == |all| && i < |specs| && all[i].kind == specs[i].kind
    ensures Snapshots(specs[..i + 1]) == Snapshots(specs[..i]) + (if specs[i].kind == Snapshot then 1 else 0)
    ensures LastDaily(all[..i + 1]) ==
              if specs[i].kind == Daily then LaterOf(LastDaily(all[..i]), all[i].date) else LastDaily(all[..i])
    ensures LastSnapshot(all[..i + 1]) ==
              if specs[i].kind == Snapshot then Some(all[i].date) else LastSnapshot(all[..i])
  {
    assert specs[..i + 1][..i] == specs[..i] && all[..i + 1][..i] == all[..i];
  }

  lemma FirstIffBefore(all: seq<Source>, only: nat)
    requires only < |all| && all[only].kind == Snapshot
    requires forall k :: 0 <= k < |all| && k != only ==> all[k].kind == Daily
    ensures SnapshotsFirst(all) <==>
              forall k :: 0 <= k < |all| && all[k].kind == Daily ==> Less(all[only].date, all[k].date)
  {
  }

  lemma DatesGrow(all: seq<Source>, i: nat)
    requires i < |all|
    ensures DistinctDates(all[..i + 1]) <==>
              DistinctDates(all[..i]) && all[i].date !in (set k | 0 <= k < i :: all[k].date)
  {
    var longer := all[..i + 1];
    assert forall k :: 0 <= k < i ==> longer[k] == all[..i][k] && longer[k] == all[k];
    assert longer[i] == all[i];
  }

  lemma {:induction false} SnapshotExists(specs: seq<Spec>)
    ensures Snapshots(specs) > 0 ==> exists k :: 0 <= k < |specs| && specs[k].kind == Snapshot
    ensures Snapshots(specs) == 0 ==> forall k :: 0 <= k < |specs| ==> specs[k].kind == Daily
  {
    if specs != [] { SnapshotExists(specs[..|specs| - 1]); }
  }

  lemma {:induction false} OneSnapshot(specs: seq<Spec>, only: nat)
    requires Snapshots(specs) == 1 && only < |specs| && specs[only].kind == Snapshot
    ensures forall k :: 0 <= k < |specs| && k != only ==> specs[k].kind == Daily
  {
    var init := specs[..|specs| - 1];
    SnapshotExists(init);
    if only < |specs| - 1 {
      assert init[only].kind == Snapshot;
      OneSnapshot(init, only);
    }
  }

  // ---------- The whole builder ----------

  /** When the steps of the builder succeed. */
  predicate Buildable(tools: Tools, doc: Json, raw: seq<RawSpec>) {
    && SpecsGood(tools, raw)
    && ProductsAccepted(WalkDicts(doc))
    && var specs := SpecsOf(tools, raw);
       && AllDated(tools, doc, specs)
       && DistinctDates(SourcesOf(specs, PlanOf(tools, doc, specs)))
       && SnapshotsFirst(SourcesOf(specs, PlanOf(tools, doc, specs)))
  }

  /** A spec with the date of the only record anywhere in the document that names its file. */
  ghost predicate ComesFrom(tools: Tools, doc: Json, raw: RawSpec, source: Source) {
    && IsSpec(tools, raw, source.path, source.kind)
    && IsDatedOn(tools, doc, tools.basename(source.path), source.date)
  }

  /** Every spec has a source, no two of them share path, file name or date, one is the snapshot,
      and all others are dated after it. */
  ghost predicate Consistent(tools: Tools, doc: Json, raw: seq<RawSpec>, sources: seq<Source>, snapshot: nat) {
    && |sources| == |raw| && snapshot < |raw| && sources[snapshot].kind == Snapshot
    && (forall i :: 0 <= i < |raw| ==> ComesFrom(tools, doc, raw[i], sources[i]))
    && (forall i, j :: 0 <= i < j < |sources| ==>
          && sources[i].path != sources[j].path && sources[i].date != sources[j].date
          && tools.basename(sources[i].path) != tools.basename(sources[j].path))
    && (forall i :: 0 <= i < |sources| && i != snapshot ==>
          sources[i].kind == Daily && Less(sources[snapshot].date, sources[i].date))
  }

  /** When a manifest is built, from specs and document alone. */
  ghost predicate Acceptable(tools: Tools, doc: Json, raw: seq<RawSpec>) {
    NoOtherProduct(doc) && exists sources, snapshot :: Consistent(tools, doc, raw, sources, snapshot)
  }

  /** The sources are the specs, each exactly once, with their dates strictly increasing, the
      snapshot first and every later one daily, and `daily_through` is the last daily date. */
  ghost predicate Faithful(tools: Tools, doc: Json, raw: seq<RawSpec>, m: Manifest) {
    && (exists sources: seq<Source> ::
          && |sources| == |raw| && multiset(m.sources) == multiset(sources)
          && forall i :: 0 <= i < |raw| ==> ComesFrom(tools, doc, raw[i], sources[i]))
    && Ascending(m.sources)
    && |m.sources| == |raw| >= 1
    && m.sources[0].kind == Snapshot
    && (forall i :: 1 <= i < |m.sources| ==> m.sources[i].kind == Daily)
    && m.expectedDaily == |m.sources| - 1
    && m.dailyThrough == (if |m.sources| == 1 then None else Some(m.sources[|m.sources| - 1].date))
  }

  method BuildManifest(tools: Tools, doc: Json, raw: seq<RawSpec>) returns (r: Option<Manifest>)
    requires Sound(tools)
    ensures r.Some? <==> Acceptable(tools, doc, raw)
    ensures r.Some? ==> Faithful(tools, doc, raw, r.value)
  {
    hide WalkDicts, DateOf, ProductsAccepted, SortByDate, LastDaily;
    hide Faithful, SpecOf, Snapshots, DistinctDates, SnapshotsFirst, Acceptable;
    BuildableIffAcceptable(tools, doc, raw);
    var specs := ParseSourceSpecs(tools, raw);
    if specs.None? { return None; }
    SpecNames(tools, raw);
    var plan := EvaluateMetadata(tools, doc, specs.value);
    if plan.None? { return None; }
    r := BuildAssignmentManifest(specs.value, plan.value);
    if r.Some? { ManifestIsFaithful(tools, doc, raw, specs.value, plan.value, r.value); }
  }

  lemma SpecNames(tools: Tools, raw: seq<RawSpec>)
    requires Sound(tools) && AllSpecs(tools, raw)
    ensures forall s :: s in SpecsOf(tools, raw) ==> tools.basename(s.name) == s.name
  {
  }

  lemma ManifestIsFaithful(tools: Tools, doc: Json, raw: seq<RawSpec>, specs: seq<Spec>, plan: seq<Dated>, m: Manifest)
    requires SpecsGood(tools, raw) && specs == SpecsOf(tools, raw)
    requires AllDated(tools, doc, specs) && plan == PlanOf(tools, doc, specs)
    requires DistinctDates(SourcesOf(specs, plan)) && SnapshotsFirst(SourcesOf(specs, plan))
    requires m == Manifest(|specs| - 1, LastDaily(SourcesOf(specs, plan)), SortByDate(SourcesOf(specs, plan)))
    ensures Faithful(tools, doc, raw, m)
  {
    hide SpecOf, DateOf, SortByDate, LastDaily, Snapshots, DistinctDates;
    hide SnapshotsFirst, Ascending, SpecsOf, PlanOf, ComesFrom, SourcesOf;
    var all := SourcesOf(specs, plan);
    SortKeeps(all);
    SortAscends(all);
    SourcesComeFrom(tools, doc, raw);
    SnapshotLeads(specs, plan);
    ThroughIsLast(specs, plan);
  }

  lemma SourcesComeFrom(tools: Tools, doc: Json, raw: seq<RawSpec>)
    requires AllSpecs(tools, raw) && AllDated(tools, doc, SpecsOf(tools, raw))
    ensures var specs := SpecsOf(tools, raw);
            var all := SourcesOf(specs, PlanOf(tools, doc, specs));
            |all| == |raw| && forall i :: 0 <= i < |raw| ==> ComesFrom(tools, doc, raw[i], all[i])
  {
    hide SpecOf, DateOf, IsDatedOn, IsSpec;
    var specs := SpecsOf(tools, raw);
    var all := SourcesOf(specs, PlanOf(tools, doc, specs));
    forall i | 0 <= i < |raw| ensures ComesFrom(tools, doc, raw[i], all[i]) {
      SpecOfIs(tools, raw[i], specs[i].path, specs[i].kind);
      DatedOnIs(tools, doc, specs[i].name, all[i].date);
    }
  }

  /** A source that comes from a spec is the one the builder makes of it. */
  lemma ComesFromIs(tools: Tools, doc: Json, raw: RawSpec, source: Source)
    requires ComesFrom(tools, doc, raw, source)
    ensures var spec := Spec(source.path, tools.basename(source.path), source.kind);
            SpecOf(tools, raw) == Some(spec) && DateOf(tools, doc, spec.name) == Some(source.date)
  {
    hide SpecOf, DateOf, IsDatedOn, IsSpec;
    SpecOfIs(tools, raw, source.path, source.kind);
    DatedOnIs(tools, doc, tools.basename(source.path), source.date);
  }

  lemma BuildableIffAcceptable(tools: Tools, doc: Json, raw: seq<RawSpec>)
    ensures Buildable(tools, doc, raw) <==> Acceptable(tools, doc, raw)
  {
    hide WalkDicts, ProductsAccepted, NoOtherProduct, SpecsGood, AllDated, DistinctDates, SnapshotsFirst, Consistent;
    ProductsAre(doc);
    if Buildable(tools, doc, raw) {
      var snapshot := BuildableIsConsistent(tools, doc, raw);
    }
    if Acceptable(tools, doc, raw) {
      var sources, snapshot :| Consistent(tools, doc, raw, sources, snapshot);
      ConsistentIsBuildable(tools, doc, raw, sources, snapshot);
    }
  }

  lemma BuildableIsConsistent(tools: Tools, doc: Json, raw: seq<RawSpec>) returns (snapshot: nat)
    requires Buildable(tools, doc, raw)
    ensures var specs := SpecsOf(tools, raw);
            Consistent(tools, doc, raw, SourcesOf(specs, PlanOf(tools, doc, specs)), snapshot)
  {
    hide WalkDicts, ProductsAccepted, SpecOf, DateOf, ComesFrom, Less, Snapshots;
    var specs := SpecsOf(tools, raw);
    SourcesComeFrom(tools, doc, raw);
    SnapshotExists(specs);
    snapshot :| 0 <= snapshot < |specs| && specs[snapshot].kind == Snapshot;
    OneSnapshot(specs, snapshot);
    forall i | 0 <= i < |specs| ensures specs[i].name == tools.basename(specs[i].path) {
      SpecOfIs(tools, raw[i], specs[i].path, specs[i].kind);
    }
  }

  lemma ConsistentIsBuildable(tools: Tools, doc: Json, raw: seq<RawSpec>, sources: seq<Source>, snapshot: nat)
    requires Consistent(tools, doc, raw, sources, snapshot) && ProductsAccepted(WalkDicts(doc))
    ensures Buildable(tools, doc, raw)
  {
    hide WalkDicts, ProductsAccepted, SpecOf, DateOf, ComesFrom, Less, Snapshots;
    forall i | 0 <= i < |raw|
      ensures var spec := Spec(sources[i].path, tools.basename(sources[i].path), sources[i].kind);
              SpecOf(tools, raw[i]) == Some(spec) && DateOf(tools, doc, spec.name) == Some(sources[i].date)
    {
      ComesFromIs(tools, doc, raw[i], sources[i]);
    }
    var specs := SpecsOf(tools, raw);
    assert SourcesOf(specs, PlanOf(tools, doc, specs)) == sources;
    OnlySnapshot(specs, snapshot);
    FirstIffBefore(sources, snapshot);
  }

  lemma {:induction false} OnlySnapshot(specs: seq<Spec>, only: nat)
    requires only < |specs| && specs[only].kind == Snapshot
    requires forall k :: 0 <= k < |specs| && k != only ==> specs[k].kind == Daily
    ensures Snapshots(specs) == 1
  {
    var init := specs[..|specs| - 1];
    if only < |specs| - 1 { OnlySnapshot(init, only); } else { NoSnapshot(init); }
  }

  lemma {:induction false} NoSnapshot(specs: seq<Spec>)
    requires forall k :: 0 <= k < |specs| ==> specs[k].kind == Daily
    ensures Snapshots(specs) == 0
  {
    if specs != [] { NoSnapshot(specs[..|specs| - 1]); }
  }

  lemma SnapshotLeads(specs: seq<Spec>, plan: seq<Dated>)
    requires |specs| == |plan| && Snapshots(specs) == 1
    requires DistinctDates(SourcesOf(specs, plan)) && SnapshotsFirst(SourcesOf(specs, plan))
    ensures var sorted := SortByDate(SourcesOf(specs, plan));
            && |sorted| == |specs| >= 1 && sorted[0].kind == Snapshot
            && forall i :: 1 <= i < |sorted| ==> sorted[i].kind == Daily
  {
    hide SortByDate, Snapshots, Less;
    var all := SourcesOf(specs, plan);
    var sorted := SortByDate(all);
    SortKeeps(all);
    SortAscends(all);
    NotEmptySpecs(specs);
    SnapshotExists(specs);
    var only :| 0 <= only < |specs| && specs[only].kind == Snapshot;
    OneSnapshot(specs, only);
    assert all[only] in multiset(sorted);
    var at :| 0 <= at < |sorted| && sorted[at] == all[only];
    assert sorted[0] in multiset(all);
    var front :| 0 <= front < |all| && all[front] == sorted[0];
    if at > 0 {
      LessAsymmetric(sorted[0].date, sorted[at].date);
    }
    forall i | 1 <= i < |sorted| ensures sorted[i].kind == Daily {
      assert sorted[i] in multiset(all);
      var k :| 0 <= k < |all| && all[k] == sorted[i];
      LessIrreflexive(sorted[0].date);
    }
  }

  lemma NotEmptySpecs(specs: seq<Spec>)
    requires Snapshots(specs) == 1
    ensures specs != []
  {
  }

  lemma {:induction false} LastDailyIs(sources: seq<Source>)
    ensures LastDaily(sources).None? <==> forall i :: 0 <= i < |sources| ==> sources[i].kind == Snapshot
    ensures LastDaily(sources).Some? ==>
              && (exists i :: 0 <= i < |sources| && sources[i].kind == Daily
                              && sources[i].date == LastDaily(sources).value)
              && (forall i :: 0 <= i < |sources| && sources[i].kind == Daily ==>
                   !Less(LastDaily(sources).value, sources[i].date))
  {
    if sources != [] {
      var init, last := sources[..|sources| - 1], sources[|sources| - 1];
      LastDailyIs(init);
      LessIrreflexive(last.date);
      if LastDaily(init).Some? && last.kind == Daily && Less(LastDaily(init).value, last.date) {
        forall i | 0 <= i < |init| && init[i].kind == Daily ensures !Less(last.date, init[i].date) {
          if Less(last.date, init[i].date) { LessTransitive(LastDaily(init).value, last.date, init[i].date); }
        }
      }
    }
  }

  lemma ThroughIsLast(specs: seq<Spec>, plan: seq<Dated>)
    requires |specs| == |plan| && Snapshots(specs) == 1
    requires DistinctDates(SourcesOf(specs, plan)) && SnapshotsFirst(SourcesOf(specs, plan))
    ensures var all := SourcesOf(specs, plan);
            var sorted := SortByDate(all);
            |sorted| == |specs| >= 1
            && LastDaily(all) == (if |sorted| == 1 then None else Some(sorted[|sorted| - 1].date))
  {
    hide SortByDate, Snapshots, LastDaily, Less;
    var all := SourcesOf(specs, plan);
    var sorted := SortByDate(all);
    SnapshotLeads(specs, plan);
    SortKeeps(all);
    SortAscends(all);
    LastDailyIs(all);
    var n := |sorted| - 1;
    assert sorted[n] in multiset(all);
    var k :| 0 <= k < |all| && all[k] == sorted[n];
    if LastDaily(all).Some? {
      var i :| 0 <= i < |all| && all[i].kind == Daily && all[i].date == LastDaily(all).value;
      assert all[i] in multiset(sorted);
      var j :| 0 <= j < |sorted| && sorted[j] == all[i];
    }
  }
}
