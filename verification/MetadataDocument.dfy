/** Release metadata: every object of a nested JSON document, and the texts an object carries. */
module MetadataDocument {
  import opened Common
  import opened Text
  import opened Json

  type Record = seq<Field>

  /** Every object of the document, outermost first. */
  function WalkDicts(j: Json): seq<Record>
    decreases j
  {
    match j
    case Obj(fields) => [fields] + WalkFields(fields)
    case Arr(items) => WalkItems(items)
    case _ => []
  }

  function WalkFields(fields: seq<Field>): seq<Record>
    decreases fields
  {
    if fields == [] then [] else WalkDicts(fields[0].value) + WalkFields(fields[1..])
  }

  function WalkItems(items: seq<Json>): seq<Record>
    decreases items
  {
    if items == [] then [] else WalkDicts(items[0]) + WalkItems(items[1..])
  }

  // ---------- Paths ----------

  /** The values directly inside an object or an array. */
  function Children(j: Json): seq<Json> {
    match j
    case Obj(fields) => Values(fields)
    case Arr(items) => items
    case _ => []
  }

  function Values(fields: seq<Field>): (values: seq<Json>)
    ensures |values| == |fields| && forall i :: 0 <= i < |fields| ==> values[i] == fields[i].value
  {
    seq(|fields|, i requires 0 <= i < |fields| => fields[i].value)
  }

  /** The value that a sequence of child numbers leads to. */
  function NodeAt(j: Json, path: seq<nat>): Option<Json>
    decreases |path|
  {
    if path == [] then Some(j)
    else if path[0] < |Children(j)| then NodeAt(Children(j)[path[0]], path[1..])
    else None
  }

  predicate RecordAt(j: Json, path: seq<nat>, row: Record) {
    NodeAt(j, path) == Some(Obj(row))
  }

  /** The number of the record a path leads to, in the order of the walk. */
  function IndexOf(j: Json, path: seq<nat>): nat
    requires NodeAt(j, path).Some?
    decreases |path|
  {
    if path == [] then 0
    else Own(j) + |WalkItems(Children(j)[..path[0]])| + IndexOf(Children(j)[path[0]], path[1..])
  }

  function Own(j: Json): nat { if j.Obj? then 1 else 0 }

  lemma {:induction false} FieldsAreItems(fields: seq<Field>)
    ensures WalkFields(fields) == WalkItems(Values(fields))
  {
    if fields != [] {
      FieldsAreItems(fields[1..]);
      assert Values(fields)[1..] == Values(fields[1..]);
    }
  }

  lemma WalkIsChildren(j: Json)
    ensures WalkDicts(j) == (if j.Obj? then [j.fields] else []) + WalkItems(Children(j))
  {
    if j.Obj? { FieldsAreItems(j.fields); }
  }

  lemma {:induction false} ItemsSplit(items: seq<Json>, i: nat)
    requires i < |items|
    ensures WalkItems(items) == WalkItems(items[..i]) + WalkDicts(items[i]) + WalkItems(items[i + 1..])
  {
    if i == 0 {
      assert items[..0] == [];
    } else {
      ItemsSplit(items[1..], i - 1);
      assert items[1..][..i - 1] == items[..i][1..] && items[1..][i..] == items[i + 1..];
    }
  }

  lemma {:induction false} ItemsGrow(items: seq<Json>, i: nat, k: nat)
    requires i < k <= |items|
    ensures |WalkItems(items[..i])| + |WalkDicts(items[i])| <= |WalkItems(items[..k])|
  {
    ItemsSplit(items[..k], i);
    assert items[..k][..i] == items[..i];
  }

  /** Every record that a path leads to is met by the walk. */
  lemma {:induction false} PathIsWalked(j: Json, path: seq<nat>, row: Record)
    requires RecordAt(j, path, row)
    ensures IndexOf(j, path) < |WalkDicts(j)| && WalkDicts(j)[IndexOf(j, path)] == row
    decreases |path|
  {
    hide WalkItems, WalkDicts;
    WalkIsChildren(j);
    if path != [] {
      var i := path[0];
      PathIsWalked(Children(j)[i], path[1..], row);
      ItemsSplit(Children(j), i);
    }
  }

  /** No record is met twice: different paths have different numbers. */
  lemma {:induction false} PathsDiffer(j: Json, p: seq<nat>, q: seq<nat>, row: Record, other: Record)
    requires RecordAt(j, p, row) && RecordAt(j, q, other) && IndexOf(j, p) == IndexOf(j, q)
    ensures p == q
    decreases |p|
  {
    hide WalkItems, WalkDicts;
    if p != [] && q != [] {
      var kids := Children(j);
      PathIsWalked(kids[p[0]], p[1..], row);
      PathIsWalked(kids[q[0]], q[1..], other);
      if p[0] < q[0] { ItemsGrow(kids, p[0], q[0]); }
      if q[0] < p[0] { ItemsGrow(kids, q[0], p[0]); }
      PathsDiffer(kids[p[0]], p[1..], q[1..], row, other);
      assert p == [p[0]] + p[1..] && q == [q[0]] + q[1..];
    }
  }

  /** Everything the walk meets stands at the end of some path. */
  lemma {:induction false} WalkedHasPath(j: Json, k: nat) returns (path: seq<nat>)
    requires k < |WalkDicts(j)|
    ensures RecordAt(j, path, WalkDicts(j)[k]) && IndexOf(j, path) == k
    decreases j
  {
    hide WalkItems, WalkDicts;
    WalkIsChildren(j);
    if j.Obj? && k == 0 {
      path := [];
    } else {
      var i, rest := ItemAt(Children(j), k - Own(j));
      ItemsSplit(Children(j), i);
      var child := if j.Obj? then j.fields[i].value else j.items[i];
      var tail := WalkedHasPath(child, rest);
      path := [i] + tail;
      assert path[1..] == tail;
    }
  }

  /** The item in which the k-th record of a sequence of items lies, and its number there. */
  lemma {:induction false} ItemAt(items: seq<Json>, k: nat) returns (i: nat, rest: nat)
    requires k < |WalkItems(items)|
    ensures i < |items| && rest < |WalkDicts(items[i])| && k == |WalkItems(items[..i])| + rest
  {
    var first := |WalkDicts(items[0])|;
    if k < first {
      i, rest := 0, k;
      assert items[..0] == [];
    } else {
      i, rest := ItemAt(items[1..], k - first);
      i := i + 1;
      assert items[..i][1..] == items[1..][..i - 1];
    }
  }

  // ---------- The texts of a record ----------

  /** The names of an object are distinct. */
  function Get(row: Record, name: string): Option<Json> {
    if row == [] then None else if row[0].name == name then Some(row[0].value) else Get(row[1..], name)
  }

  /** The first key that holds a non-blank text, stripped. */
  function FirstText(row: Record, keys: seq<string>): Option<string> {
    if keys == [] then None
    else
      match Get(row, keys[0])
      case Some(Str(s)) => if Strip(s) != "" then Some(Strip(s)) else FirstText(row, keys[1..])
      case _ => FirstText(row, keys[1..])
  }

  predicate DistinctFields(row: Record) {
    forall i, j :: 0 <= i < j < |row| ==> row[i].name != row[j].name
  }

  lemma {:induction false} GetIsField(row: Record, name: string)
    ensures Get(row, name).None? <==> forall i :: 0 <= i < |row| ==> row[i].name != name
    ensures Get(row, name).Some? ==> Field(name, Get(row, name).value) in row
    ensures DistinctFields(row) ==>
              forall i :: 0 <= i < |row| && row[i].name == name ==> Get(row, name) == Some(row[i].value)
  {
    if row != [] { GetIsField(row[1..], name); }
  }

  /** The key holds a text that is not blank; `text` is that text stripped. */
  predicate TextUnder(row: Record, key: string, text: string) {
    match Get(row, key)
    case Some(Str(s)) => text == Strip(s) && text != ""
    case _ => false
  }

  /** `text` stands under one of the keys, and no earlier key has a text. */
  ghost predicate FirstUnder(row: Record, keys: seq<string>, text: string) {
    exists i :: 0 <= i < |keys| && TextUnder(row, keys[i], text) && NoneBefore(row, keys, i)
  }

  ghost predicate NoneBefore(row: Record, keys: seq<string>, i: int)
    requires i <= |keys|
  {
    forall j, text :: 0 <= j < i ==> !TextUnder(row, keys[j], text)
  }

  lemma {:induction false} FirstTextIs(row: Record, keys: seq<string>, text: string)
    ensures FirstText(row, keys) == Some(text) <==> FirstUnder(row, keys, text)
    ensures FirstText(row, keys) == None <==> NoneBefore(row, keys, |keys|)
  {
    if keys != [] {
      FirstTextIs(row, keys[1..], text);
      if t :| TextUnder(row, keys[0], t) {
        assert NoneBefore(row, keys, 0) && FirstText(row, keys) == Some(t);
      } else {
        KeysShift(row, keys);
        NoText(row, keys[0]);
      }
    }
  }

  lemma NoText(row: Record, key: string)
    requires forall text :: !TextUnder(row, key, text)
    ensures match Get(row, key)
            case Some(Str(s)) => Strip(s) == ""
            case _ => true
  {
    match Get(row, key)
    case Some(Str(s)) => assert !TextUnder(row, key, Strip(s));
    case _ =>
  }

  lemma KeysShift(row: Record, keys: seq<string>)
    requires keys != [] && forall text :: !TextUnder(row, keys[0], text)
    ensures forall i :: 0 <= i < |keys| ==> (NoneBefore(row, keys, i + 1) <==> NoneBefore(row, keys[1..], i))
    ensures forall text :: FirstUnder(row, keys, text) <==> FirstUnder(row, keys[1..], text)
  {
  }
}
