/** The keyset pages of the applicant-name backfill: what one page query returns for a cursor,
    what the cursor counts, and when the paged loop ends. */
module BackfillPaging {
  import opened Common
  import opened Ordering

  datatype Key = Key(app: string, role: string, rel: string)

  /** The row comparison `(application_number, role, relation_key) > (...)`. */
  predicate KeyLess(a: Key, b: Key) {
    || Less(a.app, b.app)
    || (a.app == b.app && (Less(a.role, b.role) || (a.role == b.role && Less(a.rel, b.rel))))
  }

  type Uuid = nat

  datatype SourceRow = SourceRow(
    key: Key,
    entityId: Option<Uuid>,
    rawName: string,
    normalizedName: string,
    rowHash: string,
    recordHash: string,
    rank: nat,
    ingestedAt: int,
    isDeleted: bool,
    isCurrent: bool)

  /** The WHERE clause shared by the page query and the completeness check. */
  predicate Eligible(r: SourceRow) {
    && !r.isDeleted && r.isCurrent
    && (r.key.role == "OWNER" || r.key.role == "CO_OWNER")
    && r.entityId.Some?
    && r.normalizedName != ""
  }

  /** A table is given by its rows in key order; FINAL leaves one row a key. */
  ghost predicate Sorted(rows: seq<SourceRow>) {
    forall i, j :: 0 <= i < j < |rows| ==> KeyLess(rows[i].key, rows[j].key)
  }

  function EligibleRows(table: seq<SourceRow>): seq<SourceRow> {
    if table == [] then []
    else (if Eligible(table[0]) then [table[0]] else []) + EligibleRows(table[1..])
  }

  datatype Cursor = Cursor(after: Key, emitted: nat)

  const START := Cursor(Key("", "", ""), 0)

  const MAX_BATCH_SIZE := 20000

  /** The cursor clause is left out when the application number is empty. */
  predicate PastCursor(r: SourceRow, after: Key) {
    after.app == "" || KeyLess(after, r.key)
  }

  function Matching(table: seq<SourceRow>, after: Key): seq<SourceRow> {
    if table == [] then []
    else (if Eligible(table[0]) && PastCursor(table[0], after) then [table[0]] else []) + Matching(table[1..], after)
  }

  function Min(a: int, b: int): int { if a <= b then a else b }

  function Page(table: seq<SourceRow>, cursor: Cursor, limit: nat): seq<SourceRow> {
    var rows := Matching(table, cursor.after);
    rows[..Min(limit, |rows|)]
  }

  function NextCursor(cursor: Cursor, page: seq<SourceRow>): Cursor
    requires page != []
  {
    Cursor(page[|page| - 1].key, cursor.emitted + |page|)
  }

  /** The cursor of a backfill that has emitted the first `i` eligible rows. */
  function CursorAt(rows: seq<SourceRow>, i: nat): Cursor
    requires i <= |rows|
  {
    if i == 0 then START else Cursor(rows[i - 1].key, i)
  }

  /** A cursor whose key the page query can use: none yet, or a non-empty application number. */
  predicate Usable(rows: seq<SourceRow>, i: nat)
    requires i <= |rows|
  {
    i == 0 || rows[i - 1].key.app != ""
  }

  function EmptyApps(rows: seq<SourceRow>): nat {
    if rows == [] then 0 else (if rows[0].key.app == "" then 1 else 0) + EmptyApps(rows[1..])
  }

  // ---------- Order ----------

  lemma KeyOrder(a: Key, b: Key)
    ensures a == b || KeyLess(a, b) || KeyLess(b, a)
    ensures KeyLess(a, b) ==> !KeyLess(b, a) && a != b
  {
    LessTotal(a.app, b.app);
    LessTotal(a.role, b.role);
    LessTotal(a.rel, b.rel);
    if KeyLess(a, b) {
      if Less(a.app, b.app) { LessAsymmetric(a.app, b.app); }
      else if Less(a.role, b.role) { LessAsymmetric(a.role, b.role); LessIrreflexive(a.app); }
      else { LessAsymmetric(a.rel, b.rel); LessIrreflexive(a.app); LessIrreflexive(a.role); }
    }
  }

  lemma {:induction false} EligibleIn(table: seq<SourceRow>)
    ensures forall r :: r in EligibleRows(table) <==> r in table && Eligible(r)
  {
    if table != [] { EligibleIn(table[1..]); }
  }

  lemma {:induction false} EligibleSorted(table: seq<SourceRow>)
    requires Sorted(table)
    ensures Sorted(EligibleRows(table))
  {
    if table != [] {
      EligibleSorted(table[1..]);
      EligibleIn(table[1..]);
      var rest := EligibleRows(table[1..]);
      assert forall j :: 0 <= j < |rest| ==> rest[j] in table[1..];
      assert forall j :: 0 <= j < |rest| ==> KeyLess(table[0].key, rest[j].key);
    }
  }

  // ---------- One page ----------

  function Past(rows: seq<SourceRow>, after: Key): seq<SourceRow> {
    if rows == [] then []
    else (if PastCursor(rows[0], after) then [rows[0]] else []) + Past(rows[1..], after)
  }

  lemma {:induction false} MatchingIsPast(table: seq<SourceRow>, after: Key)
    ensures Matching(table, after) == Past(EligibleRows(table), after)
  {
    if table != [] {
      MatchingIsPast(table[1..], after);
      if Eligible(table[0]) {
        assert EligibleRows(table)[1..] == EligibleRows(table[1..]);
      } else {
        assert EligibleRows(table) == EligibleRows(table[1..]);
      }
    }
  }

  lemma {:induction false} PastAll(rows: seq<SourceRow>, after: Key)
    requires forall r :: r in rows ==> PastCursor(r, after)
    ensures Past(rows, after) == rows
  {
    if rows != [] { PastAll(rows[1..], after); }
  }

  lemma {:induction false} PastIsSuffix(rows: seq<SourceRow>, i: nat)
    requires Sorted(rows) && 0 < i <= |rows| && rows[i - 1].key.app != ""
    ensures Past(rows, rows[i - 1].key) == rows[i..]
  {
    var after := rows[i - 1].key;
    KeyOrder(rows[0].key, after);
    assert !PastCursor(rows[0], after);
    if i == 1 {
      PastAll(rows[1..], after);
    } else {
      PastIsSuffix(rows[1..], i - 1);
      assert rows[1..][i - 1..] == rows[i..];
    }
  }

  /** The page after the first `i` eligible rows is the next `limit` of them: no gap, no repeat. */
  lemma PageIsNextSlice(table: seq<SourceRow>, i: nat, limit: nat)
    requires Sorted(table) && i <= |EligibleRows(table)| && Usable(EligibleRows(table), i)
    ensures var rows := EligibleRows(table);
            Page(table, CursorAt(rows, i), limit) == rows[i..Min(i + limit, |rows|)]
  {
    hide EligibleRows, Matching, Sorted;
    var rows := EligibleRows(table);
    EligibleSorted(table);
    MatchingIsPast(table, CursorAt(rows, i).after);
    if i == 0 {
      PastAll(rows, START.after);
    } else {
      PastIsSuffix(rows, i);
    }
    assert rows[i..][..Min(limit, |rows| - i)] == rows[i..Min(i + limit, |rows|)];
  }

  function CountUpTo(rows: seq<SourceRow>, key: Key): (n: nat)
    ensures n <= |rows|
  {
    if rows == [] then 0 else (if KeyLess(key, rows[0].key) then 0 else 1) + CountUpTo(rows[1..], key)
  }

  lemma {:induction false} CountUpToNone(rows: seq<SourceRow>, key: Key)
    requires forall r :: r in rows ==> KeyLess(key, r.key)
    ensures CountUpTo(rows, key) == 0
  {
    if rows != [] { CountUpToNone(rows[1..], key); }
  }

  /** `emitted` of a cursor is the number of eligible rows at or below its key. */
  lemma {:induction false} EmittedIsCount(rows: seq<SourceRow>, i: nat)
    requires Sorted(rows) && 0 < i <= |rows|
    ensures CountUpTo(rows, CursorAt(rows, i).after) == CursorAt(rows, i).emitted
  {
    KeyOrder(rows[0].key, rows[i - 1].key);
    if i == 1 {
      CountUpToNone(rows[1..], rows[0].key);
    } else {
      EmittedIsCount(rows[1..], i - 1);
    }
  }

  // ---------- Any cursor ----------

  /** Where the page query takes up the eligible rows: an empty application number starts over. */
  function From(rows: seq<SourceRow>, after: Key): (n: nat)
    ensures n <= |rows|
  {
    if after.app == "" then 0 else CountUpTo(rows, after)
  }

  function NextRows(rows: seq<SourceRow>, after: Key, limit: nat): seq<SourceRow> {
    rows[From(rows, after)..Min(From(rows, after) + limit, |rows|)]
  }

  lemma {:induction false} PastIsRest(rows: seq<SourceRow>, after: Key)
    requires Sorted(rows) && after.app != ""
    ensures Past(rows, after) == rows[CountUpTo(rows, after)..]
  {
    if rows != [] {
      if KeyLess(after, rows[0].key) {
        forall r | r in rows ensures KeyLess(after, r.key) {
          if r != rows[0] { KeyLessTransitive(after, rows[0].key, r.key); }
        }
        CountUpToNone(rows[1..], after);
        PastAll(rows, after);
      } else {
        PastIsRest(rows[1..], after);
      }
    }
  }

  lemma KeyLessTransitive(a: Key, b: Key, c: Key)
    requires KeyLess(a, b) && KeyLess(b, c)
    ensures KeyLess(a, c)
  {
    if Less(a.app, b.app) && Less(b.app, c.app) { LessTransitive(a.app, b.app, c.app); }
    if Less(a.role, b.role) && Less(b.role, c.role) { LessTransitive(a.role, b.role, c.role); }
    if Less(a.rel, b.rel) && Less(b.rel, c.rel) { LessTransitive(a.rel, b.rel, c.rel); }
  }

  /** The page for any cursor at all is a stretch of the eligible rows. */
  lemma PageIsNextRows(table: seq<SourceRow>, cursor: Cursor, limit: nat)
    requires Sorted(table)
    ensures Page(table, cursor, limit) == NextRows(EligibleRows(table), cursor.after, limit)
  {
    hide EligibleRows, Matching, Sorted, CountUpTo;
    var rows, f := EligibleRows(table), From(EligibleRows(table), cursor.after);
    EligibleSorted(table);
    MatchingIsPast(table, cursor.after);
    if cursor.after.app == "" {
      PastAll(rows, cursor.after);
    } else {
      PastIsRest(rows, cursor.after);
    }
    assert Past(rows, cursor.after) == rows[f..];
    assert rows[f..][..Min(limit, |rows| - f)] == rows[f..Min(f + limit, |rows|)];
  }

  lemma FromRow(rows: seq<SourceRow>, i: nat)
    requires Sorted(rows) && 0 < i <= |rows|
    ensures From(rows, rows[i - 1].key) == if rows[i - 1].key.app == "" then 0 else i
  {
    EmittedIsCount(rows, i);
  }

  /** Behind a cursor with an application number every row has one, so a stretch that ends in an
      empty application number starts at the first row. */
  lemma RestNotEmpty(rows: seq<SourceRow>, after: Key)
    requires Sorted(rows) && after.app != ""
    ensures forall i :: From(rows, after) <= i < |rows| ==> rows[i].key.app != ""
  {
    PastIsRest(rows, after);
    AllPast(rows, after);
    forall i | From(rows, after) <= i < |rows| ensures rows[i].key.app != "" {
      assert rows[i] == Past(rows, after)[i - From(rows, after)];
      assert PastCursor(rows[i], after);
    }
  }

  lemma {:induction false} AllPast(rows: seq<SourceRow>, after: Key)
    ensures forall r :: r in Past(rows, after) ==> PastCursor(r, after)
  {
    if rows != [] { AllPast(rows[1..], after); }
  }

  // ---------- When the loop ends ----------

  datatype LoopState = Looping(cursor: Cursor) | Done(cursor: Cursor)

  /** One pass of the loop without `max_rows`, stop requests or errors. */
  function Pass(table: seq<SourceRow>, batch: nat, cursor: Cursor): LoopState {
    var page := Page(table, cursor, batch);
    if page == [] then Done(cursor)
    else if |page| < batch then Done(NextCursor(cursor, page))
    else Looping(NextCursor(cursor, page))
  }

  function Passes(table: seq<SourceRow>, batch: nat, n: nat): LoopState {
    if n == 0 then Looping(START)
    else
      match Passes(table, batch, n - 1)
      case Done(c) => Done(c)
      case Looping(c) => Pass(table, batch, c)
  }

  /** Empty application numbers sort first. */
  lemma {:induction false} EmptyAppsFirst(rows: seq<SourceRow>, i: nat)
    requires Sorted(rows) && i < |rows|
    ensures EmptyApps(rows) <= |rows|
    ensures rows[i].key.app == "" <==> i < EmptyApps(rows)
  {
    if rows[0].key.app != "" {
      NoEmptyAfter(rows);
    } else if i > 0 {
      EmptyAppsFirst(rows[1..], i - 1);
    } else {
      EmptyAppsBound(rows);
    }
  }

  lemma {:induction false} EmptyAppsBound(rows: seq<SourceRow>)
    ensures EmptyApps(rows) <= |rows|
  {
    if rows != [] { EmptyAppsBound(rows[1..]); }
  }

  lemma {:induction false} NoEmptyAfter(rows: seq<SourceRow>)
    requires Sorted(rows) && rows != [] && rows[0].key.app != ""
    ensures EmptyApps(rows) == 0
    ensures forall i :: 0 <= i < |rows| ==> rows[i].key.app != ""
  {
    if |rows| > 1 {
      assert KeyLess(rows[0].key, rows[1].key);
      NoEmptyAfter(rows[1..]);
      assert forall i :: 1 <= i < |rows| ==> rows[i] == rows[1..][i - 1];
    }
  }

  /** A pass from a usable cursor moves it by one batch, or to the last row and out of the loop. */
  lemma PassAdvances(table: seq<SourceRow>, batch: nat, i: nat)
    requires Sorted(table) && batch > 0 && i <= |EligibleRows(table)| && Usable(EligibleRows(table), i)
    ensures var rows := EligibleRows(table);
            Pass(table, batch, CursorAt(rows, i)) ==
              if i + batch <= |rows| then Looping(CursorAt(rows, i + batch)) else Done(CursorAt(rows, |rows|))
  {
    hide EligibleRows, Matching, Sorted, Page;
    PageIsNextSlice(table, i, batch);
    var rows := EligibleRows(table);
    var page := Page(table, CursorAt(rows, i), batch);
    if page != [] {
      assert page[|page| - 1] == rows[Min(i + batch, |rows|) - 1];
    }
  }

  lemma NextPass(table: seq<SourceRow>, batch: nat, n: nat, i: nat)
    requires Sorted(table) && batch > 0 && i <= |EligibleRows(table)| && Usable(EligibleRows(table), i)
    requires Passes(table, batch, n) == Looping(CursorAt(EligibleRows(table), i))
    ensures var rows := EligibleRows(table);
            Passes(table, batch, n + 1) ==
              if i + batch <= |rows| then Looping(CursorAt(rows, i + batch)) else Done(CursorAt(rows, |rows|))
  {
    PassAdvances(table, batch, i);
  }

  lemma BatchEndUsable(rows: seq<SourceRow>, batch: nat, i: nat)
    requires Sorted(rows) && batch > 0 && EmptyApps(rows) < batch && i + batch <= |rows|
    ensures Usable(rows, i + batch)
  {
    EmptyAppsFirst(rows, i + batch - 1);
  }

  lemma {:induction false} ReachesEnd(table: seq<SourceRow>, batch: nat, n: nat, i: nat) returns (m: nat)
    requires Sorted(table) && batch > 0 && EmptyApps(EligibleRows(table)) < batch
    requires i <= |EligibleRows(table)| && Usable(EligibleRows(table), i)
    requires Passes(table, batch, n) == Looping(CursorAt(EligibleRows(table), i))
    ensures Passes(table, batch, m) == Done(CursorAt(EligibleRows(table), |EligibleRows(table)|))
    decreases |EligibleRows(table)| - i
  {
    NextPass(table, batch, n, i);
    m := n + 1;
    if i + batch <= |EligibleRows(table)| {
      EligibleSorted(table);
      BatchEndUsable(EligibleRows(table), batch, i);
      m := ReachesEnd(table, batch, n + 1, i + batch);
    }
  }

  /** An empty application number makes the page query start over. */
  lemma FirstPage(table: seq<SourceRow>, limit: nat, cursor: Cursor)
    requires cursor.after.app == "" && limit <= |EligibleRows(table)|
    ensures Page(table, cursor, limit) == EligibleRows(table)[..limit]
  {
    MatchingIsPast(table, cursor.after);
    PastAll(EligibleRows(table), cursor.after);
  }

  /** With at least a batch of empty application numbers every pass reads the first page again,
      and the cursor counts its rows once more. */
  lemma {:induction false} RepeatsFirstPage(table: seq<SourceRow>, batch: nat, n: nat)
    requires Sorted(table) && batch > 0 && batch <= EmptyApps(EligibleRows(table))
    ensures Passes(table, batch, n).Looping? && Passes(table, batch, n).cursor.after.app == ""
    ensures Passes(table, batch, n).cursor.emitted == n * batch
  {
    hide EligibleRows, Matching, Sorted, Page, EmptyApps;
    if n > 0 {
      RepeatsFirstPage(table, batch, n - 1);
      var rows := EligibleRows(table);
      EligibleSorted(table);
      EmptyAppsBound(rows);
      EmptyAppsFirst(rows, batch - 1);
      FirstPage(table, batch, Passes(table, batch, n - 1).cursor);
    }
  }

  /** The loop ends exactly when fewer than `batch` eligible rows have an empty application
      number; it has then emitted every eligible row. */
  lemma EndsIffFewEmptyApps(table: seq<SourceRow>, batch: nat)
    requires Sorted(table) && batch > 0
    ensures (exists n: nat :: Passes(table, batch, n).Done?) <==> EmptyApps(EligibleRows(table)) < batch
    ensures EmptyApps(EligibleRows(table)) < batch ==>
              exists n: nat :: Passes(table, batch, n) == Done(CursorAt(EligibleRows(table), |EligibleRows(table)|))
  {
    if EmptyApps(EligibleRows(table)) < batch {
      var m := ReachesEnd(table, batch, 0, 0);
    } else {
      forall n: nat ensures !Passes(table, batch, n).Done? {
        RepeatsFirstPage(table, batch, n);
      }
    }
  }

  /** One eligible row with an empty application number and a batch size of one: no end. */
  lemma EmptyNumberLoops() returns (table: seq<SourceRow>)
    ensures |table| == 1 && table[0].key == Key("", "OWNER", "r") && Eligible(table[0])
    ensures Sorted(table) && forall n: nat :: !Passes(table, 1, n).Done?
  {
    table := [SourceRow(Key("", "OWNER", "r"), Some(7), "n", "n", "h", "h", 1, 0, false, true)];
    assert EligibleRows(table) == table by { assert table[1..] == [] && EligibleRows([]) == []; }
    assert EmptyApps(table) == 1 by { assert table[1..] == [] && EmptyApps([]) == 0; }
    EndsIffFewEmptyApps(table, 1);
  }
}
