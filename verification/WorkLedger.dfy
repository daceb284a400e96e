/** Durable work units: the joined key payload and the ledger shared by several jobs. */
module WorkLedger {
  import opened Common
  import opened Text

  const WORK_ENGINE_VERSION := "MARKORBIT_WORK_ENGINE_V1"

  datatype Identity = Identity(
    ownerScope: string,
    checkpointVersion: string,
    operationHash: string,
    partitionKind: string,
    lower: Option<string>,
    upper: Option<string>)

  /** A missing or empty bound is written as its infinity marker. */
  function Bound(bound: Option<string>, infinity: string): string {
    if bound.None? || bound.value == "" then infinity else bound.value
  }

  function Parts(u: Identity): seq<string> {
    [ WORK_ENGINE_VERSION, u.ownerScope, u.checkpointVersion, u.operationHash, u.partitionKind,
      Bound(u.lower, "-inf"), Bound(u.upper, "+inf") ]
  }

  function Join(parts: seq<string>): string {
    if parts == [] then ""
    else if |parts| == 1 then parts[0]
    else parts[0] + "|" + Join(parts[1..])
  }

  function KeyPayload(u: Identity): string { Join(Parts(u)) }

  predicate BarFree(s: string) { '|' !in s }

  predicate Clean(u: Identity) {
    && BarFree(u.ownerScope) && BarFree(u.checkpointVersion) && BarFree(u.operationHash) && BarFree(u.partitionKind)
    && (u.lower.Some? ==> BarFree(u.lower.value)) && (u.upper.Some? ==> BarFree(u.upper.value))
  }

  lemma {:induction false} FirstBar(a: string, b: string, x: string, y: string)
    requires BarFree(a) && BarFree(b) && a + "|" + x == b + "|" + y
    ensures a == b && x == y
  {
    var s, t := a + "|" + x, b + "|" + y;
    assert s[|a|] == '|' && t[|b|] == '|';
    assert forall i :: 0 <= i < |a| ==> s[i] == a[i] && a[i] in a;
    assert forall i :: 0 <= i < |b| ==> t[i] == b[i] && b[i] in b;
    assert a == s[..|a|] && b == t[..|b|];
    assert x == s[|a| + 1..] && y == t[|b| + 1..];
  }

  lemma {:induction false} JoinInjective(a: seq<string>, b: seq<string>)
    requires |a| == |b| && Join(a) == Join(b)
    requires forall i :: 0 <= i < |a| ==> BarFree(a[i]) && BarFree(b[i])
    ensures a == b
  {
    if |a| > 1 {
      FirstBar(a[0], b[0], Join(a[1..]), Join(b[1..]));
      JoinInjective(a[1..], b[1..]);
      assert a == [a[0]] + a[1..] && b == [b[0]] + b[1..];
    } else if |a| == 1 {
      assert a == [a[0]] && b == [b[0]];
    }
  }

  /** What the key payload identifies, for fields without a bar: a missing or empty bound is the
      same as the text of its infinity marker. */
  predicate SameUnit(u: Identity, v: Identity) {
    && u.ownerScope == v.ownerScope && u.checkpointVersion == v.checkpointVersion
    && u.operationHash == v.operationHash && u.partitionKind == v.partitionKind
    && Bound(u.lower, "-inf") == Bound(v.lower, "-inf") && Bound(u.upper, "+inf") == Bound(v.upper, "+inf")
  }

  lemma MarkersBarFree()
    ensures BarFree(WORK_ENGINE_VERSION) && BarFree("-inf") && BarFree("+inf")
  {
    assert forall i :: 0 <= i < |WORK_ENGINE_VERSION| ==> WORK_ENGINE_VERSION[i] != '|';
  }

  function Bars(s: string): nat {
    if s == "" then 0 else (if s[0] == '|' then 1 else 0) + Bars(s[1..])
  }

  lemma {:induction false} BarsConcat(a: string, b: string)
    ensures Bars(a + b) == Bars(a) + Bars(b)
  {
    if a == "" {
      assert a + b == b;
    } else {
      assert (a + b)[1..] == a[1..] + b;
      BarsConcat(a[1..], b);
    }
  }

  lemma {:induction false} NoBars(s: string)
    ensures Bars(s) == 0 <==> BarFree(s)
  {
    if s != "" {
      NoBars(s[1..]);
      assert s == [s[0]] + s[1..];
    }
  }

  /** The join has its own bars and those of its parts. */
  lemma {:induction false} JoinBars(parts: seq<string>)
    requires parts != []
    ensures Bars(Join(parts)) >= |parts| - 1
    ensures Bars(Join(parts)) == |parts| - 1 <==> forall i :: 0 <= i < |parts| ==> BarFree(parts[i])
  {
    NoBars(parts[0]);
    if |parts| > 1 {
      JoinBars(parts[1..]);
      BarsConcat(parts[0], "|");
      BarsConcat(parts[0] + "|", Join(parts[1..]));
      assert Bars("|") == 1 by { assert "|"[1..] == ""; }
      assert forall i :: 1 <= i < |parts| ==> parts[i] == parts[1..][i - 1];
      assert forall i :: 0 <= i < |parts| - 1 ==> parts[1..][i] == parts[i + 1];
    }
  }

  /** The payload of a unit without bars is that of no other unit, bars or not. */
  lemma KeyIdentifiesUnit(u: Identity, v: Identity)
    requires Clean(u)
    ensures KeyPayload(u) == KeyPayload(v) <==> SameUnit(u, v)
  {
    var a, b := Parts(u), Parts(v);
    if KeyPayload(u) == KeyPayload(v) {
      CleanParts(u);
      JoinBars(a);
      JoinBars(b);
      JoinInjective(a, b);
      assert a[1] == b[1] && a[2] == b[2] && a[3] == b[3] && a[4] == b[4] && a[5] == b[5] && a[6] == b[6];
    }
  }

  lemma CleanParts(u: Identity)
    requires Clean(u)
    ensures forall i :: 0 <= i < |Parts(u)| ==> BarFree(Parts(u)[i])
  {
    hide BarFree;
    MarkersBarFree();
  }

  predicate FieldsBarFree(u: Identity) {
    BarFree(u.ownerScope) && BarFree(u.checkpointVersion) && BarFree(u.operationHash) && BarFree(u.partitionKind)
  }

  /** A bar in the i-th part can be read as the end of that part or as the end of the next. */
  lemma {:induction false} ShiftBar(a: seq<string>, b: seq<string>, i: nat, x: string, y: string)
    requires |a| == |b| && i + 1 < |a|
    requires forall k :: 0 <= k < |a| && k != i && k != i + 1 ==> a[k] == b[k]
    requires a[i] == x + "|" + y && b[i] == x && b[i + 1] == y + "|" + a[i + 1]
    ensures Join(a) == Join(b)
  {
    if i > 0 {
      ShiftBar(a[1..], b[1..], i - 1, x, y);
    } else {
      JoinTail(a, 0);
      JoinTail(b, 0);
      if |a| == 2 {
        assert Join(a[1..]) == a[1] && Join(b[1..]) == b[1];
        assert x + "|" + y + "|" + a[1] == x + "|" + (y + "|" + a[1]);
      } else {
        JoinTail(a, 1);
        JoinTail(b, 1);
        assert a[2..] == b[2..];
        var rest := Join(a[2..]);
        assert x + "|" + y + "|" + (a[1] + "|" + rest) == x + "|" + (y + "|" + a[1] + "|" + rest);
      }
    }
  }

  lemma JoinTail(parts: seq<string>, i: nat)
    requires i + 1 < |parts|
    ensures Join(parts[i..]) == parts[i] + "|" + Join(parts[i + 1..]) && parts[0..] == parts
  {
    assert parts[i..][1..] == parts[i + 1..];
  }

  lemma SplitAtBar(s: string) returns (x: string, y: string)
    requires !BarFree(s)
    ensures s == x + "|" + y
  {
    var i :| 0 <= i < |s| && s[i] == '|';
    x, y := s[..i], s[i + 1..];
  }

  /** Every unit with a bar in a text field shares its payload with some other unit. */
  lemma BarsCollide(u: Identity) returns (v: Identity)
    requires !FieldsBarFree(u)
    ensures KeyPayload(u) == KeyPayload(v) && !SameUnit(u, v)
  {
    hide Join, BarFree;
    if !BarFree(u.ownerScope) {
      var x, y := SplitAtBar(u.ownerScope);
      v := u.(ownerScope := x, checkpointVersion := y + "|" + u.checkpointVersion);
      ShiftBar(Parts(u), Parts(v), 1, x, y);
      assert |x| < |u.ownerScope|;
    } else if !BarFree(u.checkpointVersion) {
      var x, y := SplitAtBar(u.checkpointVersion);
      v := u.(checkpointVersion := x, operationHash := y + "|" + u.operationHash);
      ShiftBar(Parts(u), Parts(v), 2, x, y);
      assert |x| < |u.checkpointVersion|;
    } else if !BarFree(u.operationHash) {
      var x, y := SplitAtBar(u.operationHash);
      v := u.(operationHash := x, partitionKind := y + "|" + u.partitionKind);
      ShiftBar(Parts(u), Parts(v), 3, x, y);
      assert |x| < |u.operationHash|;
    } else {
      var x, y := SplitAtBar(u.partitionKind);
      v := u.(operationHash := u.operationHash + "|" + x, partitionKind := y);
      ShiftBar(Parts(v), Parts(u), 3, u.operationHash, x);
      assert |y| < |u.partitionKind|;
    }
  }

  /** With bounds free of bars, the payload identifies the unit exactly when its four text fields
      are free of bars too. */
  lemma IdentifiesIffBarFree(u: Identity)
    requires (u.lower.Some? ==> BarFree(u.lower.value)) && (u.upper.Some? ==> BarFree(u.upper.value))
    ensures (forall v :: KeyPayload(u) == KeyPayload(v) ==> SameUnit(u, v)) <==> FieldsBarFree(u)
  {
    hide KeyPayload, SameUnit, BarFree;
    if FieldsBarFree(u) {
      forall v ensures KeyPayload(u) == KeyPayload(v) ==> SameUnit(u, v) { KeyIdentifiesUnit(u, v); }
    } else {
      var v := BarsCollide(u);
    }
  }

  /** A bound that no other value is written like. */
  predicate Definite(bound: Option<string>, infinity: string) {
    bound.Some? && bound.value != "" && bound.value != infinity
  }

  /** With bounds free of bars, the payload tells the unit from every other identity exactly when
      its text fields are free of bars, and both bounds are present and none is a marker's text. */
  lemma IdentifiesIffDefinite(u: Identity)
    requires (u.lower.Some? ==> BarFree(u.lower.value)) && (u.upper.Some? ==> BarFree(u.upper.value))
    ensures (forall v :: KeyPayload(u) == KeyPayload(v) ==> u == v) <==>
              FieldsBarFree(u) && Definite(u.lower, "-inf") && Definite(u.upper, "+inf")
  {
    hide KeyPayload, BarFree;
    if FieldsBarFree(u) && Definite(u.lower, "-inf") && Definite(u.upper, "+inf") {
      forall v ensures KeyPayload(u) == KeyPayload(v) ==> u == v { KeyIdentifiesUnit(u, v); }
    } else if !FieldsBarFree(u) {
      var v := BarsCollide(u);
    } else {
      var v := MarkersCollide(u);
    }
  }

  /** A bound that is missing, empty or its marker's text can be either of the others. */
  lemma MarkersCollide(u: Identity) returns (v: Identity)
    requires !Definite(u.lower, "-inf") || !Definite(u.upper, "+inf")
    ensures KeyPayload(u) == KeyPayload(v) && u != v
  {
    hide Join;
    if !Definite(u.lower, "-inf") {
      v := u.(lower := if u.lower.None? then Some("-inf") else if u.lower.value == "" then None else Some(""));
    } else {
      v := u.(upper := if u.upper.None? then Some("+inf") else if u.upper.value == "" then None else Some(""));
    }
  }

  // ---------- The ledger ----------

  datatype Status = Running | Success | Failed

  datatype Row = Row(status: Status, operationHash: string, index: int, total: int)

  /** Rows are kept per job and task key. */
  datatype Slot = Slot(job: string, key: string)

  datatype MarkError = JobRequired | InvalidProgress | PartitionKindRequired | Incomplete

  datatype Mark =
    | MarkRunning(slot: Slot, operationHash: string, index: int, total: int)
    | MarkSuccess(slot: Slot)
    | MarkFailed(slot: Slot)

  function Applied(rows: map<Slot, Row>, m: Mark): map<Slot, Row> {
    match m
    case MarkRunning(slot, operationHash, index, total) => rows[slot := Row(Running, operationHash, index, total)]
    case MarkSuccess(slot) => if slot in rows then rows[slot := rows[slot].(status := Success)] else rows
    case MarkFailed(slot) => if slot in rows then rows[slot := rows[slot].(status := Failed)] else rows
  }

  function AfterMarks(rows: map<Slot, Row>, marks: seq<Mark>): map<Slot, Row> {
    if marks == [] then rows else Applied(AfterMarks(rows, marks[..|marks| - 1]), marks[|marks| - 1])
  }

  predicate Succeeded(rows: map<Slot, Row>, slot: Slot, operationHash: string) {
    slot in rows && rows[slot].status == Success && rows[slot].operationHash == operationHash
  }

  /** The persistence shared by all stores. */
  class Ledger {
    var rows: map<Slot, Row>

    constructor ()
      ensures rows == map[]
    {
      rows := map[];
    }
  }

  /** One job's view of the ledger. */
  class Store {
    const job: string
    const ledger: Ledger

    constructor (job: string, ledger: Ledger)
      requires Strip(job) != ""
      ensures this.job == Strip(job) && this.ledger == ledger
    {
      this.job, this.ledger := Strip(job), ledger;
    }

    method IsSuccess(key: string, operationHash: string) returns (yes: bool)
      ensures yes == Succeeded(ledger.rows, Slot(job, key), operationHash)
    {
      var slot := Slot(job, key);
      yes := slot in ledger.rows && ledger.rows[slot].status == Success
             && ledger.rows[slot].operationHash == operationHash;
    }

    method Running(key: string, partitionKind: string, operationHash: string, index: int, total: int)
      returns (r: Result<(), MarkError>)
      modifies ledger
      ensures r == if index < 1 || total < 1 || index > total then Err(InvalidProgress)
                   else if Strip(partitionKind) == "" then Err(PartitionKindRequired) else Ok(())
      ensures ledger.rows == if r.Ok?
                             then Applied(old(ledger.rows), MarkRunning(Slot(job, key), operationHash, index, total))
                             else old(ledger.rows)
      ensures r.Ok? ==>
                ledger.rows == old(ledger.rows)[Slot(job, key) := Row(Status.Running, operationHash, index, total)]
    {
      if index < 1 || total < 1 || index > total { return Err(InvalidProgress); }
      if Strip(partitionKind) == "" { return Err(PartitionKindRequired); }
      ledger.rows := ledger.rows[Slot(job, key) := Row(Status.Running, operationHash, index, total)];
      return Ok(());
    }

    method Succeed(key: string)
      modifies ledger
      ensures ledger.rows == Applied(old(ledger.rows), MarkSuccess(Slot(job, key)))
    {
      var slot := Slot(job, key);
      if slot in ledger.rows { ledger.rows := ledger.rows[slot := ledger.rows[slot].(status := Success)]; }
    }

    method Fail(key: string)
      modifies ledger
      ensures ledger.rows == Applied(old(ledger.rows), MarkFailed(Slot(job, key)))
    {
      var slot := Slot(job, key);
      if slot in ledger.rows { ledger.rows := ledger.rows[slot := ledger.rows[slot].(status := Failed)]; }
    }
  }

  // ---------- The latest marks decide ----------

  /** The index of the last running mark on the slot, or -1. */
  ghost predicate LastRunning(marks: seq<Mark>, slot: Slot, k: int) {
    && 0 <= k < |marks| && marks[k].MarkRunning? && marks[k].slot == slot
    && forall j :: k < j < |marks| && marks[j].slot == slot ==> !marks[j].MarkRunning?
  }

  ghost predicate LastOf(marks: seq<Mark>, slot: Slot, k: int) {
    && 0 <= k < |marks| && marks[k].slot == slot
    && forall j :: k < j < |marks| ==> marks[j].slot != slot
  }

  /** Some running mark came with this operation, and the last mark, after it, is success. */
  ghost predicate LatestIsSuccess(marks: seq<Mark>, slot: Slot, operationHash: string) {
    exists run, last :: LastRunning(marks, slot, run) && LastOf(marks, slot, last) && run < last
                        && marks[run].operationHash == operationHash && marks[last].MarkSuccess?
  }

  function StatusFrom(m: Mark): Status {
    match m
    case MarkRunning(_, _, _, _) => Running
    case MarkSuccess(_) => Success
    case MarkFailed(_) => Failed
  }

  /** What one more mark does to the latest ones. */
  lemma LatestExtends(marks: seq<Mark>, slot: Slot)
    requires marks != []
    ensures var n := |marks| - 1;
            var init, m := marks[..n], marks[n];
            && (forall k :: LastRunning(init, slot, k) && !(m.slot == slot && m.MarkRunning?) ==>
                 LastRunning(marks, slot, k))
            && (forall k :: LastOf(init, slot, k) && m.slot != slot ==> LastOf(marks, slot, k))
            && (forall k :: LastRunning(marks, slot, k) && k < n ==> LastRunning(init, slot, k))
            && (m.slot == slot ==> LastOf(marks, slot, n) && (m.MarkRunning? ==> LastRunning(marks, slot, n)))
  {
    var n := |marks| - 1;
    assert forall j :: 0 <= j < n ==> marks[j] == marks[..n][j];
  }

  /** The row of a slot follows the marks on that slot alone. */
  lemma {:induction false} RowFollowsMarks(marks: seq<Mark>, slot: Slot)
    ensures var rows := AfterMarks(map[], marks);
            if slot in rows then
              && (exists run :: LastRunning(marks, slot, run) && rows[slot].operationHash == marks[run].operationHash)
              && (exists last :: LastOf(marks, slot, last) && rows[slot].status == StatusFrom(marks[last]))
            else forall run :: !LastRunning(marks, slot, run)
  {
    if marks != [] {
      RowFollowsMarks(marks[..|marks| - 1], slot);
      LatestExtends(marks, slot);
    }
  }

  lemma LatestIsUnique(marks: seq<Mark>, slot: Slot)
    ensures forall i, j :: LastRunning(marks, slot, i) && LastRunning(marks, slot, j) ==> i == j
    ensures forall i, j :: LastOf(marks, slot, i) && LastOf(marks, slot, j) ==> i == j
    ensures forall i, j :: LastRunning(marks, slot, i) && LastOf(marks, slot, j) ==> i <= j
  {
  }

  /** Over any interleaving of marks from any jobs, a unit counts as done exactly when its own
      latest running mark carries the operation and its own last mark is a later success. */
  lemma SuccessIffLatestMark(marks: seq<Mark>, slot: Slot, operationHash: string)
    ensures Succeeded(AfterMarks(map[], marks), slot, operationHash) <==> LatestIsSuccess(marks, slot, operationHash)
  {
    hide AfterMarks;
    RowFollowsMarks(marks, slot);
    var rows := AfterMarks(map[], marks);
    if slot in rows {
      var run :| LastRunning(marks, slot, run) && rows[slot].operationHash == marks[run].operationHash;
      var last :| LastOf(marks, slot, last) && rows[slot].status == StatusFrom(marks[last]);
      LatestDecide(marks, slot, operationHash, run, last);
    }
  }

  /** The latest marks are unique, so any of them decide. */
  lemma LatestDecide(marks: seq<Mark>, slot: Slot, operationHash: string, run: int, last: int)
    requires LastRunning(marks, slot, run) && LastOf(marks, slot, last)
    ensures LatestIsSuccess(marks, slot, operationHash) <==>
              marks[run].operationHash == operationHash && StatusFrom(marks[last]) == Success
  {
    LatestIsUnique(marks, slot);
    if marks[run].operationHash == operationHash && StatusFrom(marks[last]) == Success {
      assert run < last;
    }
  }

  /** Marks on other units of the job, told apart by a collision-free digest of their keys, and
      marks of other jobs change nothing. */
  lemma OtherUnitsUntouched(digest: string -> string, rows: map<Slot, Row>, m: Mark, job: string, u: Identity,
                            v: Identity, other: string)
    requires forall a, b :: digest(a) == digest(b) ==> a == b
    requires Clean(u) && (job != other || !SameUnit(u, v))
    requires m.slot == Slot(other, digest(KeyPayload(v)))
    ensures var slot := Slot(job, digest(KeyPayload(u)));
            && (slot in rows <==> slot in Applied(rows, m))
            && (slot in rows ==> Applied(rows, m)[slot] == rows[slot])
  {
    KeyIdentifiesUnit(u, v);
  }

  // ---------- Traces of calls for units ----------

  datatype Call = Call(job: string, unit: Identity, kind: Kind)

  datatype Kind = Starts(operationHash: string, index: int, total: int) | Succeeds | Fails

  function MarkOf(digest: string -> string, c: Call): Mark {
    var slot := Slot(c.job, digest(KeyPayload(c.unit)));
    match c.kind
    case Starts(operationHash, index, total) => MarkRunning(slot, operationHash, index, total)
    case Succeeds => MarkSuccess(slot)
    case Fails => MarkFailed(slot)
  }

  function MarksOf(digest: string -> string, calls: seq<Call>): (marks: seq<Mark>)
    ensures |marks| == |calls|
  {
    seq(|calls|, i requires 0 <= i < |calls| => MarkOf(digest, calls[i]))
  }

  predicate Own(c: Call, job: string, u: Identity) {
    c.job == job && SameUnit(u, c.unit)
  }

  ghost predicate LastStart(calls: seq<Call>, job: string, u: Identity, k: int) {
    && 0 <= k < |calls| && Own(calls[k], job, u) && calls[k].kind.Starts?
    && forall j :: k < j < |calls| && Own(calls[j], job, u) ==> !calls[j].kind.Starts?
  }

  ghost predicate LastCall(calls: seq<Call>, job: string, u: Identity, k: int) {
    && 0 <= k < |calls| && Own(calls[k], job, u)
    && forall j :: k < j < |calls| ==> !Own(calls[j], job, u)
  }

  /** The job's last start of the unit came with this operation, and its last call is success. */
  ghost predicate UnitIsDone(calls: seq<Call>, job: string, u: Identity, operationHash: string) {
    exists start, last :: LastStart(calls, job, u, start) && LastCall(calls, job, u, last) && start < last
                          && calls[start].kind.operationHash == operationHash && calls[last].kind.Succeeds?
  }

  lemma OwnSlots(digest: string -> string, calls: seq<Call>, job: string, u: Identity, k: int)
    requires (forall a, b :: digest(a) == digest(b) ==> a == b) && Clean(u) && 0 <= k < |calls|
    ensures MarksOf(digest, calls)[k].slot == Slot(job, digest(KeyPayload(u))) <==> Own(calls[k], job, u)
  {
    KeyIdentifiesUnit(u, calls[k].unit);
  }

  /** Over any interleaving of calls of any jobs for any units, a unit without bars counts as done
      exactly when that job's own last start of it carried the operation and its own last call,
      after that, was success. */
  lemma UnitDoneIffLatestCalls(digest: string -> string, calls: seq<Call>, job: string, u: Identity,
                               operationHash: string)
    requires (forall a, b :: digest(a) == digest(b) ==> a == b) && Clean(u)
    ensures Succeeded(AfterMarks(map[], MarksOf(digest, calls)), Slot(job, digest(KeyPayload(u))), operationHash)
            <==> UnitIsDone(calls, job, u, operationHash)
  {
    hide KeyPayload, SameUnit, Clean, AfterMarks, Succeeded, Own;
    var marks, slot := MarksOf(digest, calls), Slot(job, digest(KeyPayload(u)));
    SuccessIffLatestMark(marks, slot, operationHash);
    forall k | 0 <= k < |calls| ensures marks[k].slot == slot <==> Own(calls[k], job, u) {
      OwnSlots(digest, calls, job, u, k);
    }
    assert forall k :: LastRunning(marks, slot, k) <==> LastStart(calls, job, u, k);
    assert forall k :: LastOf(marks, slot, k) <==> LastCall(calls, job, u, k);
  }
}
