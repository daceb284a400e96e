/** The admin rows of `control.job_run` and the five transactions on them.
    Each transaction is one atomic step; `now` is the timestamp of its transaction. */
module AdminTaskTable {
  import opened Common

  type RunId = nat  // a uuid, of which only equality and order matter
  type Time = int

  datatype Domain = CN | USApplication | USAssignment | USTTAB
  datatype Action = Run | Retry | Continue
  datatype Status = Queued | Running | Success | Failed | Blocked | Interrupted

  datatype Job = Job(
    domain: Domain,
    action: Action,
    historyParts: int,
    status: Status,
    startedAt: Time,
    finishedAt: Option<Time>,
    stopRequested: bool)
  {
    predicate Active() { status.Queued? || status.Running? }
    predicate Terminal() { !Active() }
  }

  type Table = map<RunId, Job>

  datatype QueueError = UnsupportedDomain | UnsupportedAction | HistoryPartsRequired | TooManyHistoryParts
  datatype QueueReply = Accepted(id: RunId) | Rejected(existing: RunId)

  const MAX_HISTORY_PARTS := 9999

  /** The names are compared after the caller's strip and upper-casing. */
  function DomainNamed(name: string): Option<Domain> {
    if name == "CN" then Some(CN)
    else if name == "US_APPLICATION" then Some(USApplication)
    else if name == "US_ASSIGNMENT" then Some(USAssignment)
    else if name == "US_TTAB" then Some(USTTAB)
    else None
  }

  function ActionNamed(name: string): Option<Action> {
    if name == "RUN" then Some(Run)
    else if name == "RETRY" then Some(Retry)
    else if name == "CONTINUE" then Some(Continue)
    else None
  }

  function CheckRequest(domainName: string, actionName: string, parts: int): Result<(Domain, Action), QueueError> {
    match DomainNamed(domainName)
    case None => Err(UnsupportedDomain)
    case Some(domain) =>
      match ActionNamed(actionName)
      case None => Err(UnsupportedAction)
      case Some(action) =>
        if domain != CN && parts < 1 then Err(HistoryPartsRequired)
        else if parts > MAX_HISTORY_PARTS then Err(TooManyHistoryParts)
        else Ok((domain, action))
  }

  function DomainName(d: Domain): string {
    match d
    case CN => "CN"
    case USApplication => "US_APPLICATION"
    case USAssignment => "US_ASSIGNMENT"
    case USTTAB => "US_TTAB"
  }

  function ActionName(a: Action): string {
    match a
    case Run => "RUN"
    case Retry => "RETRY"
    case Continue => "CONTINUE"
  }

  lemma NamesAreExact(name: string)
    ensures forall d :: DomainNamed(name) == Some(d) <==> name == DomainName(d)
    ensures forall a :: ActionNamed(name) == Some(a) <==> name == ActionName(a)
  {
    assert "US_APPLICATION"[4] != "US_ASSIGNMENT"[4];
  }

  /** Which requests are accepted, as what, and which error comes first. */
  lemma RequestRules(domainName: string, actionName: string, parts: int)
    ensures forall d, a :: CheckRequest(domainName, actionName, parts) == Ok((d, a)) <==>
              domainName == DomainName(d) && actionName == ActionName(a) && (d == CN || 1 <= parts) && parts <= 9999
    ensures CheckRequest(domainName, actionName, parts) == Err(UnsupportedDomain) <==>
              forall d :: domainName != DomainName(d)
    ensures CheckRequest(domainName, actionName, parts) == Err(UnsupportedAction) <==>
              (exists d :: domainName == DomainName(d)) && forall a :: actionName != ActionName(a)
    ensures CheckRequest(domainName, actionName, parts) == Err(HistoryPartsRequired) <==>
              && (exists d :: d != CN && domainName == DomainName(d))
              && (exists a :: actionName == ActionName(a)) && parts < 1
  {
    hide DomainNamed, ActionNamed, DomainName, ActionName;
    NamesAreExact(domainName);
    NamesAreExact(actionName);
    if DomainNamed(domainName).Some? { assert domainName == DomainName(DomainNamed(domainName).value); }
    if ActionNamed(actionName).Some? { assert actionName == ActionName(ActionNamed(actionName).value); }
  }

  // ---------- What each transaction selects ----------

  predicate ActiveIn(rows: Table, domain: Domain, id: RunId) {
    id in rows && rows[id].domain == domain && rows[id].Active()
  }

  predicate Stoppable(rows: Table, domain: Domain, id: RunId) {
    ActiveIn(rows, domain, id) && rows[id].action == Continue
  }

  function ActiveRows(rows: Table, domain: Domain): set<RunId> {
    set id | id in rows && ActiveIn(rows, domain, id)
  }

  function StoppableRows(rows: Table, domain: Domain): set<RunId> {
    set id | id in rows && Stoppable(rows, domain, id)
  }

  /** ORDER BY started_at LIMIT 1 over the rows a request for the domain sees. */
  predicate IsOldest(rows: Table, ids: set<RunId>, id: RunId) {
    && id in ids
    && ids <= rows.Keys
    && forall other :: other in ids ==> rows[id].startedAt <= rows[other].startedAt
  }

  /** ORDER BY started_at, run_id. */
  predicate Before(a: Job, i: RunId, b: Job, j: RunId) {
    a.startedAt < b.startedAt || (a.startedAt == b.startedAt && i < j)
  }

  predicate IsQueued(rows: Table, id: RunId) {
    id in rows && rows[id].status == Queued
  }

  predicate IsNext(rows: Table, id: RunId) {
    && IsQueued(rows, id)
    && forall other :: other in rows && IsQueued(rows, other) && other != id ==>
        Before(rows[id], id, rows[other], other)
  }

  // ---------- What each transaction writes ----------

  function NewJob(domain: Domain, action: Action, parts: int, now: Time): Job {
    Job(domain, action, parts, Queued, now, None, false)
  }

  function StoppedJob(j: Job, now: Time): Job {
    if j.status == Queued
    then j.(status := Interrupted, finishedAt := Some(now), stopRequested := true)
    else j.(stopRequested := true)
  }

  function RecoveredJob(j: Job, now: Time): Job {
    if j.status != Running then j
    else if j.stopRequested then j.(status := Interrupted, finishedAt := Some(now))
    else j.(status := Queued, finishedAt := None)
  }

  function RecoverRows(rows: Table, now: Time): Table {
    map id | id in rows :: RecoveredJob(rows[id], now)
  }

  function ClaimedJob(j: Job, now: Time): Job {
    j.(status := Running, startedAt := now, finishedAt := None)
  }

  function FinishedJob(j: Job, outcome: Status, now: Time): Job {
    j.(status := outcome, finishedAt := Some(now))
  }

  /** An UPDATE whose key matches no row changes nothing. */
  function FinishRows(rows: Table, id: RunId, outcome: Status, now: Time): Table {
    if id in rows then rows[id := FinishedJob(rows[id], outcome, now)] else rows
  }

  // ---------- Existence of the selected rows ----------

  lemma {:induction false} OldestExists(rows: Table, ids: set<RunId>)
    requires ids != {} && ids <= rows.Keys
    ensures exists id :: IsOldest(rows, ids, id)
    decreases |ids|
  {
    var id :| id in ids;
    var rest := ids - {id};
    if rest == {} {
      assert ids == {id};
      assert IsOldest(rows, ids, id);
    } else {
      OldestExists(rows, rest);
      var least :| IsOldest(rows, rest, least);
      assert forall other :: other in ids ==> other == id || other in rest;
      assert IsOldest(rows, ids, if rows[id].startedAt <= rows[least].startedAt then id else least);
    }
  }

  lemma {:induction false} FirstExists(rows: Table, ids: set<RunId>) returns (first: RunId)
    requires ids != {} && ids <= rows.Keys
    ensures first in ids
    ensures forall other :: other in ids && other != first ==> Before(rows[first], first, rows[other], other)
    decreases |ids|
  {
    first :| first in ids;
    var rest := ids - {first};
    if rest != {} {
      var least := FirstExists(rows, rest);
      if Before(rows[least], least, rows[first], first) {
        first := least;
      }
    }
  }

  /** The claim finds a row exactly when some row is QUEUED, and it is then unique. */
  lemma NextExists(rows: Table, id: RunId)
    requires IsQueued(rows, id)
    ensures exists next :: IsNext(rows, next)
    ensures forall a, b :: IsNext(rows, a) && IsNext(rows, b) ==> a == b
  {
    var queued := set i | i in rows && IsQueued(rows, i);
    assert id in queued;
    var next := FirstExists(rows, queued);
    assert IsNext(rows, next);
  }

  // ---------- The table as the transactions update it ----------

  class JobTable {
    var rows: Table

    constructor ()
      ensures rows == map[]
    {
      rows := map[];
    }

    method QueueTask(domainName: string, actionName: string, parts: int, freshId: RunId, now: Time)
      returns (r: Result<QueueReply, QueueError>)
      requires freshId !in rows  // the primary key is generated by the database
      modifies this
      ensures match CheckRequest(domainName, actionName, parts)
              case Err(e) => r == Err(e) && rows == old(rows)
              case Ok((domain, action)) =>
                var active := ActiveRows(old(rows), domain);
                if active == {}
                then r == Ok(Accepted(freshId)) && rows == old(rows)[freshId := NewJob(domain, action, parts, now)]
                else rows == old(rows) && r.Ok? && r.value.Rejected? && IsOldest(rows, active, r.value.existing)
      ensures r.Ok? && r.value.Rejected? ==>
                && r.value.existing in old(rows)
                && var j := old(rows)[r.value.existing];
                   && (j.status == Queued || j.status == Running)
                   && forall id :: id in old(rows) && old(rows)[id].domain == j.domain
                                   && (old(rows)[id].status == Queued || old(rows)[id].status == Running) ==>
                        j.startedAt <= old(rows)[id].startedAt
    {
      match CheckRequest(domainName, actionName, parts) {
        case Err(e) => return Err(e);
        case Ok((domain, action)) =>
          var active := ActiveRows(rows, domain);
          if active != {} {
            OldestExists(rows, active);
            var existing :| existing in active && IsOldest(rows, active, existing);
            return Ok(Rejected(existing));
          }
          rows := rows[freshId := NewJob(domain, action, parts, now)];
          return Ok(Accepted(freshId));
      }
    }

    method RequestStop(domainName: string, now: Time) returns (r: Result<Option<RunId>, QueueError>)
      modifies this
      ensures match DomainNamed(domainName)
              case None => r == Err(UnsupportedDomain) && rows == old(rows)
              case Some(domain) =>
                var found := StoppableRows(old(rows), domain);
                if found == {} then r == Ok(None) && rows == old(rows)
                else
                  && r.Ok? && r.value.Some?
                  && IsOldest(old(rows), found, r.value.value)
                  && rows == old(rows)[r.value.value := StoppedJob(old(rows)[r.value.value], now)]
      ensures r.Ok? && r.value.Some? ==>
                && r.value.value in old(rows)
                && var id, j := r.value.value, old(rows)[r.value.value];
                   && DomainNamed(domainName) == Some(j.domain) && j.action == Continue
                   && (j.status == Queued || j.status == Running)
                   && (forall other :: other in old(rows) && old(rows)[other].domain == j.domain
                                       && old(rows)[other].action == Continue
                                       && (old(rows)[other].status == Queued || old(rows)[other].status == Running) ==>
                         j.startedAt <= old(rows)[other].startedAt)
                   && rows == if j.status == Queued
                              then old(rows)[id := Job(j.domain, Continue, j.historyParts, Interrupted, j.startedAt,
                                                       Some(now), true)]
                              else old(rows)[id := Job(j.domain, Continue, j.historyParts, Running, j.startedAt,
                                                       j.finishedAt, true)]
    {
      match DomainNamed(domainName) {
        case None => return Err(UnsupportedDomain);
        case Some(domain) =>
          var found := StoppableRows(rows, domain);
          if found == {} { return Ok(None); }
          OldestExists(rows, found);
          var id :| id in found && IsOldest(rows, found, id);
          if rows[id].status == Queued {
            rows := rows[id := rows[id].(status := Interrupted, finishedAt := Some(now), stopRequested := true)];
          } else {
            rows := rows[id := rows[id].(stopRequested := true)];
          }
          return Ok(Some(id));
      }
    }

    /** The two UPDATE statements of one recovery transaction, in the source's order. */
    method Recover(now: Time) returns (requeued: nat)
      modifies this
      ensures rows == RecoverRows(old(rows), now)
      ensures requeued == |set id | id in old(rows) && old(rows)[id].status == Running && !old(rows)[id].stopRequested|
    {
      rows := map id | id in rows ::
        if rows[id].status == Running && rows[id].stopRequested
        then rows[id].(status := Interrupted, finishedAt := Some(now))
        else rows[id];
      var running := set id | id in rows && rows[id].status == Running;
      requeued := |running|;
      assert running == set id | id in old(rows) && old(rows)[id].status == Running && !old(rows)[id].stopRequested;
      rows := map id | id in rows ::
        if id in running then rows[id].(status := Queued, finishedAt := None) else rows[id];
    }

    method ClaimNext(now: Time) returns (r: Option<RunId>)
      modifies this
      ensures r.None? ==> rows == old(rows) && forall id :: !IsQueued(rows, id)
      ensures r.Some? ==> IsNext(old(rows), r.value)
                          && rows == old(rows)[r.value := ClaimedJob(old(rows)[r.value], now)]
      ensures r.Some? ==>
                && r.value in old(rows)
                && var j := old(rows)[r.value];
                   && j.status == Queued
                   && (forall id :: id in old(rows) && old(rows)[id].status == Queued ==>
                         j.startedAt <= old(rows)[id].startedAt
                         && (j.startedAt == old(rows)[id].startedAt ==> r.value <= id))
                   && rows == old(rows)[r.value :=
                                Job(j.domain, j.action, j.historyParts, Running, now, None, j.stopRequested)]
    {
      var queued := set id | id in rows && IsQueued(rows, id);
      if queued == {} {
        assert forall id :: IsQueued(rows, id) ==> id in queued;
        return None;
      }
      var any :| any in queued;
      NextExists(rows, any);
      var id :| id in queued && IsNext(rows, id);
      rows := rows[id := ClaimedJob(rows[id], now)];
      return Some(id);
    }

    method Finish(id: RunId, outcome: Status, now: Time)
      modifies this
      ensures rows == FinishRows(old(rows), id, outcome, now)
      ensures id !in old(rows) ==> rows == old(rows)
      ensures id in old(rows) ==>
                var j := old(rows)[id];
                rows == old(rows)[id :=
                          Job(j.domain, j.action, j.historyParts, outcome, j.startedAt, Some(now), j.stopRequested)]
    {
      if id in rows {
        rows := rows[id := rows[id].(status := outcome, finishedAt := Some(now))];
      }
    }
  }
}
