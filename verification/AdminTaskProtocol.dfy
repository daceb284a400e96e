/** Worker processes, the session mutation lock and the job table, as a step machine.
    Any number of workers run `main`; a worker can crash between any two steps. */
module AdminTaskProtocol {
  import opened Common
  import opened AdminTaskTable

  type Worker = nat

  /** Where a worker stands in the loop of `main`. `stopSeen` records that a package
      boundary of the running task read a set stop flag. */
  datatype Pc = Down | Idle | Holding | Executing(run: RunId, stopSeen: bool) | Scanning | Releasing
  {
    predicate InsideGuard() { !Down? && !Idle? }
  }

  datatype State = State(rows: Table, lock: Option<Worker>, pcs: map<Worker, Pc>)
  {
    function PcOf(w: Worker): Pc { if w in pcs then pcs[w] else Down }
  }

  datatype Step =
    | Queue(domain: Domain, action: Action, parts: int, id: RunId, now: Time)
    | Stop(domain: Domain, id: RunId, now: Time)
    | Recover(w: Worker, now: Time)             // start-up of a worker process
    | Acquire(w: Worker)                        // try-lock; fails when another session holds it
    | Claim(w: Worker, id: RunId, now: Time)
    | Boundary(w: Worker)                       // a continuous replay reads its stop flag
    | Finish(w: Worker, outcome: Status, now: Time)
    | Abandon(w: Worker)                        // writing the outcome itself failed
    | Scan(w: Worker)                           // the scheduled CN cycle
    | EndScan(w: Worker)
    | Release(w: Worker)
    | Crash(w: Worker)                          // the session ends, so its lock is released

  ghost predicate Enabled(s: State, step: Step) {
    match step
    case Queue(domain, action, parts, id, now) => id !in s.rows
    case Stop(domain, id, now) => IsOldest(s.rows, StoppableRows(s.rows, domain), id)
    case Recover(w, now) => s.PcOf(w).Down?
    case Acquire(w) => s.PcOf(w).Idle?
    case Claim(w, id, now) => s.PcOf(w).Holding? && IsNext(s.rows, id)
    case Boundary(w) => s.PcOf(w).Executing? && s.PcOf(w).run in s.rows && s.rows[s.PcOf(w).run].action == Continue
    case Finish(w, outcome, now) =>
      && s.PcOf(w).Executing?
      && outcome in {Success, Failed, Blocked, Interrupted}
      && (outcome == Interrupted ==> s.PcOf(w).stopSeen)
    case Abandon(w) => s.PcOf(w).Executing?
    case Scan(w) => s.PcOf(w).Holding? && forall id :: !IsQueued(s.rows, id)
    case EndScan(w) => s.PcOf(w).Scanning?
    case Release(w) => s.PcOf(w).Holding? || s.PcOf(w).Releasing?
    case Crash(w) => true
  }

  ghost function Apply(s: State, step: Step): State
    requires Enabled(s, step)
  {
    match step
    case Queue(domain, action, parts, id, now) =>
      if exists i :: ActiveIn(s.rows, domain, i) then s
      else s.(rows := s.rows[id := NewJob(domain, action, parts, now)])
    case Stop(domain, id, now) => s.(rows := s.rows[id := StoppedJob(s.rows[id], now)])
    case Recover(w, now) => s.(rows := RecoverRows(s.rows, now), pcs := s.pcs[w := Idle])
    case Acquire(w) => if s.lock.None? then s.(lock := Some(w), pcs := s.pcs[w := Holding]) else s
    case Claim(w, id, now) =>
      s.(rows := s.rows[id := ClaimedJob(s.rows[id], now)], pcs := s.pcs[w := Executing(id, false)])
    case Boundary(w) =>
      var pc := s.PcOf(w);
      s.(pcs := s.pcs[w := pc.(stopSeen := pc.stopSeen || s.rows[pc.run].stopRequested)])
    case Finish(w, outcome, now) =>
      s.(rows := FinishRows(s.rows, s.PcOf(w).run, outcome, now), pcs := s.pcs[w := Releasing])
    case Abandon(w) => s.(pcs := s.pcs[w := Releasing])
    case Scan(w) => s.(pcs := s.pcs[w := Scanning])
    case EndScan(w) => s.(pcs := s.pcs[w := Releasing])
    case Release(w) => s.(lock := None, pcs := s.pcs[w := Idle])
    case Crash(w) => s.(lock := if s.lock == Some(w) then None else s.lock, pcs := s.pcs[w := Down])
  }

  ghost predicate Valid(s: State, steps: seq<Step>)
    decreases |steps|
  {
    steps != [] ==> Enabled(s, steps[0]) && Valid(Apply(s, steps[0]), steps[1..])
  }

  ghost function After(s: State, steps: seq<Step>): State
    requires Valid(s, steps)
    decreases |steps|
  {
    if steps == [] then s else After(Apply(s, steps[0]), steps[1..])
  }

  const INITIAL := State(map[], None, map[])

  // ---------- What each step does to the table, field by field ----------

  /** The rows but `id` are as before. */
  ghost predicate OthersKept(s: State, s': State, id: RunId) {
    && s'.rows.Keys == s.rows.Keys + {id}
    && forall other :: other in s.rows && other != id ==> s'.rows[other] == s.rows[other]
  }

  lemma QueueWrites(s: State, step: Step)
    requires Enabled(s, step) && step.Queue?
    ensures var s' := Apply(s, step);
            if exists i :: i in s.rows && s.rows[i].domain == step.domain
                           && (s.rows[i].status == Queued || s.rows[i].status == Running)
            then s' == s
            else
              && OthersKept(s, s', step.id)
              && s'.rows[step.id] == Job(step.domain, step.action, step.parts, Queued, step.now, None, false)
  {
    if i :| i in s.rows && s.rows[i].domain == step.domain && s.rows[i].status in {Queued, Running} {
      assert ActiveIn(s.rows, step.domain, i);
    }
  }

  lemma StopWrites(s: State, step: Step)
    requires Enabled(s, step) && step.Stop?
    ensures var s' := Apply(s, step);
            && step.id in s.rows && OthersKept(s, s', step.id)
            && var before, after := s.rows[step.id], s'.rows[step.id];
               && before.domain == step.domain && before.action == Continue
               && after.startedAt == before.startedAt && after.stopRequested
               && (before.status == Queued ==> after.status == Interrupted && after.finishedAt == Some(step.now))
               && (before.status != Queued ==>
                     before.status == Running && after.status == Running && after.finishedAt == before.finishedAt)
  {
  }

  lemma RecoverWrites(s: State, step: Step)
    requires Enabled(s, step) && step.Recover?
    ensures var s' := Apply(s, step);
            && s'.rows.Keys == s.rows.Keys
            && forall id :: id in s.rows ==>
                 var before, after := s.rows[id], s'.rows[id];
                 && after.startedAt == before.startedAt && after.stopRequested == before.stopRequested
                 && (before.status != Running ==> after == before)
                 && (before.status == Running && before.stopRequested ==>
                       after.status == Interrupted && after.finishedAt == Some(step.now))
                 && (before.status == Running && !before.stopRequested ==>
                       after.status == Queued && after.finishedAt == None)
  {
  }

  lemma ClaimWrites(s: State, step: Step)
    requires Enabled(s, step) && step.Claim?
    ensures var s' := Apply(s, step);
            && step.id in s.rows && OthersKept(s, s', step.id) && s'.PcOf(step.w) == Executing(step.id, false)
            && s.rows[step.id].status == Queued
            && (forall id :: id in s.rows && s.rows[id].status == Queued ==>
                  s.rows[step.id].startedAt <= s.rows[id].startedAt)
            && s'.rows[step.id].status == Running && s'.rows[step.id].startedAt == step.now
            && s'.rows[step.id].finishedAt == None && s'.rows[step.id].stopRequested == s.rows[step.id].stopRequested
  {
  }

  /** The executing worker's row gets the outcome and nothing else changes. */
  lemma FinishWrites(s: State, step: Step)
    requires WorkerInv(s) && Enabled(s, step) && step.Finish?
    ensures var s', id := Apply(s, step), s.PcOf(step.w).run;
            && id in s.rows && OthersKept(s, s', id)
            && s'.rows[id].status == step.outcome && s'.rows[id].finishedAt == Some(step.now)
            && s'.rows[id].startedAt == s.rows[id].startedAt && s'.rows[id].stopRequested == s.rows[id].stopRequested
            && s'.rows[id].domain == s.rows[id].domain && s'.rows[id].action == s.rows[id].action
            && s'.rows[id].historyParts == s.rows[id].historyParts
  {
  }

  /** All other steps leave the table alone. */
  lemma OthersWriteNothing(s: State, step: Step)
    requires Enabled(s, step)
    requires !step.Queue? && !step.Stop? && !step.Recover? && !step.Claim? && !step.Finish?
    ensures Apply(s, step).rows == s.rows
  {
  }

  // ---------- Safety over all runs ----------

  ghost predicate OneActivePerDomain(rows: Table) {
    forall i, j :: i in rows && j in rows && rows[i].Active() && rows[j].Active() && rows[i].domain == rows[j].domain
      ==> i == j
  }

  ghost predicate RowInv(j: Job) {
    && (j.stopRequested ==> j.action == Continue && j.status != Queued)
    && (j.status == Interrupted ==> j.stopRequested)
    && (j.finishedAt.Some? <==> j.Terminal())
  }

  /** Only the lock holder is inside the guard, and an executing worker's row is in the table. */
  ghost predicate WorkerInv(s: State) {
    && (forall w :: w in s.pcs && s.pcs[w].InsideGuard() ==> s.lock == Some(w))
    && (s.lock.Some? ==> s.lock.value in s.pcs && s.pcs[s.lock.value].InsideGuard())
    && (forall w :: w in s.pcs && s.pcs[w].Executing? ==>
          && s.pcs[w].run in s.rows
          && (s.pcs[w].stopSeen ==> s.rows[s.pcs[w].run].stopRequested))
  }

  ghost predicate Inv(s: State) {
    && OneActivePerDomain(s.rows)
    && (forall id :: id in s.rows ==> RowInv(s.rows[id]))
    && WorkerInv(s)
  }

  lemma StepKeepsOneActive(s: State, step: Step)
    requires OneActivePerDomain(s.rows) && Enabled(s, step)
    ensures OneActivePerDomain(Apply(s, step).rows)
  {
    var s' := Apply(s, step);
    if step.Queue? {
      if s' != s {
        assert forall i :: i in s.rows && s.rows[i].Active() ==> ActiveIn(s.rows, s.rows[i].domain, i);
      }
    } else {
      assert forall id :: id in s'.rows ==>
        id in s.rows && s'.rows[id].domain == s.rows[id].domain && (s'.rows[id].Active() ==> s.rows[id].Active());
    }
  }

  lemma StepKeepsRowInv(s: State, step: Step)
    requires Inv(s) && Enabled(s, step)
    ensures forall id :: id in Apply(s, step).rows ==> RowInv(Apply(s, step).rows[id])
  {
  }

  lemma StepKeepsWorkerInv(s: State, step: Step)
    requires WorkerInv(s) && Enabled(s, step)
    ensures WorkerInv(Apply(s, step))
  {
    var s' := Apply(s, step);
    assert forall id :: id in s.rows ==> id in s'.rows && (s.rows[id].stopRequested ==> s'.rows[id].stopRequested);
  }

  lemma StepKeepsInv(s: State, step: Step)
    requires Inv(s) && Enabled(s, step)
    ensures Inv(Apply(s, step))
  {
    StepKeepsOneActive(s, step);
    StepKeepsRowInv(s, step);
    StepKeepsWorkerInv(s, step);
  }

  lemma {:induction false} RunKeepsInv(s: State, steps: seq<Step>)
    requires Inv(s) && Valid(s, steps)
    ensures Inv(After(s, steps))
    decreases |steps|
  {
    if steps != [] {
      StepKeepsInv(s, steps[0]);
      RunKeepsInv(Apply(s, steps[0]), steps[1..]);
    }
  }

  /** Whatever the interleaving, the crashes and the number of workers: one active task a domain,
      one worker between claim and finish or in a scheduled scan, INTERRUPTED only after a stop
      request, and `finished_at` set exactly on terminal rows. */
  lemma SafeInEveryRun(steps: seq<Step>)
    requires Valid(INITIAL, steps)
    ensures var s := After(INITIAL, steps);
            && (forall i, j ::
                  (&& i in s.rows && j in s.rows && s.rows[i].domain == s.rows[j].domain
                   && (s.rows[i].status == Queued || s.rows[i].status == Running)
                   && (s.rows[j].status == Queued || s.rows[j].status == Running)) ==> i == j)
            && (forall v, w :: s.PcOf(v).InsideGuard() && s.PcOf(w).InsideGuard() ==> v == w)
            && (forall w: Worker ::
                  s.PcOf(w).Holding? || s.PcOf(w).Executing? || s.PcOf(w).Scanning? || s.PcOf(w).Releasing? ==>
                    s.PcOf(w).InsideGuard() && s.lock == Some(w))
            && (forall id :: id in s.rows && s.rows[id].status == Interrupted ==> s.rows[id].stopRequested)
            && (forall id :: id in s.rows ==> (s.rows[id].finishedAt.Some? <==> s.rows[id].Terminal()))
  {
    RunKeepsInv(INITIAL, steps);
  }

  ghost predicate ClaimsRow(step: Step, id: RunId) {
    step.Claim? && step.id == id
  }

  lemma StopOutlivesStep(s: State, step: Step, id: RunId)
    requires Inv(s) && Enabled(s, step) && id in s.rows
    ensures var s' := Apply(s, step);
            && id in s'.rows
            && s'.rows[id].domain == s.rows[id].domain && s'.rows[id].action == s.rows[id].action
            && s'.rows[id].historyParts == s.rows[id].historyParts
            && (s.rows[id].stopRequested ==>
                 s'.rows[id].stopRequested && s'.rows[id].status != Queued && !ClaimsRow(step, id))
  {
  }

  /** A row never disappears, keeps what was asked for, and once stopped is never queued or
      claimed again. */
  lemma {:induction false} StopIsFinal(s: State, steps: seq<Step>, id: RunId)
    requires Inv(s) && Valid(s, steps) && id in s.rows
    ensures var s' := After(s, steps);
            && id in s'.rows
            && s'.rows[id].domain == s.rows[id].domain && s'.rows[id].action == s.rows[id].action
            && s'.rows[id].historyParts == s.rows[id].historyParts
            && (s.rows[id].stopRequested ==> s'.rows[id].stopRequested && s'.rows[id].status != Queued)
    ensures s.rows[id].stopRequested ==> forall k :: 0 <= k < |steps| ==> !ClaimsRow(steps[k], id)
    decreases |steps|
  {
    if steps == [] {
      InvRows(s, id);
    } else {
      hide Inv, Enabled, Apply;
      StepKeepsInv(s, steps[0]);
      StopOutlivesStep(s, steps[0], id);
      StopIsFinal(Apply(s, steps[0]), steps[1..], id);
      assert forall k :: 0 < k < |steps| ==> steps[k] == steps[1..][k - 1];
    }
  }

  lemma InvRows(s: State, id: RunId)
    requires Inv(s) && id in s.rows
    ensures RowInv(s.rows[id])
  {
  }

  // ---------- Bounded waiting ----------

  /** The other active tasks that a claim would prefer to `t`. */
  ghost function Ahead(rows: Table, t: RunId): set<RunId>
    requires t in rows
  {
    set id | id in rows && id != t && rows[id].Active() && Before(rows[id], id, rows[t], t)
  }

  ghost predicate StaysQueued(s: State, steps: seq<Step>, t: RunId)
    requires Valid(s, steps)
    decreases |steps|
  {
    && IsQueued(s.rows, t)
    && (steps != [] ==> StaysQueued(Apply(s, steps[0]), steps[1..], t))
  }

  /** The step writes a row with a stamp not after `since`: its transaction began before it could
      get its lock. */
  predicate StaleStamp(step: Step, since: Time) {
    (step.Queue? || step.Claim?) && step.now <= since
  }

  function Stale(steps: seq<Step>, since: Time): nat {
    if steps == [] then 0 else (if StaleStamp(steps[0], since) then 1 else 0) + Stale(steps[1..], since)
  }

  function Claims(steps: seq<Step>): nat {
    if steps == [] then 0 else (if steps[0].Claim? then 1 else 0) + Claims(steps[1..])
  }

  lemma AtMostThreeAhead(rows: Table, t: RunId)
    requires OneActivePerDomain(rows) && t in rows && rows[t].Active()
    ensures |Ahead(rows, t)| <= 3
  {
    var ahead := Ahead(rows, t);
    var domains := set id | id in ahead :: rows[id].domain;
    assert domains <= {CN, USApplication, USAssignment, USTTAB} - {rows[t].domain};
    InjectiveImageSize(ahead, domains, rows);
    SubsetSize(domains, {CN, USApplication, USAssignment, USTTAB} - {rows[t].domain});
  }

  lemma {:induction false} SubsetSize<T>(a: set<T>, b: set<T>)
    requires a <= b
    ensures |a| <= |b|
  {
    assert b == a + (b - a);
  }

  lemma {:induction false} InjectiveImageSize(ids: set<RunId>, domains: set<Domain>, rows: Table)
    requires OneActivePerDomain(rows)
    requires forall id :: id in ids ==> id in rows && rows[id].Active()
    requires domains == set id | id in ids :: rows[id].domain
    ensures |ids| == |domains|
    decreases ids
  {
    if ids != {} {
      var id :| id in ids;
      var rest := ids - {id};
      assert domains == (set i | i in rest :: rows[i].domain) + {rows[id].domain};
      InjectiveImageSize(rest, domains - {rows[id].domain}, rows);
    }
  }

  /** A step that leaves `t` queued adds to the tasks ahead of it only with a stale stamp, and a
      claim with a later stamp removes one. */
  lemma StepShrinksAhead(s: State, step: Step, t: RunId)
    requires Inv(s) && Enabled(s, step)
    requires IsQueued(s.rows, t) && IsQueued(Apply(s, step).rows, t)
    ensures Apply(s, step).rows[t].startedAt == s.rows[t].startedAt
    ensures |Ahead(Apply(s, step).rows, t)| + (if step.Claim? then 1 else 0)
            <= |Ahead(s.rows, t)| + (if StaleStamp(step, s.rows[t].startedAt) then 1 else 0)
  {
    WaitingKeepsStamp(s, step, t);
    hide Apply, Enabled, Inv, Ahead;
    var before, after := Ahead(s.rows, t), Ahead(Apply(s, step).rows, t);
    if step.Claim? {
      ClaimLeaves(s, step, t);
      SubsetSize(after, if step.now > s.rows[t].startedAt then before - {step.id} else before);
    } else if step.Queue? {
      QueueAdds(s, step, t);
      SubsetSize(after, if step.now > s.rows[t].startedAt then before else before + {step.id});
    } else {
      OthersLeave(s, step, t);
      SubsetSize(after, before);
    }
  }

  lemma WaitingKeepsStamp(s: State, step: Step, t: RunId)
    requires Enabled(s, step) && IsQueued(s.rows, t) && IsQueued(Apply(s, step).rows, t)
    ensures Apply(s, step).rows[t].startedAt == s.rows[t].startedAt
    ensures step.Claim? ==> step.id != t
  {
  }

  lemma ClaimLeaves(s: State, step: Step, t: RunId)
    requires Enabled(s, step) && step.Claim? && IsQueued(s.rows, t) && step.id != t
    ensures step.id in Ahead(s.rows, t) && t in Apply(s, step).rows
    ensures Ahead(Apply(s, step).rows, t)
            <= if step.now > s.rows[t].startedAt then Ahead(s.rows, t) - {step.id} else Ahead(s.rows, t)
  {
  }

  lemma QueueAdds(s: State, step: Step, t: RunId)
    requires Enabled(s, step) && step.Queue? && IsQueued(s.rows, t)
    ensures t in Apply(s, step).rows
    ensures Ahead(Apply(s, step).rows, t)
            <= if step.now > s.rows[t].startedAt then Ahead(s.rows, t) else Ahead(s.rows, t) + {step.id}
  {
  }

  lemma OthersLeave(s: State, step: Step, t: RunId)
    requires Inv(s) && Enabled(s, step) && !step.Claim? && !step.Queue?
    requires IsQueued(s.rows, t) && IsQueued(Apply(s, step).rows, t)
    ensures Ahead(Apply(s, step).rows, t) <= Ahead(s.rows, t)
  {
  }

  /** While a task stays QUEUED at most three claims happen, plus one for every row written
      meanwhile with a stamp that is not after its own, however often workers crash and recovery
      requeues what they ran. */
  lemma {:induction false} BoundedWaiting(s: State, steps: seq<Step>, t: RunId)
    requires Inv(s) && Valid(s, steps) && StaysQueued(s, steps, t)
    ensures Claims(steps) <= |Ahead(s.rows, t)| + Stale(steps, s.rows[t].startedAt)
    ensures |Ahead(s.rows, t)| <= 3
    decreases |steps|
  {
    hide Inv, Ahead, StaleStamp;
    InvBoundsAhead(s, t);
    if steps != [] {
      StepKeepsInv(s, steps[0]);
      StepShrinksAhead(s, steps[0], t);
      BoundedWaiting(Apply(s, steps[0]), steps[1..], t);
    }
  }

  lemma InvBoundsAhead(s: State, t: RunId)
    requires Inv(s) && IsQueued(s.rows, t)
    ensures |Ahead(s.rows, t)| <= 3
  {
    AtMostThreeAhead(s.rows, t);
  }

  // ---------- What a worker may report, and when it works ----------

  /** An executing worker reports any outcome; INTERRUPTED is possible once a package boundary has
      met the stop flag of its CONTINUE task, and only then. */
  lemma OutcomesOf(s: State, w: Worker, now: Time)
    requires s.PcOf(w).Executing? && s.PcOf(w).run in s.rows && s.rows[s.PcOf(w).run].action == Continue
    ensures Enabled(s, Finish(w, Success, now)) && Enabled(s, Finish(w, Failed, now))
    ensures Enabled(s, Finish(w, Blocked, now))
    ensures !Enabled(s, Finish(w, Queued, now)) && !Enabled(s, Finish(w, Running, now))
    ensures Enabled(s, Boundary(w))
    ensures Enabled(Apply(s, Boundary(w)), Finish(w, Interrupted, now)) <==>
              s.rows[s.PcOf(w).run].stopRequested || Enabled(s, Finish(w, Interrupted, now))
  {
  }

  lemma ClaimSeesNoStop(s: State, claim: Step, now: Time)
    requires Enabled(s, claim) && claim.Claim?
    ensures !Enabled(Apply(s, claim), Finish(claim.w, Interrupted, now))
  {
  }

  /** The lock is taken anew for every task: until a worker that is not at the point of choosing
      work acquires it, the worker claims nothing and scans nothing. */
  lemma {:induction false} OneTaskPerLock(s: State, steps: seq<Step>, w: Worker)
    requires Valid(s, steps) && !s.PcOf(w).Holding?
    requires forall k :: 0 <= k < |steps| ==> steps[k] != Acquire(w)
    ensures forall k :: 0 <= k < |steps| ==> !(steps[k].Claim? && steps[k].w == w) && steps[k] != Scan(w)
    decreases |steps|
  {
    if steps != [] {
      var next := Apply(s, steps[0]);
      assert steps[0] != Acquire(w);
      NotHolding(s, steps[0], w);
      assert forall k :: 0 <= k < |steps| - 1 ==> steps[1..][k] == steps[k + 1];
      OneTaskPerLock(next, steps[1..], w);
      assert forall k :: 1 <= k < |steps| ==> steps[k] == steps[1..][k - 1];
    }
  }

  lemma NotHolding(s: State, step: Step, w: Worker)
    requires Enabled(s, step) && step != Acquire(w) && !s.PcOf(w).Holding?
    ensures !Apply(s, step).PcOf(w).Holding?
    ensures !(step.Claim? && step.w == w) && step != Scan(w)
  {
  }

  /** Whatever it did, it goes on to the release. */
  lemma WorkEndsInRelease(s: State, step: Step)
    requires Enabled(s, step) && (step.Finish? || step.Abandon? || step.EndScan?)
    ensures Enabled(Apply(s, step), Release(step.w)) && Apply(Apply(s, step), Release(step.w)).PcOf(step.w).Idle?
    ensures Apply(Apply(s, step), Release(step.w)).lock == None
  {
  }

  // ---------- Terminal rows ----------

  /** What a caller of the start-up recovery would have to check: no other worker is in the
      middle of a continuous replay. */
  ghost predicate RecoveryIsSafe(s: State, step: Step) {
    step.Recover? ==> forall w :: w in s.pcs && s.pcs[w].Executing? && s.pcs[w].run in s.rows
                                  ==> s.rows[s.pcs[w].run].action != Continue
  }

  ghost predicate SafeRecoveries(s: State, steps: seq<Step>)
    requires Valid(s, steps)
    decreases |steps|
  {
    steps != [] ==> RecoveryIsSafe(s, steps[0]) && SafeRecoveries(Apply(s, steps[0]), steps[1..])
  }

  /** An executing worker's row is not terminal, and is RUNNING for a continuous replay. */
  ghost predicate ExecutingRowsActive(s: State) {
    forall w :: w in s.pcs && s.pcs[w].Executing? && s.pcs[w].run in s.rows ==>
      var j := s.rows[s.pcs[w].run];
      j.Active() && (j.action == Continue ==> j.status == Running)
  }

  ghost predicate TerminalRowsKept(s: State, s': State) {
    forall id :: id in s.rows && s.rows[id].Terminal() ==> id in s'.rows && s'.rows[id] == s.rows[id]
  }

  lemma SafeStepKeepsRowsActive(s: State, step: Step)
    requires Inv(s) && ExecutingRowsActive(s) && Enabled(s, step) && RecoveryIsSafe(s, step)
    ensures ExecutingRowsActive(Apply(s, step))
  {
  }

  lemma SafeStepKeepsTerminalRows(s: State, step: Step)
    requires Inv(s) && ExecutingRowsActive(s) && Enabled(s, step) && RecoveryIsSafe(s, step)
    ensures TerminalRowsKept(s, Apply(s, step))
    ensures ExecutingRowsActive(Apply(s, step))
  {
    SafeStepKeepsRowsActive(s, step);
    hide ExecutingRowsActive;
    FinishMeetsActive(s, step);
  }

  lemma FinishMeetsActive(s: State, step: Step)
    requires WorkerInv(s) && ExecutingRowsActive(s) && Enabled(s, step)
    ensures step.Finish? ==> s.PcOf(step.w).run in s.rows && s.rows[s.PcOf(step.w).run].Active()
  {
  }

  lemma {:induction false} SafeRunKeepsTerminalRows(s: State, steps: seq<Step>)
    requires Inv(s) && ExecutingRowsActive(s) && Valid(s, steps) && SafeRecoveries(s, steps)
    ensures TerminalRowsKept(s, After(s, steps)) && ExecutingRowsActive(After(s, steps))
    decreases |steps|
  {
    if steps != [] {
      StepKeepsInv(s, steps[0]);
      SafeStepKeepsTerminalRows(s, steps[0]);
      SafeRunKeepsTerminalRows(Apply(s, steps[0]), steps[1..]);
    }
  }

  /** What a worker reports for its task is what the task's row says for good. */
  lemma OutcomeStays(s: State, finish: Step, later: seq<Step>)
    requires Inv(s) && ExecutingRowsActive(s) && finish.Finish? && Enabled(s, finish)
    requires Valid(Apply(s, finish), later) && SafeRecoveries(Apply(s, finish), later)
    ensures var id, rows := s.PcOf(finish.w).run, After(Apply(s, finish), later).rows;
            id in rows && rows[id].status == finish.outcome && rows[id].finishedAt == Some(finish.now)
  {
    hide Inv, ExecutingRowsActive;
    InvWorkers(s);
    FinishWrites(s, finish);
    StepKeepsInv(s, finish);
    SafeStepKeepsTerminalRows(s, finish);
    SafeRunKeepsTerminalRows(Apply(s, finish), later);
  }

  lemma InvWorkers(s: State)
    requires Inv(s)
    ensures WorkerInv(s)
  {
  }

  /** The guard cannot be dropped: from every state in which a worker starts while another one
      runs a continuous replay, some continuation overwrites a terminal row. */
  lemma UnsafeRecoveryCanOverwrite(s: State, recovery: Step, now: Time) returns (steps: seq<Step>, finish: Step)
    requires Inv(s) && ExecutingRowsActive(s) && recovery.Recover?
    requires Enabled(s, recovery) && !RecoveryIsSafe(s, recovery)
    ensures steps != [] && steps[0] == recovery && Valid(s, steps)
    ensures Enabled(After(s, steps), finish)
    ensures !TerminalRowsKept(After(s, steps), Apply(After(s, steps), finish))
  {
    var w :| w in s.pcs && s.pcs[w].Executing? && s.pcs[w].run in s.rows && s.rows[s.pcs[w].run].action == Continue;
    var id := s.pcs[w].run;
    var s1 := Apply(s, recovery);
    finish := Finish(w, Success, now);
    StepKeepsInv(s, recovery);
    if s.rows[id].stopRequested {
      steps := [recovery];
      assert After(s, steps) == s1;
    } else {
      var stop := Stop(s.rows[id].domain, id, now);
      assert s1.rows[id].status == Queued;
      assert id in StoppableRows(s1.rows, stop.domain);
      steps := [recovery, stop];
      assert steps[1..] == [stop];
      assert Valid(s1, [stop]) && [stop][1..] == [];
      assert After(s1, [stop]) == After(Apply(s1, stop), []) == Apply(s1, stop);
    }
  }

  /** Worker 7 runs the CONTINUE task 1. */
  const CONTINUED := Job(CN, Continue, 0, Running, 12, None, false)
  const WORKER_7_RUNS := State(map[1 := CONTINUED], Some(7), map[7 := Executing(1, false)])

  lemma TaskIsQueued()
    ensures var s1 := State(map[1 := NewJob(CN, Continue, 0, 10)], None, map[]);
            && Enabled(INITIAL, Queue(CN, Continue, 0, 1, 10)) && Apply(INITIAL, Queue(CN, Continue, 0, 1, 10)) == s1
            && Enabled(s1, Recover(7, 11)) && Apply(s1, Recover(7, 11)) == s1.(pcs := map[7 := Idle])
  {
  }

  lemma TaskIsClaimed()
    ensures var s2 := State(map[1 := NewJob(CN, Continue, 0, 10)], None, map[7 := Idle]);
            var s3 := s2.(lock := Some(7), pcs := map[7 := Holding]);
            && Enabled(s2, Acquire(7)) && Apply(s2, Acquire(7)) == s3
            && Enabled(s3, Claim(7, 1, 12)) && Apply(s3, Claim(7, 1, 12)) == WORKER_7_RUNS
  {
    var rows: Table := map[1 := NewJob(CN, Continue, 0, 10)];
    assert IsNext(rows, 1);
  }

  lemma WorkerRuns()
    ensures Inv(WORKER_7_RUNS) && ExecutingRowsActive(WORKER_7_RUNS)
    ensures Enabled(WORKER_7_RUNS, Recover(9, 13)) && !RecoveryIsSafe(WORKER_7_RUNS, Recover(9, 13))
  {
    assert WORKER_7_RUNS.pcs[7].Executing? && 7 in WORKER_7_RUNS.pcs;
  }

  /** Such a state is reachable: worker 9 starts while worker 7 runs a queued CONTINUE task. */
  lemma UnsafeRecoveryIsReachable() returns (steps: seq<Step>, recovery: Step)
    ensures steps == [Queue(CN, Continue, 0, 1, 10), Recover(7, 11), Acquire(7), Claim(7, 1, 12)]
    ensures recovery == Recover(9, 13) && Valid(INITIAL, steps)
    ensures var s := After(INITIAL, steps);
            Inv(s) && ExecutingRowsActive(s) && Enabled(s, recovery) && !RecoveryIsSafe(s, recovery)
  {
    hide Inv, ExecutingRowsActive, Enabled, Apply, RecoveryIsSafe, NewJob;
    var queue, start, acquire, claim := Queue(CN, Continue, 0, 1, 10), Recover(7, 11), Acquire(7), Claim(7, 1, 12);
    steps, recovery := [queue, start, acquire, claim], Recover(9, 13);
    TaskIsQueued();
    TaskIsClaimed();
    WorkerRuns();
    var s1 := Apply(INITIAL, queue);
    var s2 := Apply(s1, start);
    var s3 := Apply(s2, acquire);
    Follow(s3, claim, []);
    Follow(s2, acquire, [claim]);
    Follow(s1, start, [acquire, claim]);
    Follow(INITIAL, queue, [start, acquire, claim]);
    assert [claim] == [claim] + [] && steps == [queue] + [start, acquire, claim];
    assert [acquire] + [claim] == [acquire, claim] && [start] + [acquire, claim] == [start, acquire, claim];
  }

  lemma Follow(s: State, step: Step, rest: seq<Step>)
    requires Enabled(s, step) && Valid(Apply(s, step), rest)
    ensures Valid(s, [step] + rest) && After(s, [step] + rest) == After(Apply(s, step), rest)
    ensures After(Apply(s, step), []) == Apply(s, step)
  {
    assert ([step] + rest)[1..] == rest;
  }

  // ---------- Between the two statements of recovery ----------

  function InterruptStopped(rows: Table, now: Time): Table {
    map id | id in rows ::
      if rows[id].status == Running && rows[id].stopRequested
      then rows[id].(status := Interrupted, finishedAt := Some(now)) else rows[id]
  }

  function RequeueRunning(rows: Table): Table {
    map id | id in rows ::
      if rows[id].status == Running then rows[id].(status := Queued, finishedAt := None) else rows[id]
  }

  lemma RecoveryIsTwoStatements(rows: Table, now: Time)
    ensures RecoverRows(rows, now) == RequeueRunning(InterruptStopped(rows, now))
  {
  }

  /** A stop of the row is committed while it is RUNNING. */
  ghost predicate StoppedWhileRunning(s: State, steps: seq<Step>, id: RunId)
    requires Valid(s, steps)
    decreases |steps|
  {
    steps != []
    && ((steps[0].Stop? && steps[0].id == id && s.rows[id].status == Running)
        || StoppedWhileRunning(Apply(s, steps[0]), steps[1..], id))
  }

  /** From a state in which the row is not stopped while active: it is RUNNING with a set flag in
      the end exactly when a stop met it RUNNING on the way and it still runs. */
  lemma {:induction false} StopsInBetween(s: State, steps: seq<Step>, id: RunId)
    requires Inv(s) && Valid(s, steps) && NotStopping(s, id)
    ensures var s' := After(s, steps);
            id in s'.rows && s'.rows[id].status == Running ==>
              (s'.rows[id].stopRequested <==> StoppedWhileRunning(s, steps, id))
    decreases |steps|
  {
    hide Inv;
    if steps != [] {
      var step, next := steps[0], Apply(s, steps[0]);
      StepKeepsInv(s, step);
      if step.Stop? && step.id == id && s.rows[id].status == Running {
        StopIsFinal(next, steps[1..], id);
      } else {
        StepKeepsNotStopping(s, step, id);
        StopsInBetween(next, steps[1..], id);
      }
    }
  }

  predicate NotStopping(s: State, id: RunId) {
    id in s.rows && s.rows[id].stopRequested ==> s.rows[id].Terminal()
  }

  lemma StepKeepsNotStopping(s: State, step: Step, id: RunId)
    requires Enabled(s, step) && NotStopping(s, id)
    requires !(step.Stop? && step.id == id && s.rows[id].status == Running)
    ensures NotStopping(Apply(s, step), id)
  {
  }

  lemma InterruptKeepsInv(s: State, now: Time)
    requires Inv(s)
    ensures Inv(s.(rows := InterruptStopped(s.rows, now)))
  {
  }

  /** Were the two statements apart, with any steps in between: a stopped task would be QUEUED
      again exactly when its stop had come in between while it ran, and it still ran. */
  lemma SplitRecovery(s: State, now: Time, steps: seq<Step>, id: RunId)
    requires Inv(s) && Valid(s.(rows := InterruptStopped(s.rows, now)), steps)
    ensures var s1 := s.(rows := InterruptStopped(s.rows, now));
            var between := After(s1, steps).rows;
            var rows := RequeueRunning(between);
            id in rows && rows[id].status == Queued && rows[id].stopRequested <==>
              id in between && between[id].status == Running && StoppedWhileRunning(s1, steps, id)
  {
    hide Inv;
    var s1 := s.(rows := InterruptStopped(s.rows, now));
    InterruptKeepsInv(s, now);
    if id in s.rows { InvRows(s, id); }
    StopsInBetween(s1, steps, id);
    RunKeepsInv(s1, steps);
    if id in After(s1, steps).rows { InvRows(After(s1, steps), id); }
  }

  /** One stop in between is enough. */
  lemma StopBetweenIsRequeued(s: State, now: Time, id: RunId) returns (stop: Step)
    requires Inv(s) && id in s.rows && s.rows[id].status == Running && s.rows[id].action == Continue
    requires !s.rows[id].stopRequested
    ensures var s1 := s.(rows := InterruptStopped(s.rows, now));
            && stop == Stop(s.rows[id].domain, id, now) && Enabled(s1, stop)
            && var rows := RequeueRunning(Apply(s1, stop).rows); rows[id].status == Queued && rows[id].stopRequested
  {
    var s1 := s.(rows := InterruptStopped(s.rows, now));
    stop := Stop(s.rows[id].domain, id, now);
    assert id in StoppableRows(s1.rows, stop.domain);
  }
}
