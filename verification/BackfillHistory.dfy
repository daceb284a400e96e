/** Every history of backfill executors: starts, resumes, stops, crashes between any two
    statements, epoch changes, and any number of executors and runs at once. */
module BackfillHistory {
  import opened Common
  import opened BackfillPaging
  import opened BackfillTarget
  import opened BackfillRuns

  type Pid = nat

  /** The text normalisation, the row hash, and the least batch size any executor is given. */
  datatype World = World(norm: string -> string, hash: Hashed -> Word, leastBatch: nat)

  datatype Pc =
    | Loaded(status: RunStatus)            // between the two statements of a resume
    | Verifying | AtTop | HasPage(page: seq<SourceRow>) | Inserted(page: seq<SourceRow>) | LoopEnded
    | Accepted                             // the comparison succeeded, SUCCESS is not written yet

  datatype Executor = Executor(run: RunId, epoch: Epoch, batch: nat, cursor: Cursor, pc: Pc)

  datatype State = State(
    table: seq<SourceRow>,
    epoch: Epoch,
    target: Target,
    runs: Runs,
    executors: map<Pid, Executor>)
  {
    function Rows(): seq<SourceRow> { EligibleRows(table) }
  }

  datatype Step =
    | Start(id: RunId, epoch: Epoch)
    | RequestStop(id: RunId)
    | Load(pid: Pid, id: RunId, epoch: Epoch, batch: nat)  // with an epoch read before
    | Claim(pid: Pid)
    | NeedsWork(pid: Pid)
    | ReadPage(pid: Pid)
    | Insert(pid: Pid)
    | Save(pid: Pid)                       // epoch check and checkpoint
    | Accept(pid: Pid)                     // the comparison, before the loop or after it
    | Succeed(pid: Pid)
    | Fail(pid: Pid, readable: bool)       // any exception; readable: the epoch can be read again
    | Crash(pid: Pid)
    | MoveEpoch(table: seq<SourceRow>)

  ghost predicate Enabled(w: World, s: State, step: Step) {
    match step
    case Start(id, epoch) => id !in s.runs && forall other :: !IsRunning(s.runs, other)
    case RequestStop(id) => IsRunning(s.runs, id)
    case Load(pid, id, epoch, batch) =>
      && pid !in s.executors && epoch <= s.epoch
      && id in s.runs && Resumable(s.runs[id], epoch) && 1 <= batch <= MAX_BATCH_SIZE
      && w.leastBatch <= batch
    case MoveEpoch(table) => Sorted(table)
    case _ =>
      && step.pid in s.executors
      && var x := s.executors[step.pid];
         x.run in s.runs &&
         match step
         case Claim(pid) => x.pc.Loaded? && Claimable(s.runs, x.run, x.pc.status)
         case NeedsWork(pid) => x.pc.Verifying?
         case ReadPage(pid) =>
           && x.pc.AtTop? && x.epoch == s.epoch && !s.runs[x.run].stopRequested
           && Projectable(w.norm, Page(s.table, x.cursor, x.batch))
         case Insert(pid) => x.pc.HasPage?
         case Save(pid) => x.pc.Inserted? && x.pc.page != [] && x.epoch == s.epoch && IsRunning(s.runs, x.run)
         case Accept(pid) =>
           && (x.pc.Verifying? || (x.pc.LoopEnded? && x.epoch == s.epoch))
           && StatsMatch(w.hash, s.Rows(), s.target)
         case Succeed(pid) => x.pc.Accepted?
         case Fail(pid, readable) => !x.pc.Loaded?  // a refused claim leaves the run as it is
         case _ => true
  }

  ghost function Apply(w: World, s: State, step: Step): State
    requires Enabled(w, s, step)
  {
    match step
    case Start(id, epoch) => s.(runs := s.runs[id := NewRun(epoch)])
    case RequestStop(id) => s.(runs := s.runs[id := s.runs[id].(stopRequested := true)])
    case Load(pid, id, epoch, batch) =>
      s.(executors := s.executors[pid := Executor(id, epoch, batch, s.runs[id].cursor, Loaded(s.runs[id].status))])
    case Claim(pid) =>
      var x := s.executors[pid];
      s.(runs := s.runs[x.run := ClaimedRun(s.runs[x.run], x.pc.status)],
         executors := s.executors[pid := x.(pc := Verifying)])
    case NeedsWork(pid) => s.(executors := s.executors[pid := s.executors[pid].(pc := AtTop)])
    case ReadPage(pid) =>
      var x := s.executors[pid];
      var page := Page(s.table, x.cursor, x.batch);
      s.(executors := s.executors[pid := x.(pc := if page == [] then LoopEnded else HasPage(page))])
    case Insert(pid) =>
      var x := s.executors[pid];
      s.(target := PutAll(s.target, Entries(w.norm, x.pc.page)),
         executors := s.executors[pid := x.(pc := Inserted(x.pc.page))])
    case Save(pid) =>
      var x := s.executors[pid];
      var next := NextCursor(x.cursor, x.pc.page);
      s.(runs := Checkpointed(s.runs, x.run, next),
         executors := s.executors[pid :=
           x.(cursor := next, pc := if |x.pc.page| < x.batch then LoopEnded else AtTop)])
    case Accept(pid) => s.(executors := s.executors[pid := s.executors[pid].(pc := Accepted)])
    case Succeed(pid) =>
      var x := s.executors[pid];
      s.(runs := Finished(s.runs, x.run, Success, Some(x.epoch)), executors := s.executors - {pid})
    case Fail(pid, readable) =>
      var x := s.executors[pid];
      var status := if readable && x.epoch == s.epoch then Interrupted else Failed;
      s.(runs := Finished(s.runs, x.run, status, None), executors := s.executors - {pid})
    case Crash(pid) => s.(executors := s.executors - {pid})
    case MoveEpoch(table) => s.(table := table, epoch := s.epoch + 1)
  }

  ghost predicate Valid(w: World, s: State, steps: seq<Step>)
    decreases |steps|
  {
    steps != [] ==> Enabled(w, s, steps[0]) && Valid(w, Apply(w, s, steps[0]), steps[1..])
  }

  ghost function After(w: World, s: State, steps: seq<Step>): State
    requires Valid(w, s, steps)
    decreases |steps|
  {
    if steps == [] then s else After(w, Apply(w, s, steps[0]), steps[1..])
  }

  lemma {:induction false} EpochNeverReturns(w: World, s: State, steps: seq<Step>)
    requires Valid(w, s, steps)
    ensures After(w, s, steps).epoch >= s.epoch
    decreases |steps|
  {
    if steps != [] { EpochNeverReturns(w, Apply(w, s, steps[0]), steps[1..]); }
  }

  // ---------- Pages: what holds for every source and every target ----------

  /** The page in an executor's hands is the next stretch of eligible rows behind its cursor. */
  predicate HasSlice(w: World, rows: seq<SourceRow>, x: Executor) {
    && x.batch > 0 && x.batch >= w.leastBatch
    && match x.pc
       case HasPage(page) => IsSlice(w, rows, x, page)
       case Inserted(page) => IsSlice(w, rows, x, page)
       case _ => true
  }

  predicate IsSlice(w: World, rows: seq<SourceRow>, x: Executor, page: seq<SourceRow>) {
    page != [] && page == NextRows(rows, x.cursor.after, x.batch) && Projectable(w.norm, page)
  }

  /** An executor belongs to its run's epoch; one of another epoch holds no page to insert. */
  ghost predicate Sliced(w: World, s: State, x: Executor) {
    && x.run in s.runs && s.runs[x.run].epoch == x.epoch
    && if x.epoch == s.epoch then HasSlice(w, s.Rows(), x) else !x.pc.HasPage?
  }

  ghost predicate SliceInv(w: World, s: State) {
    Sorted(s.table) && forall pid :: pid in s.executors ==> Sliced(w, s, s.executors[pid])
  }

  lemma ReadPageSlices(w: World, s: State, x: Executor)
    requires Sorted(s.table) && HasSlice(w, s.Rows(), x) && Projectable(w.norm, Page(s.table, x.cursor, x.batch))
    ensures var page := Page(s.table, x.cursor, x.batch);
            && HasSlice(w, s.Rows(), x.(pc := if page == [] then LoopEnded else HasPage(page)))
            && (page == [] ==> From(s.Rows(), x.cursor.after) == |s.Rows()|)
  {
    hide Projectable, EligibleRows, Page, Sorted, From;
    PageIsNextRows(s.table, x.cursor, x.batch);
  }

  lemma StepKeepsSliceInv(w: World, s: State, step: Step)
    requires SliceInv(w, s) && Enabled(w, s, step) && !step.MoveEpoch?
    ensures SliceInv(w, Apply(w, s, step))
  {
    hide Entries, Projectable, EligibleRows, StatsMatch, Page, PutAll, Sorted, IsSlice;
    if step.ReadPage? { ReadPageSlices(w, s, s.executors[step.pid]); }
    if step.Insert? { InsertKeepsSlice(w, s.Rows(), s.executors[step.pid]); }
  }

  lemma InsertKeepsSlice(w: World, rows: seq<SourceRow>, x: Executor)
    requires HasSlice(w, rows, x) && x.pc.HasPage?
    ensures HasSlice(w, rows, x.(pc := Inserted(x.pc.page)))
  {
  }

  lemma {:induction false} HistoryKeepsSliceInv(w: World, s: State, steps: seq<Step>)
    requires SliceInv(w, s) && Valid(w, s, steps) && After(w, s, steps).epoch == s.epoch
    ensures After(w, s, steps).table == s.table && SliceInv(w, After(w, s, steps))
    decreases |steps|
  {
    hide SliceInv;
    if steps != [] {
      var next := Apply(w, s, steps[0]);
      EpochNeverReturns(w, next, steps[1..]);
      if !steps[0].MoveEpoch? {
        StepKeepsSliceInv(w, s, steps[0]);
        HistoryKeepsSliceInv(w, next, steps[1..]);
      }
    }
  }

  lemma EpochsAgree(w: World, s: State)
    requires SliceInv(w, s)
    ensures forall pid :: pid in s.executors ==>
              var x := s.executors[pid]; x.run in s.runs && s.runs[x.run].epoch == x.epoch
  {
  }

  lemma SliceOf(w: World, s: State, pid: Pid)
    requires SliceInv(w, s) && pid in s.executors
    requires s.executors[pid].epoch == s.epoch || s.executors[pid].pc.HasPage?
    ensures s.executors[pid].epoch == s.epoch && HasSlice(w, s.Rows(), s.executors[pid]) && Sorted(s.table)
  {
  }

  // ---------- What a page adds ----------

  lemma PageEntries(w: World, rows: seq<SourceRow>, i: nat, j: nat)
    requires i <= j <= |rows|
    ensures forall e :: e in Entries(w.norm, rows[i..j]) ==> e in Entries(w.norm, rows)
    ensures Entries(w.norm, rows[..j]) == Entries(w.norm, rows[..i]) + Entries(w.norm, rows[i..j])
  {
    hide Entries;
    assert rows[..j] == rows[..i] + rows[i..j];
    assert rows == rows[..j] + rows[j..];
    EntriesConcat(w.norm, rows[..i], rows[i..j]);
    EntriesConcat(w.norm, rows[..j], rows[j..]);
  }

  /** What an executor has read comes from the source as it stands. */
  lemma PageFromSource(w: World, s: State, pid: Pid)
    requires SliceInv(w, s) && pid in s.executors && (s.executors[pid].pc.HasPage? || s.executors[pid].pc.Inserted?)
    requires s.executors[pid].epoch == s.epoch || s.executors[pid].pc.HasPage?
    ensures forall e :: e in Entries(w.norm, s.executors[pid].pc.page) ==> e in Entries(w.norm, s.Rows())
  {
    hide Entries, Projectable, EligibleRows, From, Sorted;
    SliceOf(w, s, pid);
    var x, rows := s.executors[pid], s.Rows();
    var f := From(rows, x.cursor.after);
    PageEntries(w, rows, f, Min(f + x.batch, |rows|));
  }

  /** The cursor saved after a page is its last row's; the next page follows that row, or is the
      first page again when the row has no application number, and then this page was it too. */
  lemma SavedCursor(w: World, table: seq<SourceRow>, x: Executor)
    requires Sorted(table) && HasSlice(w, EligibleRows(table), x) && x.pc.Inserted?
    ensures var rows := EligibleRows(table);
            var f, next := From(rows, x.cursor.after), NextCursor(x.cursor, x.pc.page);
            var hi := f + |x.pc.page|;
            && f < hi <= |rows| && x.pc.page == rows[f..hi] && next.after == rows[hi - 1].key
            && (From(rows, next.after) == hi || (From(rows, next.after) == 0 && f == 0))
            && (rows[hi - 1].key.app != "" ==> From(rows, next.after) == hi)
            && (|x.pc.page| < x.batch ==> hi == |rows|)
            && (hi == |rows| || |x.pc.page| == x.batch)
  {
    hide EligibleRows, Projectable;
    var rows := EligibleRows(table);
    var f := From(rows, x.cursor.after);
    var hi := f + |x.pc.page|;
    EligibleSorted(table);
    FromRow(rows, hi);
    if x.cursor.after.app != "" { RestNotEmpty(rows, x.cursor.after); }
  }

  // ---------- Whole histories ----------

  /** No run of this epoch has done anything yet; executors of earlier epochs may still be alive,
      without a page to insert. */
  ghost predicate BeginsEpoch(s: State) {
    && Sorted(s.table)
    && (forall id :: id in s.runs && s.runs[id].epoch == s.epoch ==>
          s.runs[id].cursor == START && s.runs[id].status != Success)
    && (forall pid :: pid in s.executors ==>
          var x := s.executors[pid];
          x.run in s.runs && s.runs[x.run].epoch == x.epoch && x.epoch != s.epoch && !x.pc.HasPage?)
  }

  ghost predicate LoopEndedHere(s: State, pid: Pid) {
    pid in s.executors && s.executors[pid].epoch == s.epoch && s.executors[pid].pc.LoopEnded?
  }

  // ---------- What persisted cursors say ----------

  /** All cursors of the epoch, persisted or in an executor's hands, satisfy P. */
  ghost predicate CursorsSatisfy(w: World, s: State, P: Cursor -> bool) {
    && SliceInv(w, s)
    && (forall id :: id in s.runs && s.runs[id].epoch == s.epoch ==> P(s.runs[id].cursor))
    && (forall pid :: pid in s.executors && s.executors[pid].epoch == s.epoch ==> P(s.executors[pid].cursor))
  }

  /** P holds of the first cursor, and of the next one after every page. */
  ghost predicate KeptByPages(w: World, table: seq<SourceRow>, P: Cursor -> bool) {
    && P(START)
    && forall x: Executor :: HasSlice(w, EligibleRows(table), x) && x.pc.Inserted? && P(x.cursor) ==>
         P(NextCursor(x.cursor, x.pc.page))
  }

  lemma StepKeepsCursors(w: World, s: State, step: Step, P: Cursor -> bool)
    requires CursorsSatisfy(w, s, P) && KeptByPages(w, s.table, P) && Enabled(w, s, step) && !step.MoveEpoch?
    ensures CursorsSatisfy(w, Apply(w, s, step), P)
  {
    hide SliceInv, HasSlice, Entries, Projectable, EligibleRows, StatsMatch, Page, PutAll, Sorted;
    StepKeepsSliceInv(w, s, step);
    EpochsAgree(w, s);
    if step.Save? { SliceOf(w, s, step.pid); }
  }

  lemma {:induction false} HistoryKeepsCursors(w: World, s: State, steps: seq<Step>, P: Cursor -> bool)
    requires CursorsSatisfy(w, s, P) && KeptByPages(w, s.table, P)
    requires Valid(w, s, steps) && After(w, s, steps).epoch == s.epoch
    ensures CursorsSatisfy(w, After(w, s, steps), P)
    decreases |steps|
  {
    hide CursorsSatisfy, KeptByPages;
    if steps != [] {
      var next := Apply(w, s, steps[0]);
      EpochNeverReturns(w, next, steps[1..]);
      if !steps[0].MoveEpoch? {
        StepKeepsCursors(w, s, steps[0], P);
        HistoryKeepsCursors(w, next, steps[1..], P);
      }
    }
  }

  /** A cursor stands at a source row and has counted at least the rows up to it. */
  predicate CoversRow(rows: seq<SourceRow>, c: Cursor) {
    c == START || exists i :: 0 <= i < |rows| && rows[i].key == c.after && i < c.emitted
  }

  /** However executors overlap, crash, stop and resume, and whatever source and target contain:
      while the epoch stands, every persisted cursor stands at a source row that `emitted` covers.
      `emitted` can exceed the row's number, when pages are read again; see RepeatsFirstPage. */
  lemma CursorsCoverRows(w: World, s: State, steps: seq<Step>, id: RunId)
    requires BeginsEpoch(s) && Valid(w, s, steps) && After(w, s, steps).epoch == s.epoch
    requires id in After(w, s, steps).runs && After(w, s, steps).runs[id].epoch == s.epoch
    ensures CoversRow(s.Rows(), After(w, s, steps).runs[id].cursor)
  {
    var P := (c: Cursor) => CoversRow(s.Rows(), c);
    forall x: Executor | HasSlice(w, s.Rows(), x) && x.pc.Inserted? && P(x.cursor)
      ensures P(NextCursor(x.cursor, x.pc.page))
    {
      PageCovers(w, s.table, x);
    }
    HistoryKeepsCursors(w, s, steps, P);
  }

  lemma PageCovers(w: World, table: seq<SourceRow>, x: Executor)
    requires Sorted(table) && HasSlice(w, EligibleRows(table), x) && x.pc.Inserted?
    requires CoversRow(EligibleRows(table), x.cursor)
    ensures CoversRow(EligibleRows(table), NextCursor(x.cursor, x.pc.page))
  {
    hide EligibleRows, HasSlice;
    var rows := EligibleRows(table);
    SavedCursor(w, table, x);
    EligibleSorted(table);
    if x.cursor != START {
      var i :| 0 <= i < |rows| && rows[i].key == x.cursor.after && i < x.cursor.emitted;
      FromRow(rows, i + 1);
    }
    var last := From(rows, x.cursor.after) + |x.pc.page| - 1;
    assert rows[last].key == NextCursor(x.cursor, x.pc.page).after;
  }

  /** No page ends in an empty application number, which would restart the paging: there are none,
      or fewer than any batch and not in every row. */
  predicate FewEmptyApps(w: World, rows: seq<SourceRow>) {
    EmptyApps(rows) == 0 || (EmptyApps(rows) < w.leastBatch && EmptyApps(rows) < |rows|)
  }

  /** The cursor stands behind the first `emitted` eligible rows, and the next page follows them. */
  predicate AtPosition(rows: seq<SourceRow>, c: Cursor) {
    c.emitted <= |rows| && c == CursorAt(rows, c.emitted) && From(rows, c.after) == c.emitted
  }

  /** With few empty application numbers every persisted cursor is exactly the position of
      `emitted` eligible rows. */
  lemma CursorsArePositions(w: World, s: State, steps: seq<Step>, id: RunId)
    requires BeginsEpoch(s) && FewEmptyApps(w, s.Rows())
    requires Valid(w, s, steps) && After(w, s, steps).epoch == s.epoch
    requires id in After(w, s, steps).runs && After(w, s, steps).runs[id].epoch == s.epoch
    ensures AtPosition(s.Rows(), After(w, s, steps).runs[id].cursor)
  {
    var P := (c: Cursor) => AtPosition(s.Rows(), c);
    forall x: Executor | HasSlice(w, s.Rows(), x) && x.pc.Inserted? && P(x.cursor)
      ensures P(NextCursor(x.cursor, x.pc.page))
    {
      PageIsPosition(w, s.table, x);
    }
    HistoryKeepsCursors(w, s, steps, P);
  }

  lemma PageIsPosition(w: World, table: seq<SourceRow>, x: Executor)
    requires Sorted(table) && FewEmptyApps(w, EligibleRows(table))
    requires HasSlice(w, EligibleRows(table), x) && x.pc.Inserted? && AtPosition(EligibleRows(table), x.cursor)
    ensures AtPosition(EligibleRows(table), NextCursor(x.cursor, x.pc.page))
  {
    hide EligibleRows, IsSlice;
    var rows := EligibleRows(table);
    var hi := x.cursor.emitted + |x.pc.page|;
    SavedCursor(w, table, x);
    EligibleSorted(table);
    EmptyAppsFirst(rows, hi - 1);
  }

  // ---------- An ended loop has projected every row ----------

  predicate RowsProject(w: World, rows: seq<SourceRow>, c: Cursor) {
    Projectable(w.norm, rows[..From(rows, c.after)])
  }

  /** The rows behind every cursor project, and all rows do once a loop has ended. */
  ghost predicate ProjectInv(w: World, s: State) {
    && SliceInv(w, s)
    && (forall id :: id in s.runs && s.runs[id].epoch == s.epoch ==> RowsProject(w, s.Rows(), s.runs[id].cursor))
    && (forall pid :: pid in s.executors && s.executors[pid].epoch == s.epoch ==>
          && RowsProject(w, s.Rows(), s.executors[pid].cursor)
          && (s.executors[pid].pc.LoopEnded? ==> Projectable(w.norm, s.Rows())))
  }

  lemma PageProjects(w: World, table: seq<SourceRow>, x: Executor)
    requires Sorted(table) && HasSlice(w, EligibleRows(table), x) && x.pc.Inserted?
    requires RowsProject(w, EligibleRows(table), x.cursor)
    ensures var rows, next := EligibleRows(table), NextCursor(x.cursor, x.pc.page);
            && RowsProject(w, rows, next)
            && (|x.pc.page| < x.batch ==> Projectable(w.norm, rows))
  {
    hide EligibleRows, From, HasSlice;
    var rows := EligibleRows(table);
    SliceProjects(w, rows, x);
    var f, hi := From(rows, x.cursor.after), From(rows, x.cursor.after) + |x.pc.page|;
    SavedCursor(w, table, x);
    assert rows[..hi] == rows[..f] + rows[f..hi];
    ProjectableConcat(w.norm, rows[..f], rows[f..hi]);
    assert rows[..0] == [] && rows[..|rows|] == rows;
  }

  lemma SliceProjects(w: World, rows: seq<SourceRow>, x: Executor)
    requires HasSlice(w, rows, x) && x.pc.Inserted?
    ensures Projectable(w.norm, x.pc.page)
  {
  }

  lemma ProjectableConcat(norm: string -> string, a: seq<SourceRow>, b: seq<SourceRow>)
    requires Projectable(norm, a) && Projectable(norm, b)
    ensures Projectable(norm, a + b)
  {
  }

  lemma StepKeepsProjectInv(w: World, s: State, step: Step)
    requires ProjectInv(w, s) && Enabled(w, s, step) && !step.MoveEpoch?
    ensures ProjectInv(w, Apply(w, s, step))
  {
    hide SliceInv, HasSlice, Entries, Projectable, EligibleRows, StatsMatch, Page, PutAll, Sorted, From, RowsProject;
    StepKeepsSliceInv(w, s, step);
    EpochsAgree(w, s);
    match step {
      case Start(_, _) => StartProjects(w, s.Rows());
      case ReadPage(pid) => EmptyPageProjects(w, s, pid);
      case Save(pid) =>
        SliceOf(w, s, pid);
        PageProjects(w, s.table, s.executors[pid]);
      case _ =>
    }
  }

  lemma StartProjects(w: World, rows: seq<SourceRow>)
    ensures RowsProject(w, rows, START)
  {
    assert rows[..0] == [];
  }

  lemma EmptyPageProjects(w: World, s: State, pid: Pid)
    requires SliceInv(w, s) && Enabled(w, s, ReadPage(pid)) && RowsProject(w, s.Rows(), s.executors[pid].cursor)
    ensures Page(s.table, s.executors[pid].cursor, s.executors[pid].batch) == [] ==> Projectable(w.norm, s.Rows())
  {
    hide HasSlice, Projectable, EligibleRows, From, Page, Sorted;
    SliceOf(w, s, pid);
    ReadPageSlices(w, s, s.executors[pid]);
    assert s.Rows()[..|s.Rows()|] == s.Rows();
  }

  lemma {:induction false} HistoryKeepsProjectInv(w: World, s: State, steps: seq<Step>)
    requires ProjectInv(w, s) && Valid(w, s, steps) && After(w, s, steps).epoch == s.epoch
    ensures After(w, s, steps).table == s.table && ProjectInv(w, After(w, s, steps))
    decreases |steps|
  {
    hide ProjectInv;
    if steps != [] {
      var next := Apply(w, s, steps[0]);
      EpochNeverReturns(w, next, steps[1..]);
      if !steps[0].MoveEpoch? {
        StepKeepsProjectInv(w, s, steps[0]);
        HistoryKeepsProjectInv(w, next, steps[1..]);
      }
    }
  }

  /** In every history with overlapping executors, a loop ends only when every eligible row projects. */
  lemma EndedLoopProjects(w: World, s: State, steps: seq<Step>, pid: Pid)
    requires BeginsEpoch(s) && Valid(w, s, steps) && After(w, s, steps).epoch == s.epoch
    requires LoopEndedHere(After(w, s, steps), pid)
    ensures Projectable(w.norm, s.Rows())
  {
    hide EligibleRows, Sorted, Projectable, From;
    StartProjects(w, s.Rows());
    HistoryKeepsProjectInv(w, s, steps);
  }

  // ---------- What a failed executor leaves ----------

  /** After a failure the run can be resumed exactly when the epoch could be read and still stands,
      and then from the cursor it had. */
  lemma FailureLeavesResumable(w: World, s: State, pid: Pid, readable: bool, next: Pid)
    requires Enabled(w, s, Fail(pid, readable)) && SliceInv(w, s) && next !in s.executors && w.leastBatch <= 1
    ensures var x, s' := s.executors[pid], Apply(w, s, Fail(pid, readable));
            && (Enabled(w, s', Load(next, x.run, s.epoch, 1)) <==> readable && x.epoch == s.epoch)
            && s'.runs[x.run].cursor == s.runs[x.run].cursor && s'.target == s.target
            && pid !in s'.executors
  {
  }

  /** A run is marked done only behind a comparison, with the receipt that makes it ready. */
  lemma SuccessMakesReady(w: World, s: State, pid: Pid)
    requires SliceInv(w, s) && Enabled(w, s, Accept(pid))
    ensures StatsMatch(w.hash, s.Rows(), s.target)
    ensures var x, s1 := s.executors[pid], Apply(w, s, Accept(pid));
            && Enabled(w, s1, Succeed(pid))
            && var run := Apply(w, s1, Succeed(pid)).runs[x.run];
               run.status == Success && run.receipt == Some(x.epoch) && run.epoch == x.epoch
               && run.cursor == s.runs[x.run].cursor && ReadyFor(run, x.epoch)
  {
  }

  // ---------- Starting, stopping and saving ----------

  /** A run starts only when it is the only one running. */
  lemma StartsAlone(w: World, s: State, id: RunId, epoch: Epoch)
    requires Enabled(w, s, Start(id, epoch))
    ensures var s' := Apply(w, s, Start(id, epoch));
            && s'.runs[id] == Run(Running, false, epoch, Cursor(Key("", "", ""), 0), None)
            && forall other :: other in s'.runs && s'.runs[other].status == Running ==> other == id
  {
    forall other | other in s.runs ensures s.runs[other].status != Running {
      assert !IsRunning(s.runs, other);
    }
  }

  /** A claim of the run as an interrupted one, which takes the stop request back. */
  ghost predicate Reclaims(s: State, step: Step, id: RunId) {
    step.Claim? && step.pid in s.executors && s.executors[step.pid].run == id
  }

  ghost predicate NeverReclaimed(w: World, s: State, steps: seq<Step>, id: RunId)
    requires Valid(w, s, steps)
    decreases |steps|
  {
    steps != [] ==> !Reclaims(s, steps[0], id) && NeverReclaimed(w, Apply(w, s, steps[0]), steps[1..], id)
  }

  /** Some executor of the run reads a page. */
  ghost predicate ReadsFor(w: World, s: State, steps: seq<Step>, id: RunId)
    requires Valid(w, s, steps)
    decreases |steps|
  {
    steps != []
    && ((steps[0].ReadPage? && steps[0].pid in s.executors && s.executors[steps[0].pid].run == id)
        || ReadsFor(w, Apply(w, s, steps[0]), steps[1..], id))
  }

  lemma StopSets(w: World, s: State, id: RunId)
    requires Enabled(w, s, RequestStop(id))
    ensures id in s.runs && s.runs[id].status == Running && Apply(w, s, RequestStop(id)).runs[id].stopRequested
  {
  }

  lemma StopOutlivesStep(w: World, s: State, step: Step, id: RunId)
    requires Enabled(w, s, step) && id in s.runs && s.runs[id].stopRequested && !Reclaims(s, step, id)
    ensures id in Apply(w, s, step).runs && Apply(w, s, step).runs[id].stopRequested
    ensures !(step.ReadPage? && step.pid in s.executors && s.executors[step.pid].run == id)
  {
    hide Projectable, Page, StatsMatch;
  }

  /** After a stop request no executor of the run reads another page, until the run is claimed anew. */
  lemma {:induction false} StopEndsReading(w: World, s: State, steps: seq<Step>, id: RunId)
    requires Valid(w, s, steps) && id in s.runs && s.runs[id].stopRequested && NeverReclaimed(w, s, steps, id)
    ensures !ReadsFor(w, s, steps, id)
    ensures id in After(w, s, steps).runs && After(w, s, steps).runs[id].stopRequested
    decreases |steps|
  {
    hide Enabled, Apply, Reclaims;
    if steps != [] {
      StopOutlivesStep(w, s, steps[0], id);
      StopEndsReading(w, Apply(w, s, steps[0]), steps[1..], id);
    }
  }

  lemma IdleOutlivesStep(w: World, s: State, step: Step, id: RunId)
    requires Enabled(w, s, step) && id in s.runs && s.runs[id].status != Running && !Reclaims(s, step, id)
    ensures var s' := Apply(w, s, step);
            id in s'.runs && s'.runs[id].status != Running && s'.runs[id].cursor == s.runs[id].cursor
  {
    hide Projectable, Page, StatsMatch;
  }

  /** The cursor of a run that is not RUNNING does not move, until the run is claimed anew. */
  lemma {:induction false} CursorRests(w: World, s: State, steps: seq<Step>, id: RunId)
    requires Valid(w, s, steps) && id in s.runs && s.runs[id].status != Running && NeverReclaimed(w, s, steps, id)
    ensures id in After(w, s, steps).runs && After(w, s, steps).runs[id].cursor == s.runs[id].cursor
    decreases |steps|
  {
    hide Enabled, Apply, Reclaims;
    if steps != [] {
      IdleOutlivesStep(w, s, steps[0], id);
      CursorRests(w, Apply(w, s, steps[0]), steps[1..], id);
    }
  }

  /** A checkpoint stores the key of the page's last row and counts the page; the loop ends after a
      page that is not full. */
  lemma SaveWrites(w: World, s: State, pid: Pid)
    requires Enabled(w, s, Save(pid))
    ensures var x, s' := s.executors[pid], Apply(w, s, Save(pid));
            var page := x.pc.page;
            && s'.runs[x.run].cursor == Cursor(page[|page| - 1].key, x.cursor.emitted + |page|)
            && s'.executors[pid].cursor == s'.runs[x.run].cursor && s'.target == s.target
            && (s'.executors[pid].pc.LoopEnded? <==> |page| < x.batch)
            && (s'.executors[pid].pc.AtTop? <==> |page| >= x.batch)
  {
  }
}
