/** One backfill executor at a time: the one-shot result from every source and every target. */
module BackfillConvergence {
  import opened Common
  import opened BackfillPaging
  import opened BackfillTarget
  import opened BackfillRuns
  import opened BackfillHistory

  /** Writing the rows from `i` on would complete the target to `goal`. */
  ghost predicate Completes(w: World, rows: seq<SourceRow>, t: Target, i: nat, goal: Target) {
    i <= |rows| && PutAll(t, Entries(w.norm, rows[i..])) == goal
  }

  /** So do the rows behind the cursor, wherever it makes the paging go on. */
  ghost predicate CursorCompletes(w: World, rows: seq<SourceRow>, t: Target, c: Cursor, goal: Target) {
    Completes(w, rows, t, From(rows, c.after), goal)
  }

  ghost predicate SoloInv(w: World, s: State, id: RunId, goal: Target) {
    && id in s.runs && s.runs[id].epoch == s.epoch
    && CursorCompletes(w, s.Rows(), s.target, s.runs[id].cursor, goal)
    && (forall p, q :: p in s.executors && q in s.executors ==> p == q)
    && (forall p :: p in s.executors ==>
          var x := s.executors[p];
          && x.run == id && x.cursor == s.runs[id].cursor
          && (x.pc.Inserted? ==>
               Completes(w, s.Rows(), s.target, From(s.Rows(), x.cursor.after) + |x.pc.page|, goal))
          && (x.pc.LoopEnded? ==> s.target == goal))
  }

  /** An executor is resumed only for this run and only when none is alive. */
  ghost predicate ResumesAlone(s: State, step: Step, id: RunId) {
    step.Load? ==> step.id == id && s.executors == map[]
  }

  ghost predicate Solo(w: World, s: State, steps: seq<Step>, id: RunId)
    requires Valid(w, s, steps)
    decreases |steps|
  {
    steps != [] ==> ResumesAlone(s, steps[0], id) && Solo(w, Apply(w, s, steps[0]), steps[1..], id)
  }

  /** Rows inserted but not yet checkpointed can be inserted again after a crash. */
  lemma InsertKeepsCompletion(w: World, rows: seq<SourceRow>, t: Target, i: nat, j: nat, goal: Target)
    requires i <= j <= |rows| && Completes(w, rows, t, i, goal)
    ensures var t' := PutAll(t, Entries(w.norm, rows[i..j]));
            Completes(w, rows, t', i, goal) && Completes(w, rows, t', j, goal)
  {
    assert rows[i..] == rows[i..j] + rows[j..];
    EntriesConcat(w.norm, rows[i..j], rows[j..]);
    ReplayAbsorbed(t, Entries(w.norm, rows[i..j]), Entries(w.norm, rows[j..]));
    PutAllConcat(t, Entries(w.norm, rows[i..j]), Entries(w.norm, rows[j..]));
  }

  lemma NothingLeft(w: World, rows: seq<SourceRow>, t: Target, goal: Target)
    ensures Completes(w, rows, t, |rows|, goal) ==> t == goal
  {
    assert rows[|rows|..] == [];
  }

  lemma PageCompletes(w: World, s: State, x: Executor, goal: Target)
    requires Sorted(s.table) && HasSlice(w, s.Rows(), x) && x.pc.HasPage?
    requires CursorCompletes(w, s.Rows(), s.target, x.cursor, goal)
    ensures var t := PutAll(s.target, Entries(w.norm, x.pc.page));
            && CursorCompletes(w, s.Rows(), t, x.cursor, goal)
            && Completes(w, s.Rows(), t, From(s.Rows(), x.cursor.after) + |x.pc.page|, goal)
  {
    hide Completes, Projectable, Entries, PutAll, EligibleRows, From;
    var f := From(s.Rows(), x.cursor.after);
    InsertKeepsCompletion(w, s.Rows(), s.target, f, f + |x.pc.page|, goal);
  }

  lemma SaveCompletes(w: World, s: State, x: Executor, goal: Target)
    requires Sorted(s.table) && HasSlice(w, s.Rows(), x) && x.pc.Inserted?
    requires CursorCompletes(w, s.Rows(), s.target, x.cursor, goal)
    requires Completes(w, s.Rows(), s.target, From(s.Rows(), x.cursor.after) + |x.pc.page|, goal)
    ensures CursorCompletes(w, s.Rows(), s.target, NextCursor(x.cursor, x.pc.page), goal)
    ensures |x.pc.page| < x.batch ==> s.target == goal
  {
    hide Completes, HasSlice, Entries, EligibleRows, From;
    SavedCursor(w, s.table, x);
    NothingLeft(w, s.Rows(), s.target, goal);
  }

  lemma StepKeepsSoloInv(w: World, s: State, step: Step, id: RunId, goal: Target)
    requires SliceInv(w, s) && SoloInv(w, s, id, goal)
    requires Enabled(w, s, step) && !step.MoveEpoch? && ResumesAlone(s, step, id)
    ensures SoloInv(w, Apply(w, s, step), id, goal)
  {
    hide SliceInv, HasSlice, Entries, Projectable, EligibleRows, StatsMatch, CursorCompletes, Completes;
    hide Page, PutAll, Sorted, From;
    EpochsAgree(w, s);
    match step {
      case ReadPage(pid) => EmptyPageCompletes(w, s, pid, goal);
      case Insert(pid) =>
        SliceOf(w, s, pid);
        PageCompletes(w, s, s.executors[pid], goal);
      case Save(pid) =>
        SliceOf(w, s, pid);
        SaveCompletes(w, s, s.executors[pid], goal);
      case _ =>
    }
  }

  lemma EmptyPageCompletes(w: World, s: State, pid: Pid, goal: Target)
    requires SliceInv(w, s) && Enabled(w, s, ReadPage(pid))
    requires CursorCompletes(w, s.Rows(), s.target, s.executors[pid].cursor, goal)
    ensures Page(s.table, s.executors[pid].cursor, s.executors[pid].batch) == [] ==> s.target == goal
  {
    hide SliceInv, HasSlice, Completes, Projectable, EligibleRows, From, Page, Sorted;
    SliceOf(w, s, pid);
    ReadPageSlices(w, s, s.executors[pid]);
    NothingLeft(w, s.Rows(), s.target, goal);
  }

  lemma {:induction false} HistoryKeepsSoloInv(w: World, s: State, steps: seq<Step>, id: RunId, goal: Target)
    requires SliceInv(w, s) && SoloInv(w, s, id, goal) && Valid(w, s, steps) && Solo(w, s, steps, id)
    requires After(w, s, steps).epoch == s.epoch
    ensures SoloInv(w, After(w, s, steps), id, goal)
    decreases |steps|
  {
    hide SliceInv, SoloInv;
    if steps != [] {
      var next := Apply(w, s, steps[0]);
      EpochNeverReturns(w, next, steps[1..]);
      if !steps[0].MoveEpoch? {
        StepKeepsSliceInv(w, s, steps[0]);
        StepKeepsSoloInv(w, s, steps[0], id, goal);
        HistoryKeepsSoloInv(w, next, steps[1..], id, goal);
      }
    }
  }

  /** One executor at a time, from any sorted source, target and checkpoint: an ended loop leaves
      the table that one uninterrupted pass over the remaining rows would have left. */
  lemma ConvergesFromCheckpoint(w: World, s: State, steps: seq<Step>, id: RunId, pid: Pid)
    requires Sorted(s.table) && s.executors == map[] && id in s.runs && s.runs[id].epoch == s.epoch
    requires Valid(w, s, steps) && Solo(w, s, steps, id) && After(w, s, steps).epoch == s.epoch
    requires pid in After(w, s, steps).executors && After(w, s, steps).executors[pid].pc.LoopEnded?
    ensures After(w, s, steps).target
            == PutAll(s.target, Entries(w.norm, s.Rows()[From(s.Rows(), s.runs[id].cursor.after)..]))
  {
    hide Entries, PutAll, EligibleRows, Sorted, From;
    var goal := PutAll(s.target, Entries(w.norm, s.Rows()[From(s.Rows(), s.runs[id].cursor.after)..]));
    HistoryKeepsSoloInv(w, s, steps, id, goal);
  }

  /** In particular a fresh run, however often it crashes, stops and resumes, whatever its batch
      sizes, whatever source and target contain, and whether or not rows share target keys. */
  lemma ConvergesToOneShot(w: World, s: State, steps: seq<Step>, id: RunId, pid: Pid)
    requires Sorted(s.table) && s.executors == map[] && id in s.runs && s.runs[id] == NewRun(s.epoch)
    requires Valid(w, s, steps) && Solo(w, s, steps, id) && After(w, s, steps).epoch == s.epoch
    requires pid in After(w, s, steps).executors && After(w, s, steps).executors[pid].pc.LoopEnded?
    ensures After(w, s, steps).target == PutAll(s.target, Entries(w.norm, s.Rows()))
  {
    ConvergesFromCheckpoint(w, s, steps, id, pid);
    assert s.Rows()[0..] == s.Rows();
  }

  /** And from an empty target it shows exactly the owners of the source table. */
  lemma LookupShowsOwners(w: World, s: State, steps: seq<Step>, id: RunId, pid: Pid)
    requires BeginsEpoch(s) && s.executors == map[] && id in s.runs && s.runs[id] == NewRun(s.epoch)
    requires s.target == map[]
    requires Valid(w, s, steps) && Solo(w, s, steps, id) && After(w, s, steps).epoch == s.epoch
    requires LoopEndedHere(After(w, s, steps), pid)
    ensures ShowsOwners(w.norm, s.table, After(w, s, steps).target) && NamesRemain(w.norm, s.table)
  {
    hide Solo, ShowsOwners, NamesRemain;
    ConvergesToOneShot(w, s, steps, id, pid);
    EndedLoopProjects(w, s, steps, pid);
    OnePassShowsOwners(w.norm, s.table);
    ProjectableNames(w.norm, s.table);
  }
}
