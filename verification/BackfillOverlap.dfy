/** Overlapping backfill executors: when they converge, and a history in which they do not. */
module BackfillOverlap {
  import opened Common
  import opened Ordering
  import opened BackfillPaging
  import opened BackfillTarget
  import opened BackfillRuns
  import opened BackfillHistory
  import opened BackfillAcceptance

  /** The first `n` rows project, and the target covers their entries. */
  ghost predicate Filled(w: World, t0: Target, rows: seq<SourceRow>, t: Target, n: nat) {
    n <= |rows| && Projectable(w.norm, rows[..n]) && CoversAll(t0, Entries(w.norm, rows), t, Entries(w.norm, rows[..n]))
  }

  ghost predicate CursorFilled(w: World, t0: Target, rows: seq<SourceRow>, t: Target, c: Cursor) {
    Filled(w, t0, rows, t, From(rows, c.after))
  }

  ghost predicate ExecutorFilled(w: World, t0: Target, rows: seq<SourceRow>, t: Target, x: Executor) {
    && CursorFilled(w, t0, rows, t, x.cursor)
    && (x.pc.Inserted? ==> CoversAll(t0, Entries(w.norm, rows), t, Entries(w.norm, x.pc.page)))
    && (x.pc.LoopEnded? ==> Filled(w, t0, rows, t, |rows|))
  }

  ghost predicate FillInv(w: World, s: State, t0: Target) {
    && SliceInv(w, s)
    && Framed(t0, Entries(w.norm, s.Rows()), s.target)
    && (forall id :: id in s.runs && s.runs[id].epoch == s.epoch ==>
          CursorFilled(w, t0, s.Rows(), s.target, s.runs[id].cursor))
    && (forall pid :: pid in s.executors && s.executors[pid].epoch == s.epoch ==>
          ExecutorFilled(w, t0, s.Rows(), s.target, s.executors[pid]))
  }

  lemma FilledIn(w: World, rows: seq<SourceRow>, i: nat)
    requires i <= |rows|
    ensures forall e :: e in Entries(w.norm, rows[..i]) ==> e in Entries(w.norm, rows)
  {
    assert rows[0..i] == rows[..i];
    PageEntries(w, rows, 0, i);
  }

  lemma FilledStays(w: World, t0: Target, rows: seq<SourceRow>, t: Target, es: seq<Entry>, n: nat)
    requires NoTopTie(t0, Entries(w.norm, rows)) && Framed(t0, Entries(w.norm, rows), t)
    requires (forall e :: e in es ==> e in Entries(w.norm, rows)) && Filled(w, t0, rows, t, n)
    ensures Filled(w, t0, rows, PutAll(t, es), n)
  {
    hide Entries, PutAll, NoTopTie, Framed, CoversAll, Projectable;
    FilledIn(w, rows, n);
    InsertsCover(t0, Entries(w.norm, rows), t, es, Entries(w.norm, rows[..n]));
  }

  /** What executor `x` has filled stays filled when any source entries are inserted. */
  lemma ExecutorStays(w: World, t0: Target, rows: seq<SourceRow>, t: Target, es: seq<Entry>, x: Executor)
    requires NoTopTie(t0, Entries(w.norm, rows)) && Framed(t0, Entries(w.norm, rows), t)
    requires (forall e :: e in es ==> e in Entries(w.norm, rows)) && ExecutorFilled(w, t0, rows, t, x)
    requires x.pc.Inserted? ==> forall e :: e in Entries(w.norm, x.pc.page) ==> e in Entries(w.norm, rows)
    ensures ExecutorFilled(w, t0, rows, PutAll(t, es), x)
  {
    hide Entries, PutAll, NoTopTie, Framed, CoversAll, Filled, From;
    FilledStays(w, t0, rows, t, es, From(rows, x.cursor.after));
    if x.pc.Inserted? { InsertsCover(t0, Entries(w.norm, rows), t, es, Entries(w.norm, x.pc.page)); }
    if x.pc.LoopEnded? { FilledStays(w, t0, rows, t, es, |rows|); }
  }

  lemma InsertKeepsFillInv(w: World, s: State, pid: Pid, t0: Target)
    requires FillInv(w, s, t0) && NoTopTie(t0, Entries(w.norm, s.Rows())) && Enabled(w, s, Insert(pid))
    ensures FillInv(w, Apply(w, s, Insert(pid)), t0)
  {
    hide SliceInv, Entries, EligibleRows, PutAll, NoTopTie, Framed, CoversAll, Filled, ExecutorFilled, From;
    StepKeepsSliceInv(w, s, Insert(pid));
    PageFromSource(w, s, pid);
    SliceOf(w, s, pid);
    var rows, s' := s.Rows(), Apply(w, s, Insert(pid));
    var page := Entries(w.norm, s.executors[pid].pc.page);
    NothingCovered(t0, Entries(w.norm, rows), s.target);
    InsertsCover(t0, Entries(w.norm, rows), s.target, page, []);
    forall id | id in s'.runs && s'.runs[id].epoch == s.epoch
      ensures CursorFilled(w, t0, rows, s'.target, s'.runs[id].cursor)
    {
      FilledStays(w, t0, rows, s.target, page, From(rows, s.runs[id].cursor.after));
    }
    forall p | p in s'.executors && s'.executors[p].epoch == s.epoch
      ensures ExecutorFilled(w, t0, rows, s'.target, s'.executors[p])
    {
      if s.executors[p].pc.Inserted? { PageFromSource(w, s, p); }
      ExecutorStays(w, t0, rows, s.target, page, s.executors[p]);
      JustInserted(w, t0, rows, s'.target, s.executors[p], s.executors[pid].pc.page);
    }
  }

  lemma NothingCovered(t0: Target, all: seq<Entry>, t: Target)
    ensures CoversAll(t0, all, t, [])
  {
  }

  lemma JustInserted(w: World, t0: Target, rows: seq<SourceRow>, t: Target, x: Executor, page: seq<SourceRow>)
    requires ExecutorFilled(w, t0, rows, t, x) && CoversAll(t0, Entries(w.norm, rows), t, Entries(w.norm, page))
    ensures ExecutorFilled(w, t0, rows, t, x.(pc := Inserted(page)))
  {
  }

  /** After a page the cursor has filled the rows up to where the paging goes on, and all of them
      when the page was the last. */
  lemma SaveFills(w: World, s: State, t0: Target, x: Executor)
    requires Sorted(s.table) && HasSlice(w, s.Rows(), x) && x.pc.Inserted?
    requires ExecutorFilled(w, t0, s.Rows(), s.target, x)
    ensures CursorFilled(w, t0, s.Rows(), s.target, NextCursor(x.cursor, x.pc.page))
    ensures |x.pc.page| < x.batch ==> Filled(w, t0, s.Rows(), s.target, |s.Rows()|)
  {
    hide EligibleRows, From, Filled;
    var rows := s.Rows();
    var f := From(rows, x.cursor.after);
    SavedCursor(w, s.table, x);
    FilledFurther(w, t0, rows, s.target, f, f + |x.pc.page|);
    StartFilled(w, t0, rows, s.target);
  }

  lemma FilledFurther(w: World, t0: Target, rows: seq<SourceRow>, t: Target, i: nat, j: nat)
    requires i <= j <= |rows| && Filled(w, t0, rows, t, i) && Projectable(w.norm, rows[i..j])
    requires CoversAll(t0, Entries(w.norm, rows), t, Entries(w.norm, rows[i..j]))
    ensures Filled(w, t0, rows, t, j)
  {
    hide Entries, Covers;
    PageEntries(w, rows, i, j);
    assert rows[..j] == rows[..i] + rows[i..j];
    ProjectableConcat(w.norm, rows[..i], rows[i..j]);
  }

  lemma StartFilled(w: World, t0: Target, rows: seq<SourceRow>, t: Target)
    ensures Filled(w, t0, rows, t, 0) && From(rows, START.after) == 0
  {
    assert rows[..0] == [];
  }

  lemma StepKeepsFillInv(w: World, s: State, step: Step, t0: Target)
    requires FillInv(w, s, t0) && NoTopTie(t0, Entries(w.norm, s.Rows()))
    requires Enabled(w, s, step) && !step.MoveEpoch?
    ensures FillInv(w, Apply(w, s, step), t0)
  {
    hide SliceInv, Entries, EligibleRows, PutAll, NoTopTie, Framed, CoversAll, Projectable, StatsMatch, Filled;
    hide Page, From;
    StepKeepsSliceInv(w, s, step);
    EpochsAgree(w, s);
    match step {
      case Start(_, _) => StartFilled(w, t0, s.Rows(), s.target);
      case ReadPage(pid) => EmptyPageFills(w, s, pid, t0);
      case Insert(pid) => InsertKeepsFillInv(w, s, pid, t0);
      case Save(pid) =>
        SliceOf(w, s, pid);
        SaveFills(w, s, t0, s.executors[pid]);
      case _ =>
    }
  }

  lemma EmptyPageFills(w: World, s: State, pid: Pid, t0: Target)
    requires FillInv(w, s, t0) && Enabled(w, s, ReadPage(pid))
    ensures Page(s.table, s.executors[pid].cursor, s.executors[pid].batch) == [] ==>
              Filled(w, t0, s.Rows(), s.target, |s.Rows()|)
  {
    hide SliceInv, Filled, Projectable, EligibleRows, From, Page, Sorted;
    SliceOf(w, s, pid);
    ReadPageSlices(w, s, s.executors[pid]);
  }

  lemma {:induction false} HistoryKeepsFillInv(w: World, s: State, steps: seq<Step>, t0: Target)
    requires FillInv(w, s, t0) && NoTopTie(t0, Entries(w.norm, s.Rows()))
    requires Valid(w, s, steps) && After(w, s, steps).epoch == s.epoch
    ensures After(w, s, steps).table == s.table && FillInv(w, After(w, s, steps), t0)
    decreases |steps|
  {
    hide FillInv, NoTopTie;
    if steps != [] {
      var next := Apply(w, s, steps[0]);
      EpochNeverReturns(w, next, steps[1..]);
      if !steps[0].MoveEpoch? {
        StepKeepsFillInv(w, s, steps[0], t0);
        HistoryKeepsFillInv(w, next, steps[1..], t0);
      }
    }
  }

  lemma FillInvBegins(w: World, s: State)
    requires BeginsEpoch(s)
    ensures FillInv(w, s, s.target)
  {
    hide Entries, EligibleRows, Filled, Framed, From;
    StartFilled(w, s.target, s.Rows(), s.target);
    NothingChanged(s.target, Entries(w.norm, s.Rows()));
  }

  /** However executors overlap, crash, stop and resume, from any source and target in which no two
      entries tie for the highest version of a key: an ended loop leaves the table of one pass. */
  lemma OverlappingConverges(w: World, s: State, steps: seq<Step>, pid: Pid)
    requires BeginsEpoch(s) && NoTopTie(s.target, Entries(w.norm, s.Rows()))
    requires Valid(w, s, steps) && After(w, s, steps).epoch == s.epoch && LoopEndedHere(After(w, s, steps), pid)
    ensures After(w, s, steps).target == PutAll(s.target, Entries(w.norm, s.Rows()))
    ensures Projectable(w.norm, s.Rows())
  {
    hide Entries, EligibleRows, NoTopTie, Framed, CoversAll, Projectable, BeginsEpoch, PutAll;
    FillInvBegins(w, s);
    HistoryKeepsFillInv(w, s, steps, s.target);
    assert s.Rows()[..|s.Rows()|] == s.Rows();
    CoveredIsOneShot(s.target, Entries(w.norm, s.Rows()), After(w, s, steps).target);
  }

  /** In particular an empty target then shows exactly the owners of the source table. */
  lemma OverlappingShowsOwners(w: World, s: State, steps: seq<Step>, pid: Pid)
    requires BeginsEpoch(s) && s.target == map[] && NoTopTie(map[], Entries(w.norm, s.Rows()))
    requires Valid(w, s, steps) && After(w, s, steps).epoch == s.epoch && LoopEndedHere(After(w, s, steps), pid)
    ensures ShowsOwners(w.norm, s.table, After(w, s, steps).target) && NamesRemain(w.norm, s.table)
  {
    hide BeginsEpoch, NoTopTie, ShowsOwners, NamesRemain, LoopEndedHere;
    OverlappingConverges(w, s, steps, pid);
    OnePassShowsOwners(w.norm, s.table);
    ProjectableNames(w.norm, s.table);
  }

  /** With distinct keys that nothing in the target outranks, the comparison after a loop succeeds
      exactly when no stale row is left visible. */
  lemma LoopEndAcceptedIffExact(w: World, s: State, steps: seq<Step>, pid: Pid)
    requires BeginsEpoch(s) && DistinctKeys(Entries(w.norm, s.Rows()))
    requires NoneOutranks(s.target, Entries(w.norm, s.Rows()))
    requires Valid(w, s, steps) && After(w, s, steps).epoch == s.epoch && LoopEndedHere(After(w, s, steps), pid)
    ensures StatsMatch(w.hash, s.Rows(), After(w, s, steps).target) <==> Exact(w, s.Rows(), After(w, s, steps).target)
  {
    hide Entries, EligibleRows, NoneOutranks, DistinctKeys, Projectable, Held;
    hide BeginsEpoch, StatsMatch, PutAll, NoTopTie;
    LoopEndHolds(w, s, steps, pid);
    HoldingAcceptedIffImage(w.norm, w.hash, s.Rows(), After(w, s, steps).target);
  }

  lemma LoopEndHolds(w: World, s: State, steps: seq<Step>, pid: Pid)
    requires BeginsEpoch(s) && DistinctKeys(Entries(w.norm, s.Rows()))
    requires NoneOutranks(s.target, Entries(w.norm, s.Rows()))
    requires Valid(w, s, steps) && After(w, s, steps).epoch == s.epoch && LoopEndedHere(After(w, s, steps), pid)
    ensures Projectable(w.norm, s.Rows()) && Held(After(w, s, steps).target, Entries(w.norm, s.Rows()))
  {
    hide Entries, EligibleRows, NoneOutranks, DistinctKeys, Projectable, BeginsEpoch, StatsMatch, PutAll, NoTopTie;
    var es := Entries(w.norm, s.Rows());
    DistinctHasNoTie(s.target, es);
    OverlappingConverges(w, s, steps, pid);
    InsertsAreHeld(s.target, es, es, []);
  }

  lemma {:induction false} WrittenRank(t: Target, es: seq<Entry>)
    requires WrittenBy(t, es) && DistinctKeys(es)
    ensures NoneOutranks(t, es)
  {
    forall e | e in es && e.key in t ensures t[e.key].rank <= e.value.rank {
      DistinctUnique(es, e, Entry(e.key, t[e.key]));
    }
  }

  /** From a target without foreign rows, the comparison after a loop succeeds exactly when no two
      eligible rows share a target key: a correct backfill of two rows that differ in role alone
      is refused. */
  lemma LoopEndAcceptedIffDistinct(w: World, s: State, steps: seq<Step>, pid: Pid)
    requires BeginsEpoch(s) && WrittenBy(s.target, Entries(w.norm, s.Rows()))
    requires Valid(w, s, steps) && After(w, s, steps).epoch == s.epoch && LoopEndedHere(After(w, s, steps), pid)
    ensures StatsMatch(w.hash, s.Rows(), After(w, s, steps).target) <==> DistinctKeys(Entries(w.norm, s.Rows()))
  {
    hide Entries, EligibleRows, NoneOutranks, DistinctKeys, Keys, Projectable, Held, BeginsEpoch, StatsMatch;
    var es, s' := Entries(w.norm, s.Rows()), After(w, s, steps);
    assert WrittenBy(Visible(s.target), es);
    AcceptInvBegins(w, s, s.Rows());
    CleanHistory(w, s, steps);
    if StatsMatch(w.hash, s.Rows(), s'.target) { CleanAcceptIsExact(w, s.Rows(), s'.target); }
    if DistinctKeys(es) {
      WrittenRank(s.target, es);
      LoopEndHolds(w, s, steps, pid);
      HeldIsShown(w, s.Rows(), s'.target);
      StatsMatchIffDistinct(w.norm, w.hash, s.Rows(), s'.target);
    }
  }

  lemma HeldIsShown(w: World, rows: seq<SourceRow>, t: Target)
    requires Held(t, Entries(w.norm, rows))
    ensures Keys(Entries(w.norm, rows)) <= Visible(t).Keys
  {
    var es := Entries(w.norm, rows);
    EntriesVisible(w.norm, rows);
    forall k | k in Keys(es) ensures k in Visible(t) { KeyHolder(es, k); }
  }
}
