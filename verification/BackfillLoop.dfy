/** The paged loop of one backfill call, with its stop polls and epoch checks. */
module BackfillLoop {
  import opened Common
  import opened BackfillPaging
  import opened BackfillTarget

  datatype BackfillError = InvalidArguments | StopRequested | EpochChanged | NoBinding | CheckpointRejected

  /** What the n-th stop poll, the n-th epoch check and the n-th checkpoint of the call meet; a
      checkpoint is rejected when the run is not RUNNING any more. */
  datatype Environment = Environment(stop: nat -> bool, epochHolds: nat -> bool, checkpointHolds: nat -> bool)

  predicate ValidArguments(batch: int, maxRows: Option<int>) {
    1 <= batch <= MAX_BATCH_SIZE && (maxRows.Some? ==> maxRows.value >= 1)
  }

  /** No page but the last can end in an empty application number, which would start the paging
      over; see EndsIffFewEmptyApps. From a later start, and for a single page, there is nothing
      to require. */
  predicate MovesForward(rows: seq<SourceRow>, lo: nat, batch: int, maxRows: Option<int>) {
    lo > 0 || EmptyApps(rows) < batch || (maxRows.Some? && maxRows.value <= batch)
  }

  function End(rows: seq<SourceRow>, lo: nat, maxRows: Option<int>): int {
    if maxRows.None? || maxRows.value > |rows| then |rows|
    else if maxRows.value < lo then lo else maxRows.value
  }

  /** From table `t0` and checkpoint `c0`, the rows from `lo` to `hi` have been inserted and
      checkpointed up to `saved`. */
  ghost predicate Progress(norm: string -> string, rows: seq<SourceRow>, lo: nat, saved: nat, hi: nat,
                           t0: Target, c0: Cursor, t: Target, c: Cursor)
  {
    && lo <= saved <= hi <= |rows|
    && Projectable(norm, rows[lo..hi])
    && t == PutAll(t0, Entries(norm, rows[lo..hi]))
    && c == (if saved == lo then c0 else CursorAt(rows, saved))
  }

  class LookupStore {
    var target: Target
    var checkpoint: Cursor

    constructor ()
      ensures target == map[] && checkpoint == START
    {
      target, checkpoint := map[], START;
    }

    /** `lo` rows were emitted before the call. Only a failed epoch check or a rejected checkpoint
        can leave rows that are inserted but not checkpointed, and then at most one batch. */
    method Backfill(table: seq<SourceRow>, norm: string -> string, batch: int, maxRows: Option<int>,
                    ghost lo: nat, cursor: Cursor, env: Environment)
      returns (r: Result<Cursor, BackfillError>, ghost saved: nat, ghost hi: nat)
      requires Sorted(table) && lo <= |EligibleRows(table)|
      requires cursor == CursorAt(EligibleRows(table), lo) && Usable(EligibleRows(table), lo)
      requires ValidArguments(batch, maxRows) ==> MovesForward(EligibleRows(table), lo, batch, maxRows)
      modifies this
      ensures r == Err(InvalidArguments) <==> batch < 1 || batch > 20000 || (maxRows.Some? && maxRows.value < 1)
      ensures Progress(norm, EligibleRows(table), lo, saved, hi, old(target), old(checkpoint), target, checkpoint)
      ensures lo <= saved <= hi <= |EligibleRows(table)|
      ensures r.Ok? ==> saved == hi == End(EligibleRows(table), lo, maxRows)
                        && r.value == CursorAt(EligibleRows(table), hi)
      ensures saved < hi ==> (r == Err(EpochChanged) || r == Err(CheckpointRejected)) && hi <= saved + batch
      ensures r == Err(CheckpointRejected) ==> saved < hi
      ensures r.Ok? && maxRows.None? && lo == 0 && old(target) == map[] ==>
                ShowsOwners(norm, table, target) && NamesRemain(norm, table)
      ensures r == Err(NoBinding) ==>
                !Projectable(norm, EligibleRows(table)[hi..Min(hi + batch, |EligibleRows(table)|)])
    {
      hide Progress, CursorAt, Usable, MovesForward, EligibleRows, Projectable, Sorted, ShowsOwners, NamesRemain;
      saved, hi := lo, lo;
      NoProgress(norm, EligibleRows(table), lo, target, checkpoint);
      if !ValidArguments(batch, maxRows) { return Err(InvalidArguments), saved, hi; }
      if !env.epochHolds(0) { return Err(EpochChanged), saved, hi; }
      r, saved, hi := Pages(table, norm, batch, maxRows, lo, cursor, env);
      if r.Ok? { EndShowsOwners(norm, table, lo, hi, old(target), old(checkpoint), target, checkpoint); }
    }

    /** The loop, after the arguments and the epoch were checked once. */
    method Pages(table: seq<SourceRow>, norm: string -> string, batch: int, maxRows: Option<int>,
                 ghost lo: nat, cursor: Cursor, env: Environment)
      returns (r: Result<Cursor, BackfillError>, ghost saved: nat, ghost hi: nat)
      requires Sorted(table) && lo <= |EligibleRows(table)| && ValidArguments(batch, maxRows)
      requires cursor == CursorAt(EligibleRows(table), lo) && Usable(EligibleRows(table), lo)
      requires MovesForward(EligibleRows(table), lo, batch, maxRows)
      modifies this
      ensures r != Err(InvalidArguments)
      ensures Progress(norm, EligibleRows(table), lo, saved, hi, old(target), old(checkpoint), target, checkpoint)
      ensures lo <= saved <= hi <= |EligibleRows(table)|
      ensures r.Ok? ==> saved == hi == End(EligibleRows(table), lo, maxRows)
                        && r.value == CursorAt(EligibleRows(table), hi)
      ensures saved < hi ==> (r == Err(EpochChanged) || r == Err(CheckpointRejected)) && hi <= saved + batch
      ensures r == Err(CheckpointRejected) ==> saved < hi
      ensures r == Err(NoBinding) ==>
                !Projectable(norm, EligibleRows(table)[hi..Min(hi + batch, |EligibleRows(table)|)])
    {
      hide Progress, CursorAt, Usable, MovesForward, EligibleRows, Matching, Page, NextCursor;
      hide Projectable, Project, Entries, PutAll, EmptyApps, Eligible, Sorted;
      saved, hi := lo, lo;
      ghost var rows := EligibleRows(table);
      NoProgress(norm, rows, lo, target, checkpoint);
      var polls, checks, saves := 0, 1, 0;
      var state := cursor;
      PageStep(table, lo, 1);
      while true
        invariant Progress(norm, rows, lo, saved, hi, old(target), old(checkpoint), target, checkpoint)
        invariant lo <= saved == hi <= |rows| && hi <= End(rows, lo, maxRows)
        invariant state == CursorAt(rows, hi) && state.emitted == hi
        invariant Usable(rows, hi) || (maxRows.Some? && maxRows.value <= hi)
        invariant polls >= 0 && checks >= 0 && saves >= 0
        decreases |rows| - hi
      {
        if env.stop(polls) { return Err(StopRequested), saved, hi; }
        polls := polls + 1;
        if maxRows.Some? && maxRows.value - state.emitted <= 0 { break; }
        var limit := if maxRows.None? then batch else Min(batch, maxRows.value - state.emitted);
        if !env.epochHolds(checks) { return Err(EpochChanged), saved, hi; }
        checks := checks + 1;
        PageStep(table, hi, limit);
        var page := Page(table, state, limit);
        if page == [] { break; }
        if !Projectable(norm, page) {
          NotProjectableLonger(norm, rows, hi, hi + |page|, Min(hi + batch, |rows|));
          return Err(NoBinding), saved, hi;
        }
        ProgressInserts(norm, rows, lo, hi, hi + |page|, old(target), old(checkpoint), target, checkpoint);
        target := PutAll(target, Entries(norm, page));
        hi := hi + |page|;
        var next := NextCursor(state, page);
        if !env.epochHolds(checks) { return Err(EpochChanged), saved, hi; }
        checks := checks + 1;
        if !env.checkpointHolds(saves) { return Err(CheckpointRejected), saved, hi; }
        saves := saves + 1;
        checkpoint := next;
        state := next;
        saved := hi;
        if |page| < limit { break; }
        UsableAhead(table, lo, batch, maxRows, hi - limit, hi, limit);
      }
      return Ok(state), saved, hi;
    }
  }

  lemma EndShowsOwners(norm: string -> string, table: seq<SourceRow>, lo: nat, hi: nat, t0: Target, c0: Cursor,
                       t: Target, c: Cursor)
    requires Progress(norm, EligibleRows(table), lo, hi, hi, t0, c0, t, c)
    ensures lo == 0 && hi == |EligibleRows(table)| && t0 == map[] ==>
              ShowsOwners(norm, table, t) && NamesRemain(norm, table)
  {
    hide ShowsOwners, NamesRemain, Entries, PutAll;
    if lo == 0 && hi == |EligibleRows(table)| && t0 == map[] {
      assert EligibleRows(table)[0..hi] == EligibleRows(table);
      OnePassShowsOwners(norm, table);
      ProjectableNames(norm, table);
    }
  }

  lemma UsableAhead(table: seq<SourceRow>, lo: nat, batch: int, maxRows: Option<int>, i: nat, hi: nat, limit: int)
    requires Sorted(table) && MovesForward(EligibleRows(table), lo, batch, maxRows)
    requires lo <= i && limit > 0 && i + limit == hi <= |EligibleRows(table)| && Usable(EligibleRows(table), lo)
    requires limit == batch || (maxRows.Some? && limit == Min(batch, maxRows.value - i))
    ensures Usable(EligibleRows(table), hi) || (maxRows.Some? && maxRows.value <= hi)
  {
    var rows := EligibleRows(table);
    EligibleSorted(table);
    EmptyAppsFirst(rows, hi - 1);
    if lo > 0 { EmptyAppsFirst(rows, lo - 1); }
  }

  lemma ProgressInserts(norm: string -> string, rows: seq<SourceRow>, lo: nat, mid: nat, hi: nat,
                        t0: Target, c0: Cursor, t: Target, c: Cursor)
    requires Progress(norm, rows, lo, mid, mid, t0, c0, t, c)
    requires mid < hi <= |rows| && Projectable(norm, rows[mid..hi])
    ensures var t' := PutAll(t, Entries(norm, rows[mid..hi]));
            && Progress(norm, rows, lo, mid, hi, t0, c0, t', c)
            && Progress(norm, rows, lo, hi, hi, t0, c0, t', CursorAt(rows, hi))
  {
    InsertedFurther(norm, t0, rows, lo, mid, hi);
  }

  lemma NoProgress(norm: string -> string, rows: seq<SourceRow>, lo: nat, t: Target, c: Cursor)
    requires lo <= |rows|
    ensures Progress(norm, rows, lo, lo, lo, t, c, t, c)
  {
    assert rows[lo..lo] == [];
  }

  lemma PageStep(table: seq<SourceRow>, i: nat, limit: nat)
    requires Sorted(table) && i <= |EligibleRows(table)| && Usable(EligibleRows(table), i) && limit > 0
    ensures var rows := EligibleRows(table);
            var page := Page(table, CursorAt(rows, i), limit);
            && CursorAt(rows, i).emitted == i
            && i + |page| == Min(i + limit, |rows|)
            && page == rows[i..i + |page|]
            && (page == []
                || (NextCursor(CursorAt(rows, i), page) == CursorAt(rows, i + |page|)
                    && CursorAt(rows, i + |page|).emitted == i + |page|))
  {
    hide EligibleRows, Page, Sorted;
    PageIsNextSlice(table, i, limit);
  }

  lemma NotProjectableLonger(norm: string -> string, rows: seq<SourceRow>, i: nat, j: nat, k: nat)
    requires i <= j <= k <= |rows| && !Projectable(norm, rows[i..j])
    ensures !Projectable(norm, rows[i..k])
  {
    var at :| 0 <= at < j - i && Project(norm, rows[i..j][at]).None?;
    assert rows[i..k][at] == rows[i..j][at];
  }

  lemma InsertedFurther(norm: string -> string, t: Target, rows: seq<SourceRow>, lo: nat, mid: nat, hi: nat)
    requires lo <= mid <= hi <= |rows|
    requires Projectable(norm, rows[lo..mid]) && Projectable(norm, rows[mid..hi])
    ensures Projectable(norm, rows[lo..hi])
    ensures PutAll(PutAll(t, Entries(norm, rows[lo..mid])), Entries(norm, rows[mid..hi]))
            == PutAll(t, Entries(norm, rows[lo..hi]))
  {
    assert rows[lo..hi] == rows[lo..mid] + rows[mid..hi];
    EntriesConcat(norm, rows[lo..mid], rows[mid..hi]);
    PutAllConcat(t, Entries(norm, rows[lo..mid]), Entries(norm, rows[mid..hi]));
  }
}
