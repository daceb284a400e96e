/** The histories in which overlapping backfill executors do not converge: when two entries tie for
    the highest version of a key, one executor reads a page with the one entry, another carries the
    same run to its end, and then the first inserts its page. */
module BackfillDivergence {
  import opened Common
  import opened Ordering
  import opened BackfillPaging
  import opened BackfillTarget
  import opened BackfillRuns
  import opened BackfillHistory
  import opened BackfillOverlap

  /** The run can be worked on, and every row projects. */
  ghost predicate Workable(w: World, s: State, id: RunId) {
    && Sorted(s.table) && Projectable(w.norm, s.Rows())
    && id in s.runs && s.runs[id].epoch == s.epoch && s.runs[id].status == Running && !s.runs[id].stopRequested
  }

  lemma Follow(w: World, s: State, step: Step, rest: seq<Step>)
    requires Enabled(w, s, step) && Valid(w, Apply(w, s, step), rest)
    ensures Valid(w, s, [step] + rest) && After(w, s, [step] + rest) == After(w, Apply(w, s, step), rest)
  {
    assert ([step] + rest)[1..] == rest;
  }

  lemma {:induction false} Chain(w: World, s: State, a: seq<Step>, b: seq<Step>)
    requires Valid(w, s, a) && Valid(w, After(w, s, a), b)
    ensures Valid(w, s, a + b) && After(w, s, a + b) == After(w, After(w, s, a), b)
    decreases |a|
  {
    hide Enabled, Apply;
    if a == [] {
      assert a + b == b;
    } else {
      assert (a + b)[1..] == a[1..] + b;
      Chain(w, Apply(w, s, a[0]), a[1..], b);
    }
  }

  // ---------- One executor joins, reads, inserts and saves ----------

  ghost function Joined(s: State, id: RunId, pid: Pid, batch: nat, pc: Pc): State
    requires id in s.runs
  {
    s.(executors := s.executors[pid := Executor(id, s.epoch, batch, s.runs[id].cursor, pc)])
  }

  lemma Joins(w: World, s: State, id: RunId, pid: Pid, batch: nat) returns (steps: seq<Step>)
    requires Workable(w, s, id) && pid !in s.executors && w.leastBatch <= batch && 1 <= batch <= MAX_BATCH_SIZE
    ensures Valid(w, s, steps) && After(w, s, steps) == Joined(s, id, pid, batch, AtTop)
  {
    hide Sorted, Projectable, EligibleRows, StatsMatch, Page;
    var load, claim, work := Load(pid, id, s.epoch, batch), Claim(pid), NeedsWork(pid);
    var s1 := Apply(w, s, load);
    assert s1 == Joined(s, id, pid, batch, Loaded(Running));
    assert s1.runs[id := ClaimedRun(s1.runs[id], Running)] == s1.runs;
    var s2 := Apply(w, s1, claim);
    assert s2 == Joined(s, id, pid, batch, Verifying);
    var s3 := Apply(w, s2, work);
    assert s3 == Joined(s, id, pid, batch, AtTop);
    Follow(w, s2, work, []);
    Follow(w, s1, claim, [work] + []);
    Follow(w, s, load, [claim] + ([work] + []));
    steps := [load] + ([claim] + ([work] + []));
  }

  lemma Reads(w: World, s: State, id: RunId, pid: Pid, batch: nat)
    requires Workable(w, s, id)
    ensures var page := NextRows(s.Rows(), s.runs[id].cursor.after, batch);
            && Enabled(w, Joined(s, id, pid, batch, AtTop), ReadPage(pid))
            && Apply(w, Joined(s, id, pid, batch, AtTop), ReadPage(pid))
               == Joined(s, id, pid, batch, if page == [] then LoopEnded else HasPage(page))
  {
    hide Sorted, EligibleRows, StatsMatch, Page, From;
    PageIsNextRows(s.table, s.runs[id].cursor, batch);
  }

  /** The state after an executor has come, carried one page over, and gone. */
  ghost function Carried(w: World, s: State, id: RunId, batch: nat): State
    requires id in s.runs && batch > 0
  {
    var page := NextRows(s.Rows(), s.runs[id].cursor.after, batch);
    if page == [] then s
    else s.(target := PutAll(s.target, Entries(w.norm, page)),
            runs := Checkpointed(s.runs, id, NextCursor(s.runs[id].cursor, page)))
  }

  lemma InsertsSavesLeaves(w: World, s: State, id: RunId, pid: Pid, batch: nat) returns (steps: seq<Step>)
    requires Workable(w, s, id) && pid !in s.executors && batch > 0
    requires NextRows(s.Rows(), s.runs[id].cursor.after, batch) != []
    ensures var page := NextRows(s.Rows(), s.runs[id].cursor.after, batch);
            Valid(w, Joined(s, id, pid, batch, HasPage(page)), steps)
            && After(w, Joined(s, id, pid, batch, HasPage(page)), steps) == Carried(w, s, id, batch)
  {
    hide Sorted, Projectable, EligibleRows, StatsMatch, Page, From, NextRows, Entries, PutAll;
    var page := NextRows(s.Rows(), s.runs[id].cursor.after, batch);
    var s1 := Joined(s, id, pid, batch, HasPage(page));
    var s2 := Apply(w, s1, Insert(pid));
    var s3 := Apply(w, s2, Save(pid));
    var s4 := Apply(w, s3, Crash(pid));
    assert s4.executors == s.executors;
    assert s4 == Carried(w, s, id, batch);
    Follow(w, s3, Crash(pid), []);
    Follow(w, s2, Save(pid), [Crash(pid)] + []);
    Follow(w, s1, Insert(pid), [Save(pid)] + ([Crash(pid)] + []));
    steps := [Insert(pid)] + ([Save(pid)] + ([Crash(pid)] + []));
  }

  lemma Carries(w: World, s: State, id: RunId, pid: Pid, batch: nat) returns (steps: seq<Step>)
    requires Workable(w, s, id) && pid !in s.executors && w.leastBatch <= batch && 1 <= batch <= MAX_BATCH_SIZE
    requires NextRows(s.Rows(), s.runs[id].cursor.after, batch) != []
    ensures Valid(w, s, steps) && After(w, s, steps) == Carried(w, s, id, batch)
  {
    hide Enabled, Apply, NextRows, Sorted, Projectable, EligibleRows;
    var join := Joins(w, s, id, pid, batch);
    var top := Joined(s, id, pid, batch, AtTop);
    var leave := InsertsSavesLeaves(w, s, id, pid, batch);
    Reads(w, s, id, pid, batch);
    Follow(w, top, ReadPage(pid), leave);
    Chain(w, s, join, [ReadPage(pid)] + leave);
    steps := join + ([ReadPage(pid)] + leave);
  }

  // ---------- Many executors carry the run to any row ----------

  /** The rows from `f` to `g` are inserted and the run's cursor has moved to `g`. */
  ghost predicate Moved(w: World, s: State, s': State, id: RunId, f: nat, g: nat) {
    && f <= g <= |s.Rows()| && id in s.runs && id in s'.runs
    && s' == s.(target := PutAll(s.target, Entries(w.norm, s.Rows()[f..g])),
                runs := s.runs[id := s.runs[id].(cursor := s'.runs[id].cursor)])
    && From(s.Rows(), s'.runs[id].cursor.after) == g
  }

  lemma CarriedMoves(w: World, s: State, id: RunId, batch: nat, f: nat)
    requires Workable(w, s, id) && f == From(s.Rows(), s.runs[id].cursor.after)
    requires batch > 0 && f + batch <= |s.Rows()| && s.Rows()[f + batch - 1].key.app != ""
    ensures Moved(w, s, Carried(w, s, id, batch), id, f, f + batch)
  {
    hide EligibleRows, From, Projectable;
    EligibleSorted(s.table);
    FromRow(s.Rows(), f + batch);
  }

  lemma MovesAddUp(w: World, s: State, s1: State, s2: State, id: RunId, f: nat, m: nat, g: nat)
    requires Moved(w, s, s1, id, f, m) && Moved(w, s1, s2, id, m, g)
    ensures Moved(w, s, s2, id, f, g)
  {
    hide EligibleRows, From, Entries, PutAll;
    var rows := s.Rows();
    assert rows[f..g] == rows[f..m] + rows[m..g];
    EntriesConcat(w.norm, rows[f..m], rows[m..g]);
    PutAllConcat(s.target, Entries(w.norm, rows[f..m]), Entries(w.norm, rows[m..g]));
    assert s1.runs[id := s1.runs[id].(cursor := s2.runs[id].cursor)]
           == s.runs[id := s.runs[id].(cursor := s2.runs[id].cursor)];
  }

  /** From the start in one page over the empty application numbers, then row by row. */
  lemma {:induction false} Advance(w: World, s: State, id: RunId, pid: Pid, f: nat, g: nat) returns (steps: seq<Step>)
    requires Workable(w, s, id) && pid !in s.executors && w.leastBatch <= 1 && EmptyApps(s.Rows()) < MAX_BATCH_SIZE
    requires f == From(s.Rows(), s.runs[id].cursor.after) && f <= g <= |s.Rows()|
    requires (f == 0 || f > EmptyApps(s.Rows())) && (g == f || g > EmptyApps(s.Rows()))
    ensures Valid(w, s, steps) && Moved(w, s, After(w, s, steps), id, f, g)
    decreases g - f
  {
    hide Enabled, Apply, EligibleRows, From, Entries, PutAll, EmptyApps, Carried, Sorted, Projectable;
    if f == g {
      steps := [];
      NoMove(w, s, id, f);
    } else {
      var batch := if f == 0 then EmptyApps(s.Rows()) + 1 else 1;
      RowHasNumber(s, f + batch - 1);
      NextIsThere(s.Rows(), s.runs[id].cursor.after, batch);
      var carry := Carries(w, s, id, pid, batch);
      CarriedMoves(w, s, id, batch, f);
      var s1 := Carried(w, s, id, batch);
      var rest := Advance(w, s1, id, pid, f + batch, g);
      Chain(w, s, carry, rest);
      MovesAddUp(w, s, s1, After(w, s1, rest), id, f, f + batch, g);
      steps := carry + rest;
    }
  }

  lemma NextIsThere(rows: seq<SourceRow>, after: Key, batch: nat)
    requires batch > 0 && From(rows, after) < |rows|
    ensures NextRows(rows, after, batch) != []
  {
  }

  lemma NoMove(w: World, s: State, id: RunId, f: nat)
    requires id in s.runs && f == From(s.Rows(), s.runs[id].cursor.after)
    ensures Moved(w, s, s, id, f, f)
  {
    assert s.Rows()[f..f] == [];
    assert s.runs[id := s.runs[id].(cursor := s.runs[id].cursor)] == s.runs;
  }

  lemma RowHasNumber(s: State, i: nat)
    requires Sorted(s.table) && EmptyApps(s.Rows()) <= i < |s.Rows()|
    ensures s.Rows()[i].key.app != ""
  {
    EligibleSorted(s.table);
    EmptyAppsFirst(s.Rows(), i);
  }

  // ---------- The history that does not converge ----------

  /** A fresh run that nobody works on, over a source with few empty application numbers. */
  ghost predicate FreshRun(w: World, s: State, id: RunId) {
    && BeginsEpoch(s) && s.executors == map[] && id in s.runs && s.runs[id] == NewRun(s.epoch)
    && Projectable(w.norm, s.Rows()) && w.leastBatch <= 1
    && EmptyApps(s.Rows()) < MAX_BATCH_SIZE && (EmptyApps(s.Rows()) == 0 || EmptyApps(s.Rows()) < |s.Rows()|)
  }

  /** Executor 1 holds the page that ends with row `i`, and nothing behind its first row is inserted. */
  lemma HoldsPage(w: World, s: State, id: RunId, i: nat) returns (steps: seq<Step>, p: nat, s1: State)
    requires FreshRun(w, s, id) && i < |s.Rows()|
    ensures p <= i && (p == 0 || p > EmptyApps(s.Rows())) && Moved(w, s, s1, id, 0, p)
    ensures Valid(w, s, steps)
    ensures After(w, s, steps) == Joined(s1, id, 1, i + 1 - p, HasPage(s.Rows()[p..i + 1]))
  {
    hide Enabled, Apply, EligibleRows, Entries, PutAll, EmptyApps, Sorted, Projectable, CountUpTo;
    p := if i <= EmptyApps(s.Rows()) then 0 else i;
    var batch := i + 1 - p;
    var go := Advance(w, s, id, 1, 0, p);
    s1 := After(w, s, go);
    var join := Joins(w, s1, id, 1, batch);
    var top := Joined(s1, id, 1, batch, AtTop);
    Reads(w, s1, id, 1, batch);
    var read := [ReadPage(1)] + [];
    Follow(w, top, ReadPage(1), []);
    Chain(w, s1, join, read);
    Chain(w, s, go, join + read);
    steps := go + (join + read);
    assert NextRows(s.Rows(), s1.runs[id].cursor.after, batch) == s.Rows()[p..i + 1];
  }

  /** Executor 2 carries the run to its end beside the page that executor 1 holds. */
  lemma EndsBeside(w: World, s: State, id: RunId, p: nat) returns (steps: seq<Step>, s2: State)
    requires Workable(w, s, id) && s.executors.Keys == {1} && w.leastBatch <= 1
    requires EmptyApps(s.Rows()) < MAX_BATCH_SIZE
    requires p == From(s.Rows(), s.runs[id].cursor.after) && p < |s.Rows()|
    requires (p == 0 || p > EmptyApps(s.Rows())) && EmptyApps(s.Rows()) < |s.Rows()|
    ensures Moved(w, s, s2, id, p, |s.Rows()|)
    ensures Valid(w, s, steps) && After(w, s, steps) == Joined(s2, id, 2, 1, LoopEnded)
  {
    hide Enabled, Apply, EligibleRows, Entries, PutAll, EmptyApps, Sorted, Projectable, CountUpTo;
    var go := Advance(w, s, id, 2, p, |s.Rows()|);
    s2 := After(w, s, go);
    var join := Joins(w, s2, id, 2, 1);
    Reads(w, s2, id, 2, 1);
    var read := [ReadPage(2)] + [];
    Follow(w, Joined(s2, id, 2, 1, AtTop), ReadPage(2), []);
    Chain(w, s2, join, read);
    Chain(w, s, go, join + read);
    steps := go + (join + read);
  }

  /** The late insert puts the last row of the page back. */
  lemma LateInsertWins(w: World, rows: seq<SourceRow>, t0: Target, p: nat, i: nat, e: Entry)
    requires p <= i < |rows| && Project(w.norm, rows[i]) == Some(e) && !Outdone(t0, Entries(w.norm, rows), e)
    ensures var t1 := PutAll(t0, Entries(w.norm, rows[0..p]));
            var t2 := PutAll(t1, Entries(w.norm, rows[p..|rows|]));
            At(PutAll(t2, Entries(w.norm, rows[p..i + 1])), e.key) == Some(e.value)
  {
    hide PutAll, Project;
    var all, k, r := Entries(w.norm, rows), e.key, e.value.rank;
    PageEntries(w, rows, 0, p);
    PageEntries(w, rows, p, |rows|);
    PageEntries(w, rows, p, i);
    assert rows[p..i + 1] == rows[p..i] + [rows[i]];
    EntriesConcat(w.norm, rows[p..i], [rows[i]]);
    assert Entries(w.norm, [rows[i]]) == [e] by { assert [rows[i]][1..] == []; }
    assert forall c :: c in all && c.key == k ==> c.value.rank <= r;
    hide Entries;
    var t1 := PutAll(t0, Entries(w.norm, rows[0..p]));
    RankBound(t0, Entries(w.norm, rows[0..p]), k, r);
    RankBound(t1, Entries(w.norm, rows[p..|rows|]), k, r);
    LastStays(PutAll(t1, Entries(w.norm, rows[p..|rows|])), Entries(w.norm, rows[p..i]), e);
  }

  /** An entry that nothing outdoes and that a single pass does not leave in the table can be put
      back after the loop has ended. */
  lemma PutsBack(w: World, s: State, id: RunId, i: nat, e: Entry) returns (steps: seq<Step>)
    requires FreshRun(w, s, id) && i < |s.Rows()| && Project(w.norm, s.Rows()[i]) == Some(e)
    requires !Outdone(s.target, Entries(w.norm, s.Rows()), e)
    ensures Valid(w, s, steps) && After(w, s, steps).epoch == s.epoch && LoopEndedHere(After(w, s, steps), 2)
    ensures At(After(w, s, steps).target, e.key) == Some(e.value)
  {
    hide Enabled, Apply, EligibleRows, Entries, PutAll, EmptyApps, Sorted, Projectable, From, Project;
    var rows := s.Rows();
    var hold, p, s1 := HoldsPage(w, s, id, i);
    var held := After(w, s, hold);
    var finish, s2 := EndsBeside(w, held, id, p);
    var ended := After(w, held, finish);
    InsertsLate(w, ended, rows[p..i + 1]);
    Follow(w, ended, Insert(1), []);
    Chain(w, held, finish, [Insert(1)] + []);
    Chain(w, s, hold, finish + ([Insert(1)] + []));
    steps := hold + (finish + ([Insert(1)] + []));
    LateInsertWins(w, rows, s.target, p, i, e);
  }

  lemma InsertsLate(w: World, s: State, page: seq<SourceRow>)
    requires 1 in s.executors && s.executors[1].pc == HasPage(page) && s.executors[1].run in s.runs
    ensures Enabled(w, s, Insert(1))
    ensures var s' := Apply(w, s, Insert(1));
            && s' == s.(target := PutAll(s.target, Entries(w.norm, page)), executors := s'.executors)
            && forall pid :: pid in s.executors && pid != 1 ==>
                 pid in s'.executors && s'.executors[pid] == s.executors[pid]
  {
  }

  /** Overlapping executors of a fresh run always leave the table of one pass exactly when no two
      entries tie for the highest version of a key. */
  lemma OverlappingConvergesIffNoTie(w: World, s: State, id: RunId)
    requires FreshRun(w, s, id)
    ensures NoTopTie(s.target, Entries(w.norm, s.Rows())) <==>
              forall steps, pid ::
                Valid(w, s, steps) && After(w, s, steps).epoch == s.epoch && LoopEndedHere(After(w, s, steps), pid) ==>
                  After(w, s, steps).target == PutAll(s.target, Entries(w.norm, s.Rows()))
  {
    hide Entries, EligibleRows, PutAll, NoTopTie, LoopEndedHere;
    if NoTopTie(s.target, Entries(w.norm, s.Rows())) {
      forall steps, pid |
        Valid(w, s, steps) && After(w, s, steps).epoch == s.epoch && LoopEndedHere(After(w, s, steps), pid)
        ensures After(w, s, steps).target == PutAll(s.target, Entries(w.norm, s.Rows()))
      {
        OverlappingConverges(w, s, steps, pid);
      }
    } else {
      var steps := TieDiverges(w, s, id);
      assert LoopEndedHere(After(w, s, steps), 2);
    }
  }

  lemma TieDiverges(w: World, s: State, id: RunId) returns (steps: seq<Step>)
    requires FreshRun(w, s, id) && !NoTopTie(s.target, Entries(w.norm, s.Rows()))
    ensures Valid(w, s, steps) && After(w, s, steps).epoch == s.epoch && LoopEndedHere(After(w, s, steps), 2)
    ensures After(w, s, steps).target != PutAll(s.target, Entries(w.norm, s.Rows()))
  {
    hide Entries, EligibleRows, PutAll, LoopEndedHere, FreshRun, Project;
    var all, t0 := Entries(w.norm, s.Rows()), s.target;
    var a, b :| a in all && b in all && a.key == b.key && a.value.rank == b.value.rank && a != b
                && !Outdone(t0, all, a);
    var e := if At(PutAll(t0, all), a.key) == Some(a.value) then b else a;
    assert !Outdone(t0, all, e) && e in all && At(PutAll(t0, all), e.key) != Some(e.value);
    EntryHolder(w.norm, s.Rows(), e);
    var r :| r in s.Rows() && Project(w.norm, r) == Some(e);
    var i :| 0 <= i < |s.Rows()| && s.Rows()[i] == r;
    steps := PutsBack(w, s, id, i, e);
  }

  /** An input: two rows of one party that differ in role and row hash, and an empty target. */
  lemma RolesDiverge(hash: Hashed -> Word) returns (w: World, s: State, steps: seq<Step>)
    ensures w.hash == hash && s.target == map[] && |s.Rows()| == 2
    ensures s.Rows()[1] == s.Rows()[0].(key := s.Rows()[0].key.(role := "OWNER"), rowHash := "h2")
    ensures FreshRun(w, s, 1)
    ensures Valid(w, s, steps) && After(w, s, steps).epoch == s.epoch && LoopEndedHere(After(w, s, steps), 2)
    ensures After(w, s, steps).target != PutAll(s.target, Entries(w.norm, s.Rows()))
  {
    w := World(name => name, hash, 1);
    var first := SourceRow(Key("1", "CO_OWNER", "r"), Some(7), "n", "n", "h1", "h", 1, 0, false, true);
    var second := first.(key := Key("1", "OWNER", "r"), rowHash := "h2");
    s := State([first, second], 1, map[], map[1 := NewRun(1)], map[]);
    TwoRows(first, second);
    RolesTie(w, first, second);
    steps := TieDiverges(w, s, 1);
  }

  lemma TwoRows(first: SourceRow, second: SourceRow)
    requires Eligible(first) && Eligible(second) && first.key == Key("1", "CO_OWNER", "r")
    requires second.key == Key("1", "OWNER", "r")
    ensures EligibleRows([first, second]) == [first, second] && Sorted([first, second])
    ensures EmptyApps([first, second]) == 0
  {
    var rows := [first, second];
    assert rows[1..] == [second] && [second][1..] == [] && EligibleRows([]) == [] && EmptyApps([]) == 0;
    assert "CO_OWNER"[0] < "OWNER"[0];
    assert KeyLess(first.key, second.key);
  }

  lemma RolesTie(w: World, first: SourceRow, second: SourceRow)
    requires Project(w.norm, first).Some? && Project(w.norm, second).Some?
    requires Project(w.norm, first).value.key == Project(w.norm, second).value.key
    requires first.rank == second.rank && first.rowHash != second.rowHash
    ensures Projectable(w.norm, [first, second]) && !NoTopTie(map[], Entries(w.norm, [first, second]))
  {
    var a, b := Project(w.norm, first).value, Project(w.norm, second).value;
    var rows := [first, second];
    assert rows == [first] + [second] && [first][1..] == [] && [second][1..] == [] && Entries(w.norm, []) == [];
    EntriesConcat(w.norm, [first], [second]);
    var all := Entries(w.norm, rows);
    assert Entries(w.norm, [first]) == [a] && Entries(w.norm, [second]) == [b];
    assert all == [a, b];
    assert a in all && b in all && !Outdone(map[], all, a);
  }
}
