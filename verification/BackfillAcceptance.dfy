/** What an accepted backfill run has left behind, in histories of overlapping executors. */
module BackfillAcceptance {
  import opened Common
  import opened BackfillPaging
  import opened BackfillTarget
  import opened BackfillRuns
  import opened BackfillHistory

  /** The visible rows are the image of the source, one for each eligible row. */
  ghost predicate Exact(w: World, rows: seq<SourceRow>, t: Target) {
    && Projectable(w.norm, rows)
    && DistinctKeys(Entries(w.norm, rows))
    && IsImage(Visible(t), Entries(w.norm, rows))
  }

  /** The target shows rows of `past` only, and it is exact once the comparison accepted it. */
  ghost predicate AcceptInv(w: World, s: State, past: seq<SourceRow>) {
    && SliceInv(w, s)
    && WrittenBy(Visible(s.target), Entries(w.norm, past))
    && (forall id :: id in s.runs && ReadyFor(s.runs[id], s.epoch) ==> Exact(w, s.Rows(), s.target))
    && (forall pid :: pid in s.executors && s.executors[pid].epoch == s.epoch && s.executors[pid].pc.Accepted? ==>
          Exact(w, s.Rows(), s.target))
  }

  lemma {:induction false} PutAllWritten(t: Target, es: seq<Entry>, all: seq<Entry>)
    requires WrittenBy(Visible(t), all) && forall e :: e in es ==> e in all
    ensures WrittenBy(Visible(PutAll(t, es)), all)
    decreases |es|
  {
    if es != [] {
      var t' := Put(t, es[0]);
      forall k | k in Visible(t') ensures Entry(k, Visible(t')[k]) in all {
        if k == es[0].key && t'[k] == es[0].value {
          assert Entry(k, t'[k]) == es[0];
        } else {
          assert k in Visible(t) && Visible(t)[k] == t'[k];
        }
      }
      PutAllWritten(t', es[1..], all);
    }
  }

  lemma {:induction false} PutAllSame(t: Target, es: seq<Entry>)
    requires Held(t, es)
    ensures PutAll(t, es) == t
    decreases |es|
  {
    if es != [] {
      assert es[0] in es && Put(t, es[0]) == t;
      PutAllSame(t, es[1..]);
    }
  }

  /** Inserting source entries into an exact table changes nothing. */
  lemma InsertKeepsExact(w: World, rows: seq<SourceRow>, t: Target, page: seq<SourceRow>)
    requires forall e :: e in Entries(w.norm, page) ==> e in Entries(w.norm, rows)
    requires Exact(w, rows, t)
    ensures PutAll(t, Entries(w.norm, page)) == t
  {
    hide Entries, PutAll, DistinctKeys;
    var es := Entries(w.norm, page);
    forall e | e in es ensures e.key in t && t[e.key] == e.value {
      assert e in Entries(w.norm, rows) && Visible(t)[e.key] == e.value;
    }
    PutAllSame(t, es);
  }

  /** What an executor of an earlier epoch could do with a page it still holds: one row under a key
      that the source does not have any more, and the table is not exact. */
  lemma ForeignRowSpoils(w: World, rows: seq<SourceRow>, t: Target, e: Entry)
    requires e.key !in Keys(Entries(w.norm, rows)) && !e.value.isDeleted
    requires e.key in t ==> t[e.key].rank <= e.value.rank
    ensures !Exact(w, rows, Put(t, e))
  {
    assert e.key in Visible(Put(t, e));
  }

  lemma StepKeepsAcceptInv(w: World, s: State, step: Step, past: seq<SourceRow>)
    requires AcceptInv(w, s, past) && Enabled(w, s, step) && !step.MoveEpoch?
    requires forall r :: r in s.Rows() ==> r in past
    requires step.Accept? ==> Exact(w, s.Rows(), s.target)
    ensures AcceptInv(w, Apply(w, s, step), past)
  {
    hide SliceInv, Exact, WrittenBy, Visible, Entries, EligibleRows, StatsMatch, PutAll, Page, Projectable;
    StepKeepsSliceInv(w, s, step);
    EpochsAgree(w, s);
    if step.Insert? {
      var page := s.executors[step.pid].pc.page;
      PageFromSource(w, s, step.pid);
      PresentInPast(w, s.Rows(), past);
      PutAllWritten(s.target, Entries(w.norm, page), Entries(w.norm, past));
      if Exact(w, s.Rows(), s.target) { InsertKeepsExact(w, s.Rows(), s.target, page); }
    }
  }

  lemma PresentInPast(w: World, rows: seq<SourceRow>, past: seq<SourceRow>)
    requires forall r :: r in rows ==> r in past
    ensures forall e :: e in Entries(w.norm, rows) ==> e in Entries(w.norm, past)
  {
    hide Entries, Project;
    forall e | e in Entries(w.norm, rows) ensures e in Entries(w.norm, past) {
      EntryHolder(w.norm, rows, e);
      EntryHolder(w.norm, past, e);
    }
  }

  lemma AcceptInvBegins(w: World, s: State, past: seq<SourceRow>)
    requires BeginsEpoch(s) && WrittenBy(Visible(s.target), Entries(w.norm, past))
    ensures AcceptInv(w, s, past)
  {
    hide WrittenBy, Visible, Entries, EligibleRows, Sorted;
  }

  /** An exact table shows the owners of the source table, each with its own columns. */
  lemma ExactShowsOwners(w: World, table: seq<SourceRow>, t: Target)
    requires Exact(w, EligibleRows(table), t)
    ensures ShowsOwners(w.norm, table, Visible(t)) && NamesRemain(w.norm, table)
  {
    hide OwnerOf;
    ProjectableNames(w.norm, table);
    var shown := Visible(t);
    forall k
      ensures && (k in shown <==> exists r :: r in table && OwnerOf(w.norm, r, k))
              && (k in shown ==>
                    exists r :: r in table && OwnerOf(w.norm, r, k)
                                && shown[k] == Binding(r.rowHash, r.recordHash, r.rank, r.ingestedAt, false)
                                && forall other :: other in table && OwnerOf(w.norm, other, k) ==> other.rank <= r.rank)
    {
      ExactShowsOwner(w, table, shown, k);
    }
  }

  lemma ExactShowsOwner(w: World, table: seq<SourceRow>, shown: Target, k: LookupKey)
    requires IsImage(shown, Entries(w.norm, EligibleRows(table))) && NamesRemain(w.norm, table)
    ensures k in shown <==> exists r :: r in table && OwnerOf(w.norm, r, k)
    ensures k in shown ==>
              exists r :: r in table && OwnerOf(w.norm, r, k)
                          && shown[k] == Binding(r.rowHash, r.recordHash, r.rank, r.ingestedAt, false)
                          && forall other :: other in table && OwnerOf(w.norm, other, k) ==> other.rank <= r.rank
  {
    hide OwnerOf, EligibleRows, Entries;
    var es := Entries(w.norm, EligibleRows(table));
    forall r | r in table && OwnerOf(w.norm, r, k) ensures k in shown && r.rank == shown[k].rank {
      var e := Entry(k, Binding(r.rowHash, r.recordHash, r.rank, r.ingestedAt, false));
      EntriesAreOwners(w.norm, table, e);
      assert e in es;
    }
    if k in shown {
      KeyHolder(es, k);
      var e :| e in es && e.key == k;
      EntriesAreOwners(w.norm, table, e);
    }
  }

  // ---------- A target without foreign rows ----------

  lemma CleanAcceptIsExact(w: World, rows: seq<SourceRow>, t: Target)
    requires WrittenBy(Visible(t), Entries(w.norm, rows)) && StatsMatch(w.hash, rows, t)
    ensures Exact(w, rows, t)
  {
    EntriesSize(w.norm, rows);
    CountMatchIsExact(Visible(t), Entries(w.norm, rows), |rows|);
  }

  lemma {:induction false} CleanHistory(w: World, s: State, steps: seq<Step>)
    requires AcceptInv(w, s, s.Rows()) && Valid(w, s, steps) && After(w, s, steps).epoch == s.epoch
    ensures After(w, s, steps).table == s.table && AcceptInv(w, After(w, s, steps), s.Rows())
    decreases |steps|
  {
    hide SliceInv, Exact, WrittenBy, Visible, StatsMatch;
    if steps != [] {
      var next := Apply(w, s, steps[0]);
      EpochNeverReturns(w, next, steps[1..]);
      if !steps[0].MoveEpoch? {
        if steps[0].Accept? { CleanAcceptIsExact(w, s.Rows(), s.target); }
        StepKeepsAcceptInv(w, s, steps[0], s.Rows());
        CleanHistory(w, next, steps[1..]);
      }
    }
  }

  /** A target that shows nothing but present source rows (an empty one, for instance): a run that
      the readiness check accepts has left exactly the image of the source visible. No assumption
      on the hash is needed. */
  lemma SuccessIsExact(w: World, s: State, steps: seq<Step>, id: RunId)
    requires BeginsEpoch(s) && WrittenBy(Visible(s.target), Entries(w.norm, s.Rows()))
    requires Valid(w, s, steps) && After(w, s, steps).epoch == s.epoch
    requires id in After(w, s, steps).runs && ReadyFor(After(w, s, steps).runs[id], s.epoch)
    ensures Exact(w, s.Rows(), After(w, s, steps).target)
  {
    hide BeginsEpoch, WrittenBy, Visible, Exact, Entries;
    AcceptInvBegins(w, s, s.Rows());
    CleanHistory(w, s, steps);
  }

  // ---------- A target that shows rows of past source versions ----------

  /** Wherever the history compares, the sums tell the source from the table compared. */
  ghost predicate ComparesWell(w: World, s: State, steps: seq<Step>)
    requires Valid(w, s, steps)
    decreases |steps|
  {
    steps != [] ==>
      && (steps[0].Accept? ==> SumsTellApart(w.hash, s.Rows(), Visible(s.target)))
      && ComparesWell(w, Apply(w, s, steps[0]), steps[1..])
  }

  lemma ToldAcceptIsExact(w: World, rows: seq<SourceRow>, past: seq<SourceRow>, t: Target)
    requires (forall r :: r in rows ==> r in past) && ColumnsIdentify(w.norm, past)
    requires WrittenBy(Visible(t), Entries(w.norm, past)) && SumsTellApart(w.hash, rows, Visible(t))
    requires StatsMatch(w.hash, rows, t)
    ensures Exact(w, rows, t)
  {
    hide ColumnsIdentify, SumsTellApart, StatsMatch, WrittenBy, Visible, Entries, Projectable, DistinctKeys, IsImage;
    AcceptedIffImage(w.norm, w.hash, rows, past, t);
  }

  lemma {:induction false} ToldHistory(w: World, s: State, steps: seq<Step>, past: seq<SourceRow>)
    requires AcceptInv(w, s, past) && (forall r :: r in s.Rows() ==> r in past) && ColumnsIdentify(w.norm, past)
    requires Valid(w, s, steps) && ComparesWell(w, s, steps) && After(w, s, steps).epoch == s.epoch
    ensures After(w, s, steps).table == s.table && AcceptInv(w, After(w, s, steps), past)
    decreases |steps|
  {
    hide SliceInv, Exact, WrittenBy, Visible, StatsMatch, ColumnsIdentify, SumsTellApart;
    if steps != [] {
      var next := Apply(w, s, steps[0]);
      EpochNeverReturns(w, next, steps[1..]);
      if !steps[0].MoveEpoch? {
        if steps[0].Accept? { ToldAcceptIsExact(w, s.Rows(), past, s.target); }
        StepKeepsAcceptInv(w, s, steps[0], past);
        ToldHistory(w, next, steps[1..], past);
      }
    }
  }

  /** A target that still shows rows of past source versions: if the sums do not collide in the
      comparisons that the history makes, and the hashed columns identify the lookup row, an
      accepted run has left the exact image all the same, whichever comparison accepted. */
  lemma SuccessIsExactOverPast(w: World, s: State, steps: seq<Step>, id: RunId, past: seq<SourceRow>)
    requires BeginsEpoch(s) && WrittenBy(Visible(s.target), Entries(w.norm, past))
    requires (forall r :: r in s.Rows() ==> r in past) && ColumnsIdentify(w.norm, past)
    requires Valid(w, s, steps) && ComparesWell(w, s, steps) && After(w, s, steps).epoch == s.epoch
    requires id in After(w, s, steps).runs && ReadyFor(After(w, s, steps).runs[id], s.epoch)
    ensures Exact(w, s.Rows(), After(w, s, steps).target)
  {
    hide BeginsEpoch, WrittenBy, Visible, Exact, Entries, ColumnsIdentify;
    AcceptInvBegins(w, s, past);
    ToldHistory(w, s, steps, past);
  }
}
