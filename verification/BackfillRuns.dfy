/** The persisted backfill runs and the statements that change them. */
module BackfillRuns {
  import opened Common
  import opened BackfillPaging

  type RunId = nat
  type Epoch = nat  // the serving epoch token; a token never comes back once the epoch has moved

  datatype RunStatus = Running | Interrupted | Success | Failed

  datatype Run = Run(
    status: RunStatus,
    stopRequested: bool,
    epoch: Epoch,             // payload.source_epoch
    cursor: Cursor,           // metrics
    receipt: Option<Epoch>)   // metrics.source_epoch_token, written with an accepted completeness receipt

  type Runs = map<RunId, Run>

  datatype RunError =
    | BadSha | NotAuthorized | AlreadyRunning | NotRunning | NotFound
    | EpochMismatch | NotResumable | CompareAndSetFailed

  function NewRun(epoch: Epoch): Run {
    Run(Running, false, epoch, START, None)
  }

  predicate Resumable(run: Run, epoch: Epoch) {
    run.epoch == epoch && (run.status == Running || run.status == Interrupted)
  }

  /** An interrupted run is claimed by compare-and-set; a running one is taken as it is. */
  predicate Claimable(runs: Runs, id: RunId, loadedStatus: RunStatus) {
    id in runs && (loadedStatus == Interrupted ==> runs[id].status == Interrupted)
  }

  function ClaimedRun(run: Run, loadedStatus: RunStatus): Run {
    if loadedStatus == Interrupted then run.(status := Running, stopRequested := false) else run
  }

  predicate IsRunning(runs: Runs, id: RunId) {
    id in runs && runs[id].status == Running
  }

  /** The cursor columns are merged into the metrics, which keep everything else. */
  function Checkpointed(runs: Runs, id: RunId, cursor: Cursor): Runs
    requires id in runs
  {
    runs[id := runs[id].(cursor := cursor)]
  }

  /** `_finish` does not look at the current status. */
  function Finished(runs: Runs, id: RunId, status: RunStatus, receipt: Option<Epoch>): Runs
    requires id in runs
  {
    runs[id := runs[id].(status := status, receipt := if receipt.Some? then receipt else runs[id].receipt)]
  }

  class RunTable {
    var runs: Runs

    constructor ()
      ensures runs == map[]
    {
      runs := map[];
    }

    method Start(epoch: Epoch, sha: string, authorized: bool, freshId: RunId) returns (r: Result<RunId, RunError>)
      requires freshId !in runs
      modifies this
      ensures r == if |sha| != 40 then Err(BadSha)
                   else if !authorized then Err(NotAuthorized)
                   else if exists id :: IsRunning(old(runs), id) then Err(AlreadyRunning)
                   else Ok(freshId)
      ensures runs == if r.Ok? then old(runs)[freshId := NewRun(epoch)] else old(runs)
      ensures r.Ok? ==> runs[freshId] == Run(Running, false, epoch, Cursor(Key("", "", ""), 0), None)
    {
      if |sha| != 40 { return Err(BadSha); }
      if !authorized { return Err(NotAuthorized); }
      var running := set id | id in runs && IsRunning(runs, id);
      if |running| != 0 {
        var id :| id in running;
        assert IsRunning(runs, id);
        return Err(AlreadyRunning);
      }
      assert forall id :: IsRunning(runs, id) ==> id in running;
      runs := runs[freshId := NewRun(epoch)];
      return Ok(freshId);
    }

    method Checkpoint(id: RunId, cursor: Cursor) returns (r: Result<(), RunError>)
      modifies this
      ensures r == if IsRunning(old(runs), id) then Ok(()) else Err(NotRunning)
      ensures runs == if r.Ok? then Checkpointed(old(runs), id, cursor) else old(runs)
      ensures r.Ok? <==> id in old(runs) && old(runs)[id].status == Running
      ensures r.Ok? ==>
                var run := old(runs)[id];
                runs == old(runs)[id := Run(Running, run.stopRequested, run.epoch, cursor, run.receipt)]
    {
      if !IsRunning(runs, id) { return Err(NotRunning); }
      runs := runs[id := runs[id].(cursor := cursor)];
      return Ok(());
    }

    method RequestStop(id: RunId) returns (r: Result<(), RunError>)
      modifies this
      ensures r == if IsRunning(old(runs), id) then Ok(()) else Err(NotRunning)
      ensures runs == if r.Ok? then old(runs)[id := old(runs)[id].(stopRequested := true)] else old(runs)
      ensures r.Ok? <==> id in old(runs) && old(runs)[id].status == Running
    {
      if !IsRunning(runs, id) { return Err(NotRunning); }
      runs := runs[id := runs[id].(stopRequested := true)];
      return Ok(());
    }

    /** The first statement of a resume: load the run and check it against the epoch read before. */
    method LoadResumable(id: RunId, epoch: Epoch) returns (r: Result<Run, RunError>)
      ensures r == if id !in runs then Err(NotFound)
                   else if runs[id].epoch != epoch then Err(EpochMismatch)
                   else if !Resumable(runs[id], epoch) then Err(NotResumable)
                   else Ok(runs[id])
      ensures r.Ok? <==> && id in runs && runs[id].epoch == epoch
                         && (runs[id].status == Running || runs[id].status == Interrupted)
    {
      if id !in runs { return Err(NotFound); }
      var run := runs[id];
      if run.epoch != epoch { return Err(EpochMismatch); }
      if run.status != Running && run.status != Interrupted { return Err(NotResumable); }
      return Ok(run);
    }

    /** The second statement; the cursor is the loaded one, whatever was saved since. */
    method ClaimResumed(id: RunId, loaded: Run) returns (r: Result<Cursor, RunError>)
      requires id in runs  // runs are never deleted
      modifies this
      ensures r == if Claimable(old(runs), id, loaded.status) then Ok(loaded.cursor) else Err(CompareAndSetFailed)
      ensures runs == if r.Ok? then old(runs)[id := ClaimedRun(old(runs)[id], loaded.status)] else old(runs)
      ensures r.Ok? <==> loaded.status != Interrupted || old(runs)[id].status == Interrupted
      ensures r.Ok? ==>
                var run := old(runs)[id];
                runs == if loaded.status == Interrupted
                        then old(runs)[id := Run(Running, false, run.epoch, run.cursor, run.receipt)]
                        else old(runs)
    {
      if loaded.status == Interrupted {
        if runs[id].status != Interrupted { return Err(CompareAndSetFailed); }
        runs := runs[id := runs[id].(status := Running, stopRequested := false)];
      }
      return Ok(loaded.cursor);
    }

    method Finish(id: RunId, status: RunStatus, receipt: Option<Epoch>) returns (r: Result<(), RunError>)
      modifies this
      ensures r == if id in old(runs) then Ok(()) else Err(NotFound)
      ensures runs == if r.Ok? then Finished(old(runs), id, status, receipt) else old(runs)
      ensures r.Ok? ==>
                var run := old(runs)[id];
                runs == old(runs)[id := Run(status, run.stopRequested, run.epoch, run.cursor,
                                            if receipt.Some? then receipt else run.receipt)]
    {
      if id !in runs { return Err(NotFound); }
      runs := runs[id := runs[id].(status := status)];
      if receipt.Some? {
        runs := runs[id := runs[id].(receipt := receipt)];
      }
      return Ok(());
    }
  }

  /** What `lookup_ready_for_epoch` requires of the latest successful run. */
  predicate ReadyFor(run: Run, epoch: Epoch) {
    run.status == Success && run.epoch == epoch && run.receipt == Some(epoch)
  }

  /** Ready means: successful, for this epoch, with a receipt for this epoch. */
  lemma ReadyIs(run: Run, epoch: Epoch)
    ensures ReadyFor(run, epoch) <==> run == Run(Success, run.stopRequested, epoch, run.cursor, Some(epoch))
  {
  }
}
