# Verified model of the MarkOrbit data engine

A Dafny model of the parts of the data engine whose correctness spans many steps: the admin task
queue and its workers, the crash-resumable applicant-name backfill, the continuation cursor and
the portfolio walk it drives, the work DAG, the raw-file inventory, and the checks and identities
around them. `dafny verify dfyconfig.toml` checks everything.

| file | what it models |
|---|---|
| AdminTaskTable, AdminTaskProtocol | the admin rows of `control.job_run`, the transactions on them, and any number of workers that acquire the mutation lock, claim, run, crash, restart and finish |
| BackfillPaging, BackfillTarget, BackfillLoop, BackfillRuns | keyset pages, the key-replacing lookup table and the count-and-checksum comparison, the paged loop of one call, the persisted runs |
| BackfillHistory, BackfillConvergence, BackfillAcceptance, BackfillOverlap, BackfillDivergence | whole histories of overlapping, crashing and resumed executors: what cursors say, the one-shot result, what acceptance means, when overlapping executors converge and how they fail to |
| Base64, Utf8, Json, CursorCodec, PortfolioWalk | the cursor token down to its characters (RFC 4648 sections 3.2 and 5, RFC 3629, RFC 8259), and the walk from page to page |
| WorkDag | cycle detection, topological order, observed-order check |
| RawInventory, AdminPaging | the size-bounded binary heap, bucket totals, page arithmetic |
| RateLimiter, BucketedDuplicates | the fixed-window limiter over traces; the bucketed distinct count |
| MetadataDocument, AssignmentManifest, CapacityProjection | the manifest builder over a nested metadata document; the capacity gate |
| ResearchDataset, WorkLedger | dataset references and their fingerprints; work-unit keys and the ledger |

Common, Ordering and Text hold the result types, string order and `str.strip`.

## Reading the model

- A database statement or transaction is one atomic step. At this granularity SKIP LOCKED has
  nothing to skip. The start-up recovery is one step of the machine although it is two UPDATE
  statements; what can come between them is in `SplitRecovery`.
- The body of an admin task is an arbitrary outcome; INTERRUPTED is possible only after a package
  boundary saw the stop flag. `Abandon` is a failed write of the outcome.
- Hash functions, text normalisation, case mapping and date parsing are function parameters.
  Where a statement needs more of them (collision-freedom, idempotence) it says so as a `requires`.

## Where the code does less than one might expect

- Terminal rows of the admin queue do change, because the final update does not look at the
  status. They are stable as long as no worker starts up while another one runs a CONTINUE task;
  from every state where one does, some continuation overwrites a terminal row, and such a state
  is reached in four steps (`SafeRunKeepsTerminalRows`, `UnsafeRecoveryCanOverwrite`,
  `UnsafeRecoveryIsReachable`).
- A stop can be lost during recovery. `app/db.py` sets no isolation level, so PostgreSQL runs the
  two UPDATE statements of one transaction at READ COMMITTED, each on its own snapshot, and
  recovery takes no lock: a task whose stop commits between them while it is RUNNING is QUEUED
  again with its flag set, and exactly such a task is (`SplitRecovery`, `StopBetweenIsRequeued`).
- A queued task can be overtaken by more than three claims when other rows get older stamps than
  its own: `now()` is the start of a transaction, which may then wait for the queue lock. Each such
  row costs at most one more claim (`BoundedWaiting`).
- The backfill loop does not end when a full batch of eligible rows has an empty application
  number, since an empty cursor disables the keyset clause (`EndsIffFewEmptyApps`,
  `EmptyNumberLoops`). The portfolio walk repeats its first page in the same way when `page_size`
  is 1 and the first of several application numbers is empty (`WalkIsExact`, `EmptyNumberRepeats`).
- Nothing keeps two executors from working on one backfill run. They always leave the table of a
  single pass exactly when no two eligible rows tie for the highest version of a target key; rows
  that differ in role can tie (`OverlappingConvergesIffNoTie`, `RolesDiverge`).
- The backfill's completeness check rejects a correct backfill when two source rows differ in role
  alone, because the target key has no role (`LoopEndAcceptedIffDistinct`). Its count and checksums
  do not see the normalised name (`NameIsNotCompared`); they accept exactly the image of the source
  when the hashed columns identify the lookup row and the sums do not collide (`AcceptedIffImage`).
- An executor that read its page before the serving epoch moved inserts it afterwards, and one row
  under a key that the source has lost is enough to spoil an exact table (`ForeignRowSpoils`).
- A cursor for a snapshot id outside ASCII is issued and can never be read back, because
  `hmac.compare_digest` takes no such text; cursors are read back exactly for ASCII ids
  (`CursorRoundTrip`, `SnapshotOutsideAscii`).
- `Retry-After` is truncated. Waiting that long is enough exactly when at most one second or a
  whole number of seconds of the window is left (`RetryAfterSuffices`, `RetryAfterCanBeTooShort`).
- A window limit of n allows 2n - 1 requests in some interval as long as the window, and never
  more (`SlidingWindowBound`, `SlidingWindowBoundIsTight`).
- Work-unit keys are joined with bars that are not escaped, and a missing or empty bound is written
  as the text "-inf" or "+inf". With bounds free of bars, a key tells its unit from every other
  identity exactly when the four text fields are free of bars and both bounds are present, not
  empty and not those texts (`IdentifiesIffDefinite`).

## Model

| member | source | states |
|---|---|---|
| AdminTaskTable.NextExists | app/admin_domain_tasks.py:223-237 | the ordering of a claim selects a row whenever one is QUEUED, and only one row qualifies |
| AdminTaskTable.RequestRules | app/admin_domain_tasks.py:62-86 | a request is accepted exactly for one of the four domain and three action names, with at most 9999 parts and, outside CN, at least one; which error comes first |
| AdminTaskTable.JobTable.QueueTask | app/admin_domain_tasks.py:62-120 | an invalid request changes nothing; a valid one inserts a QUEUED row exactly when its domain has no active task and otherwise reports the oldest active one |
| AdminTaskTable.JobTable.RequestStop | app/admin_domain_tasks.py:123-186 | the oldest active CONTINUE task of the domain gets its stop flag, and is interrupted at once when still QUEUED; nothing else changes |
| AdminTaskTable.JobTable.Recover | app/admin_domain_tasks.py:189-220 | the two updates in sequence interrupt the stopped RUNNING rows and requeue the others with `started_at` kept; the result counts the requeued rows |
| AdminTaskTable.JobTable.ClaimNext | app/admin_domain_tasks.py:223-253 | returns None only when nothing is QUEUED, otherwise the first row by start and id becomes RUNNING with a new start |
| AdminTaskTable.JobTable.Finish | app/repository.py:111-130 | the named row gets exactly the outcome and the finish time, whatever its status was, and keeps every other field; an unknown id changes nothing |
| AdminTaskProtocol.QueueWrites | app/admin_domain_tasks.py:87-120 | the inserted row field by field, or nothing when the domain has an active task |
| AdminTaskProtocol.StopWrites | app/admin_domain_tasks.py:147-184 | the stopped row field by field; the others stay |
| AdminTaskProtocol.RecoverWrites | app/admin_domain_tasks.py:189-220 | what becomes of every row: RUNNING ones are interrupted or requeued with their start kept, others stay |
| AdminTaskProtocol.ClaimWrites | app/admin_domain_tasks.py:223-253 | the oldest QUEUED row becomes RUNNING with the claim's time; the others stay |
| AdminTaskProtocol.FinishWrites | app/admin_domain_tasks.py:813-824 | the executing worker's row gets the reported outcome and time and keeps the rest; the others stay |
| AdminTaskProtocol.OthersWriteNothing | app/worker.py:36-78 | acquiring, releasing, scanning, boundaries and crashes write no row |
| AdminTaskProtocol.OutcomesOf | app/admin_domain_tasks.py:478-494 | an executing worker can report any outcome; INTERRUPTED exactly once a boundary has met the stop flag |
| AdminTaskProtocol.OneTaskPerLock | app/worker.py:40-75 | the lock is taken anew for every claim and every scan |
| AdminTaskProtocol.WorkEndsInRelease | app/admin_domain_tasks.py:256-283 | after finishing, failing to finish or scanning, the lock is released |
| AdminTaskProtocol.StepKeepsOneActive | app/admin_domain_tasks.py:87-118 | no step of any process creates a second active task in a domain |
| AdminTaskProtocol.StepKeepsWorkerInv | app/admin_domain_tasks.py:256-283 | only the lock holder is between acquire and release, the holder is always there, and an executing worker's row exists |
| AdminTaskProtocol.StepKeepsInv | app/worker.py:36-78 | every step of every worker and client keeps the whole invariant |
| AdminTaskProtocol.RunKeepsInv | app/worker.py:36-78 | so does every run |
| AdminTaskProtocol.SafeInEveryRun | app/admin_domain_tasks.py:62-283 | in every run from the empty table: one active task a domain, one worker inside the guard, INTERRUPTED only after a stop request, `finished_at` exactly on terminal rows |
| AdminTaskProtocol.StopIsFinal | app/admin_domain_tasks.py:147-253 | in every run a row persists with its domain, action and history parts, and once stopped it is never QUEUED and never claimed again |
| AdminTaskProtocol.AtMostThreeAhead | app/admin_domain_tasks.py:87-118 | at most one earlier active task for each other domain |
| AdminTaskProtocol.StepShrinksAhead | app/admin_domain_tasks.py:87-253 | a step adds to the tasks ahead of a waiting one only by a stamp that is not later than its own, and a later claim removes one, because claims restamp and requeues do not |
| AdminTaskProtocol.BoundedWaiting | app/admin_domain_tasks.py:87-253 | while a task stays QUEUED at most three claims happen in any run, plus one for each row written meanwhile with a stamp not after its own, however often workers crash and recover |
| AdminTaskProtocol.SafeStepKeepsTerminalRows | app/admin_domain_tasks.py:813-824 | a step whose recovery, if it is one, meets no running CONTINUE task leaves terminal rows alone and keeps executing rows active |
| AdminTaskProtocol.SafeRunKeepsTerminalRows | app/repository.py:111-130 | so terminal rows never change in runs of such steps |
| AdminTaskProtocol.OutcomeStays | app/admin_domain_tasks.py:813-824 | in runs of such steps a finished row shows the outcome and time its worker reported, for good |
| AdminTaskProtocol.UnsafeRecoveryCanOverwrite | app/repository.py:117-124 | without that condition some continuation of the state overwrites a terminal row |
| AdminTaskProtocol.UnsafeRecoveryIsReachable | app/worker.py:36-78 | queueing, starting, acquiring and claiming reach such a state from the empty table |
| AdminTaskProtocol.RecoveryIsTwoStatements | app/admin_domain_tasks.py:193-217 | the two updates one after the other are the recovery transaction |
| AdminTaskProtocol.SplitRecovery | app/admin_domain_tasks.py:193-217 | with any steps between the two updates, a stopped task becomes QUEUED exactly when its stop came in between while it was RUNNING, and it is still RUNNING |
| AdminTaskProtocol.StopBetweenIsRequeued | app/admin_domain_tasks.py:193-217 | for every running CONTINUE task a stop in between does that |
| BackfillPaging.PageIsNextSlice | app/cn/applicant_name_lookup_backfill.py:58-74 | the page query after i emitted rows returns exactly the next `limit` eligible rows of the table |
| BackfillPaging.PageIsNextRows | app/cn/applicant_name_lookup_backfill.py:58-74 | the page for any cursor is a stretch of the eligible rows, from the first one for an empty application number |
| BackfillPaging.EmittedIsCount | app/cn/applicant_name_lookup_backfill.py:120-130 | `emitted` equals the number of eligible rows at or below the cursor key |
| BackfillPaging.PassAdvances | app/cn/applicant_name_lookup_backfill.py:103-136 | a pass moves the cursor one batch on, or to the last row and out of the loop |
| BackfillPaging.RepeatsFirstPage | app/cn/applicant_name_lookup_backfill.py:60-130 | with a batch of empty application numbers no pass ever leaves the loop, and after n passes `emitted` is n times the batch |
| BackfillPaging.EndsIffFewEmptyApps | app/cn/applicant_name_lookup_backfill.py:58-136 | the loop ends exactly when fewer than `batch` eligible rows have an empty application number, and has then emitted all of them |
| BackfillPaging.EmptyNumberLoops | app/cn/applicant_name_lookup_backfill.py:58-136 | a one-row table whose backfill in batches of one never ends |
| BackfillTarget.PutAllAt | database/clickhouse/init/014_applicant_name_lookup.sql:1-14 | what a key holds after a sequence of inserts: the last of the highest rank |
| BackfillTarget.EntriesAreOwners | app/applicant_name_lookup.py:43-65 | the rows inserted for a source table are those of its current, undeleted owner and co-owner rows with an entity and a normalised name, under that name normalised, with the row's own columns |
| BackfillTarget.OnePassShowsOwners | app/cn/applicant_name_lookup_backfill.py:58-118 | one pass into an empty table shows a key exactly when some such row has it, with the columns of one that no other outranks |
| BackfillTarget.VisibleRows | app/cn/applicant_name_lookup_completeness.py:52-56 | the rows compared are those that are not deleted |
| BackfillTarget.TotalIs | app/cn/applicant_name_lookup_completeness.py:23-24 | the first checksum is the sum of all row hashes modulo 2^64 |
| BackfillTarget.ParityIs | app/cn/applicant_name_lookup_completeness.py:23-24 | the second one has the bits that are set in an odd number of row hashes |
| BackfillTarget.ReplayAbsorbed | app/cn/applicant_name_lookup_backfill.py:116-130 | inserting a stretch of rows again before continuing leaves what one pass leaves, shared keys and ranks included |
| BackfillTarget.CountMatchIsExact | app/cn/applicant_name_lookup_completeness.py:43-93 | a table of source entries with as many rows as the source is its exact image, without shared keys |
| BackfillTarget.AddHashCommutes | app/cn/applicant_name_lookup_completeness.py:23-24 | the wrapping sum with exclusive or does not depend on the order of two rows |
| BackfillTarget.AggregateAnyRow | app/cn/applicant_name_lookup_completeness.py:23-24 | hence the aggregate of a table can be taken from any row first |
| BackfillTarget.ImageSums | app/cn/applicant_name_lookup_completeness.py:23-93 | the exact image has the source's checksums |
| BackfillTarget.StatsMatchIffDistinct | app/cn/applicant_name_lookup_completeness.py:12-93 | when all source keys and no foreign rows are visible, the comparison succeeds exactly when every row projects and no two share a key; the next three rows allow foreign rows |
| BackfillTarget.HoldingAcceptedIffImage | app/cn/applicant_name_lookup_completeness.py:43-93 | a table that holds all source entries is accepted exactly when it shows nothing else |
| BackfillTarget.AcceptedIffImage | app/cn/applicant_name_lookup_completeness.py:13-93 | a table that shows rows of past source versions is accepted exactly when it is the image, if the hashed columns identify the lookup row and the sums do not collide |
| BackfillTarget.NameIsNotCompared | app/cn/applicant_name_lookup_completeness.py:13-24 | a table with the right row under a stale name passes count and checksums for every hash |
| BackfillTarget.InsertsAreHeld | app/cn/applicant_name_lookup_backfill.py:116-118 | inserting source entries with distinct keys that nothing outranks: held from then on, other keys untouched |
| BackfillTarget.InsertsCover | app/cn/applicant_name_lookup_backfill.py:116-118 | inserts of source entries in any order, from any table: each key reaches the entry's version for good, and its values if nothing higher can come |
| BackfillTarget.CoveredIsOneShot | app/cn/applicant_name_lookup_backfill.py:77-136 | a table that covers every entry, changed from another one by source entries only, is what one pass makes of that one |
| BackfillLoop.LookupStore.Backfill | app/cn/applicant_name_lookup_backfill.py:77-136 | for every stop, epoch and checkpoint observation the rows from the start to `hi` are inserted and those up to `saved` checkpointed; success reaches the end or `max_rows`, and a whole pass into an empty table shows exactly the owners of the source table; only a failed epoch check or a rejected checkpoint leaves inserted rows unsaved, at most one batch |
| BackfillLoop.PageStep | app/cn/applicant_name_lookup_backfill.py:103-130 | the page read and the next cursor are the next slice and its position |
| BackfillRuns.RunTable.Start | app/cn/applicant_name_lookup_backfill_control.py:62-101 | a new RUNNING run only for an authorised 40-character commit and only when none is RUNNING |
| BackfillRuns.RunTable.Checkpoint | app/cn/applicant_name_lookup_backfill_control.py:119-133 | the cursor is stored exactly when the run is RUNNING |
| BackfillRuns.RunTable.RequestStop | app/cn/applicant_name_lookup_backfill_control.py:136-147 | the stop flag is set exactly when the run is RUNNING |
| BackfillRuns.RunTable.LoadResumable | app/cn/applicant_name_lookup_backfill_control.py:178-192 | loads a RUNNING or INTERRUPTED run of the given epoch; the errors in the source's order |
| BackfillRuns.RunTable.ClaimResumed | app/cn/applicant_name_lookup_backfill_control.py:193-203 | the compare-and-set of an interrupted run, its failure, and the cursor as it was loaded |
| BackfillRuns.RunTable.Finish | app/cn/applicant_name_lookup_backfill_control.py:150-165 | status and receipt are written whatever the status was |
| BackfillRuns.ReadyIs | app/cn/applicant_name_lookup_backfill_control.py:206-224 | ready means successful, for the epoch, with a receipt for the epoch |
| BackfillHistory.StepKeepsSliceInv | app/cn/applicant_name_lookup_backfill_control.py:62-307 | under every step of an epoch, crashes and both halves of a resume included, the page in an executor's hands is the next stretch of eligible rows, for every source and target |
| BackfillHistory.SavedCursor | app/cn/applicant_name_lookup_backfill.py:119-136 | after a page the paging goes on behind its last row, or starts over when that row has no application number, and then this page had started over too |
| BackfillHistory.CursorsCoverRows | app/cn/applicant_name_lookup_backfill_control.py:62-307 | in every history with overlapping executors every persisted cursor of the epoch stands at a source row and `emitted` is at least the row's number |
| BackfillHistory.CursorsArePositions | app/cn/applicant_name_lookup_backfill_control.py:62-307 | it is exactly that number when no page can end in an empty application number |
| BackfillHistory.EndedLoopProjects | app/cn/applicant_name_lookup_backfill.py:109-115 | in every history a loop ends only when every eligible row has a lookup row |
| BackfillHistory.FailureLeavesResumable | app/cn/applicant_name_lookup_backfill_control.py:292-307 | after a failure the run can be resumed, from the cursor it had, exactly when the epoch could be read and still stands |
| BackfillHistory.SuccessMakesReady | app/cn/applicant_name_lookup_backfill_control.py:279-289 | a run is marked done only behind a successful comparison, and is then ready for its epoch |
| BackfillHistory.StartsAlone | app/cn/applicant_name_lookup_backfill_control.py:62-101 | a run starts from an empty cursor, as the only one RUNNING |
| BackfillHistory.StopEndsReading | app/cn/applicant_name_lookup_backfill.py:103-105 | after a stop request no executor of the run reads another page until the run is claimed anew |
| BackfillHistory.CursorRests | app/cn/applicant_name_lookup_backfill_control.py:119-133 | the cursor of a run that is not RUNNING stays until the run is claimed anew |
| BackfillHistory.SaveWrites | app/cn/applicant_name_lookup_backfill.py:119-136 | a checkpoint stores the key of the page's last row and counts the page; the loop ends after a page that is not full |
| BackfillConvergence.StepKeepsSoloInv | app/cn/applicant_name_lookup_backfill.py:103-136 | one executor at a time, any source and target: the rows behind the cursor always complete the table to the one-shot result |
| BackfillConvergence.ConvergesFromCheckpoint | app/cn/applicant_name_lookup_backfill.py:77-136 | from any sorted source, target and checkpoint an ended loop leaves the table of one uninterrupted pass over the remaining rows |
| BackfillConvergence.ConvergesToOneShot | app/cn/applicant_name_lookup_backfill.py:77-136 | a fresh run, however often it crashes, stops and resumes, leaves the table of a single pass: shared keys, stale rows and empty application numbers included |
| BackfillConvergence.LookupShowsOwners | app/cn/applicant_name_lookup_backfill.py:58-136 | from an empty target it shows a key exactly when some current, undeleted owner row of the source table has it, with the columns of the highest version |
| BackfillAcceptance.InsertKeepsExact | app/cn/applicant_name_lookup_backfill.py:116-118 | inserting source rows into an exact table changes nothing |
| BackfillAcceptance.ForeignRowSpoils | app/cn/applicant_name_lookup_backfill.py:103-127 | one visible row under a key that the source does not have makes the table inexact |
| BackfillAcceptance.StepKeepsAcceptInv | app/cn/applicant_name_lookup_backfill_control.py:62-307 | once accepted as exact, the target stays exact under every further step of the epoch |
| BackfillAcceptance.SuccessIsExact | app/cn/applicant_name_lookup_backfill_control.py:206-307 | from a target without foreign rows, a run that the readiness check accepts has left exactly the image of all eligible rows visible, for every hash |
| BackfillAcceptance.SuccessIsExactOverPast | app/cn/applicant_name_lookup_backfill_control.py:206-307 | the same from a target that shows rows of past source versions, if the hashed columns identify the lookup row and the sums do not collide in the comparisons the history makes |
| BackfillAcceptance.ExactShowsOwners | app/applicant_name_lookup.py:43-65 | an exact target shows exactly the owners of the source table, each with its own columns |
| BackfillOverlap.StepKeepsFillInv | app/cn/applicant_name_lookup_backfill.py:103-136 | without ties, the entries behind every cursor and of every inserted page stay covered under every step of every executor |
| BackfillOverlap.OverlappingConverges | app/cn/applicant_name_lookup_backfill.py:77-136 | from any source and target without a tie for the highest version of a key, an ended loop leaves the table of one pass, however many executors overlap, crash, stop and resume |
| BackfillOverlap.OverlappingShowsOwners | app/cn/applicant_name_lookup_backfill.py:58-136 | from an empty target it then shows exactly the owners of the source table |
| BackfillOverlap.LoopEndAcceptedIffExact | app/cn/applicant_name_lookup_backfill_control.py:274-285 | with distinct keys that nothing in the target outranks, the comparison after a loop succeeds exactly when no stale row is left visible |
| BackfillOverlap.LoopEndAcceptedIffDistinct | app/cn/applicant_name_lookup_backfill_control.py:274-285 | from a target without foreign rows the comparison after a loop succeeds exactly when no two eligible rows share a target key |
| BackfillDivergence.Advance | app/cn/applicant_name_lookup_backfill_control.py:227-307 | a succession of executors can carry a run from its checkpoint to any row |
| BackfillDivergence.LateInsertWins | database/clickhouse/init/014_applicant_name_lookup.sql:1-14 | a page inserted after the rest puts its last row back unless something outranks it |
| BackfillDivergence.TieDiverges | app/cn/applicant_name_lookup_backfill_control.py:178-307 | for every tie at the highest version there is a history of two overlapping executors whose ended loop leaves another table |
| BackfillDivergence.OverlappingConvergesIffNoTie | app/cn/applicant_name_lookup_backfill_control.py:178-307 | all histories of a fresh run converge exactly when there is no such tie |
| BackfillDivergence.RolesDiverge | app/cn/applicant_name_lookup_completeness.py:12-12 | two rows that differ in role and row hash, and the history that diverges on them |
| Base64.PaddedRoundTrip | app/discovery_contract.py:285-304 | decoding inverts padded encoding |
| Base64.PaddingRestored | app/discovery_contract.py:286-304 | restoring the padding of a stripped token is exact; the token has (4n + 2) / 3 characters of the alphabet |
| Base64.RoundTrip | app/discovery_contract.py:285-304 | decoding inverts unpadded encoding for every byte sequence |
| Utf8.CharRoundTrip | app/discovery_contract.py:115-123 | the first character of encoded text is decoded with its exact length |
| Utf8.Utf8RoundTrip | app/discovery_contract.py:115-123 | every text survives encoding |
| Json.StringRoundTrip | app/discovery_contract.py:115-123 | a quoted string, control characters and quotes included, parses back and leaves the rest |
| Json.ValueRoundTrip | app/discovery_contract.py:115-123 | a printed value in front of any text that can follow a value parses back and leaves that text |
| Json.JsonRoundTrip | app/discovery_contract.py:115-123 | parsing inverts canonical printing for every value without floats |
| CursorCodec.KeysAreSorted | app/discovery_contract.py:115-123 | both objects of the envelope are written with ascending names |
| CursorCodec.EnvelopeOpens | app/discovery_contract.py:284-330 | every envelope within 4096 bytes passes the token length, ASCII, base64, JSON, field-set, digest and checksum checks |
| CursorCodec.CursorRoundTrip | app/discovery_contract.py:257-364 | decoding an issued token gives back its position, page and count exactly when the snapshot id is ASCII, and otherwise fails at the comparison of snapshots |
| CursorCodec.SnapshotOutsideAscii | app/discovery_contract.py:341-344 | for a Chinese snapshot id a token is issued and never accepted |
| CursorCodec.CursorBoundToQuery | app/discovery_contract.py:340-364 | the token is refused for any other query hash or snapshot, under any limits |
| CursorCodec.IssuedIff | app/discovery_contract.py:257-286 | when a token is issued, which error comes first otherwise, and the token's bytes: the payload under the digest of its canonical text |
| CursorCodec.QueryHashIs | app/discovery_contract.py:131-138 | a query hash is `sha256:` and 64 lower-case hexadecimal digits |
| CursorCodec.TokenOpens | app/discovery_contract.py:297-313 | the token of any JSON object is opened as that object when it is within 4096 bytes, and refused otherwise |
| CursorCodec.ForgedPayloadRefused | app/discovery_contract.py:329-332 | a token that carries one payload under the checksum of another is refused for the mismatch |
| CursorCodec.AcceptedIsAuthentic | app/discovery_contract.py:289-364 | every accepted token, issued or not, carries exactly the returned payload under the digest of its canonical text, for the expected query and snapshot and within the bounds |
| CursorCodec.ChecksumBindsPayload | app/discovery_contract.py:253-254 | without collisions a checksum is good for one payload: any accepted token that carries it gives back that payload |
| CursorCodec.PrintedBytes | app/discovery_contract.py:115-123 | an upper bound of the encoded size of every value |
| CursorCodec.ShortCursorsFit | app/discovery_contract.py:284-286 | a cursor for a short id and a short snapshot id is within 4096 bytes |
| PortfolioWalk.NextCursorFailsIffTooLarge | app/applicant_owner_read.py:332-346 | the 4096-byte bound is the only reason a continuation cursor cannot be issued |
| PortfolioWalk.CursorStateIs | app/applicant_owner_read.py:313-329 | a page is read from a cursor exactly when it decodes to a position of one text, with its page and count |
| PortfolioWalk.AfterApplicationIs | app/cn/applicant_owner_read.py:422-427 | the text must be empty or a trademark id, whose application is what follows the prefix |
| PortfolioWalk.ReadAfter | app/cn/applicant_owner_read.py:422-460 | reading with an issued cursor is reading after its application, with page and count restored |
| PortfolioWalk.PageAt | app/cn/applicant_owner_read.py:430-489 | a page after i applications holds the next `page_size` within the 500 bound and continues exactly when more may follow |
| PortfolioWalk.WalkFrom | app/cn/applicant_owner_read.py:430-489 | the walk from any page boundary shows the rest, in order, once, and ends, or fails on the first cursor that is too large |
| PortfolioWalk.WalkRepeats | app/cn/applicant_owner_read.py:347-366 | behind a one-row page of the empty application number every page repeats it |
| PortfolioWalk.EmptyNumberRepeats | app/cn/applicant_owner_read.py:347-366 | a portfolio of two applications whose walk shows the empty one a hundred times |
| PortfolioWalk.SourceVersionOutsideAscii | app/applicant_owner_read.py:313-329 | a cursor issued for a source version outside ASCII reads no page |
| PortfolioWalk.ShortPortfoliosFit | app/applicant_owner_read.py:332-346 | ids of at most 360 characters together meet the size condition of the walk |
| PortfolioWalk.WalkIsExact | app/cn/applicant_owner_read.py:430-489 | following `next_cursor` succeeds exactly when the cursors at its page ends fit, then ends, and shows exactly the first min(N, 500, 100 x page_size) applications unless the empty one stands alone on page one |
| WorkDag.CheckedIsClosed | app/work_dag.py:36-53 | nodes that pass the checks depend only on other known tasks |
| WorkDag.ChecksAre | app/work_dag.py:36-53 | the checks pass exactly for non-blank names, distinct ids and dependencies on other nodes, and an error names a node that has it |
| WorkDag.AcyclicIs | app/work_dag.py:55-70 | acceptance in terms of the nodes: no walk along dependencies returns to its start |
| WorkDag.RankedIsAcyclic | app/work_dag.py:55-70 | a numbering that falls along dependencies rules out every cycle |
| WorkDag.OrderIsRank | app/work_dag.py:55-86 | an order with dependencies first gives such a numbering |
| WorkDag.CycleSearch.Visit | app/work_dag.py:58-67 | terminates on every graph; success adds the task after all its dependencies, an error names a task on a real cycle |
| WorkDag.Dag.Validate | app/work_dag.py:36-70 | the first failed check is reported; otherwise accepted exactly when the dependency relation is acyclic, and a reported cycle exists |
| WorkDag.Collector.Append | app/work_dag.py:76-82 | the unguarded recursion terminates on a validated graph and appends the task after its dependencies, without repeats |
| WorkDag.Dag.TopologicalOrder | app/work_dag.py:72-86 | every task exactly once, every dependency strictly earlier |
| WorkDag.Dag.AssertObservedOrder | app/work_dag.py:88-106 | accepted exactly when all tasks are known and no observed direct dependency first occurs later; an error is the first unknown task or a real violation |
| WorkDag.Dag.FirstPositions | app/work_dag.py:95-99 | the first index of every observed task, or the first unknown one |
| WorkDag.Dag.LateDependency | app/work_dag.py:100-106 | finds a dependency observed later exactly when there is one |
| WorkDag.SubsequencesAccepted | app/work_dag.py:88-106 | every subsequence of a topological order is accepted |
| WorkDag.CompleteAcceptedIffTopological | app/work_dag.py:72-106 | an observation of every task once is accepted exactly when it is a topological order |
| RawInventory.RootIsOldest | app/admin_api.py:166-172 | the heap property makes the root the oldest of all |
| RawInventory.RetainedHeap.Push | app/admin_api.py:169-170 | sift-up keeps the heap and adds exactly the element |
| RawInventory.RetainedHeap.ReplaceRoot | app/admin_api.py:171-172 | sift-down keeps the heap and exchanges exactly the root |
| RawInventory.RetainedHeap.Retain | app/admin_api.py:166-172 | after every file the heap holds the newest `offset + limit` matches |
| RawInventory.RetainsReplace | app/admin_api.py:171-172 | replacing the root is what the next file does to the front of the full sort |
| RawInventory.RetainedInOrder | app/admin_api.py:174-175 | the sorted heap is the front of the full descending sort |
| RawInventory.MatchesIs | app/admin_api.py:154-164 | a file passes the domain and area filters that are set, and contains the query in its folded name, path, class and suffix |
| RawInventory.FullSortIs | app/admin_api.py:154-175 | the sort that pages are slices of holds exactly the files that pass, by falling modification time and then path |
| RawInventory.BucketIs | app/admin_api.py:128-142 | a bucket exists for every domain, area and class of a file, with the number and bytes of its files |
| RawInventory.BucketsSumToTotals | app/admin_api.py:128-142 | the bucket counts and bytes add up to the totals |
| RawInventory.RawInventory | app/admin_api.py:92-188 | the page is the slice of the full descending sort of all matches; totals and buckets cover all files; refused exactly beyond the scan limit |
| AdminPaging.PageAccounts | app/admin_paging_api.py:45-80 | a page shows its stretch of the matches, `total` is exact or a lower bound, and the two errors have their exact causes |
| AdminPaging.NormalizedIs | app/admin_paging_api.py:72-80 | pages start at one and end at 100, sizes are clamped to 10 to 200, the offset precedes the page |
| AdminPaging.PagesAreFront | app/admin_paging_api.py:45-80 | pages 1 to n together are the front of the matches |
| AdminPaging.WalkShowsEveryMatchOnce | app/admin_paging_api.py:45-80 | up to 100 full pages, walking the pages shows every match once, in order |
| AdminPaging.RawPage | app/admin_paging_api.py:270-308 | the raw route answers the page of the full descending sort, or asks for an index beyond the scan limit |
| RateLimiter.Limiter.Check | app/integration_runtime.py:21-46 | the new window of the subject, all others kept, admission up to the maximum, and Retry-After as the whole seconds left, at least one |
| RateLimiter.SubjectsAreIndependent | app/integration_runtime.py:27-46 | in any trace a subject's verdicts are those of a limiter that sees only its requests |
| RateLimiter.SlidingWindowBound | app/integration_runtime.py:27-46 | any half-open interval as long as the window has at most 2 x maximum - 1 accepted requests of a subject |
| RateLimiter.TraceBound | app/integration_runtime.py:27-46 | the same in a trace of all subjects |
| RateLimiter.SlidingWindowBoundIsTight | app/integration_runtime.py:27-46 | for every window and maximum some times reach the bound |
| RateLimiter.RetryAfterSuffices | app/integration_runtime.py:35-46 | waiting `Retry-After` gets the next request accepted exactly when at most one second or a whole number of seconds was left |
| RateLimiter.RetryAfterCanBeTooShort | app/integration_runtime.py:35-46 | a rejection after whose advertised two seconds the subject is rejected again |
| RateLimiter.RejectedKeepsStart | app/integration_runtime.py:29-46 | a rejected request never moves the window |
| BucketedDuplicates.ExcessIsCountMinusDistinct | app/cn/audit_acceptance_m16.py:37-58 | the grouped sum is the row count minus the number of distinct keys |
| BucketedDuplicates.ExcessOfRows | app/cn/audit_acceptance_m16.py:37-58 | the rows counted are those that are not deleted, and the keys are theirs |
| BucketedDuplicates.ExcessOfCurrentRows | app/cn/audit_acceptance_m16.py:66-78 | for parties, those that are also current |
| BucketedDuplicates.BucketPartition | app/cn/audit_acceptance_m16.py:59-64 | distinct keys split with the buckets for any hash of the full key |
| BucketedDuplicates.BucketAdds | app/cn/audit_acceptance_m16.py:66-78 | one more bucket adds exactly its own excess |
| BucketedDuplicates.PartyDuplicateExcess | app/cn/audit_acceptance_m16.py:66-78 | the loop over 64 buckets returns the unbucketed excess |
| BucketedDuplicates.UniquenessQuery | app/cn/audit_acceptance_m16.py:80-109 | the rewritten query returns, for the three tables, the undeleted (for parties also current) rows minus the distinct keys among them |
| MetadataDocument.PathIsWalked | app/uspto_odp_bulk_metadata.py:36-43 | every object that some path of child numbers leads to is met by the walk |
| MetadataDocument.PathsDiffer | app/uspto_odp_bulk_metadata.py:36-43 | none is met twice |
| MetadataDocument.WalkedHasPath | app/uspto_odp_bulk_metadata.py:36-43 | nothing else is met |
| MetadataDocument.FirstTextIs | app/uspto_odp_bulk_metadata.py:46-51 | the text found is the stripped one under the first key that has a text |
| AssignmentManifest.DateOfIs | app/uspto_odp_bulk_metadata.py:86-124 | a file is dated exactly by the one path of the document that leads to a record naming it, from its first date field, or without one from its first timestamp field |
| AssignmentManifest.ProductsAre | app/uspto_odp_bulk_metadata.py:77-83 | products are accepted exactly when no record anywhere names another one |
| AssignmentManifest.SpecOfIs | app/uspto_odp_manifest_builder.py:70-104 | a spec is understood exactly when path and kind are, and its file name is the path's |
| AssignmentManifest.ParseSourceSpecs | app/uspto_odp_manifest_builder.py:58-117 | accepted exactly when all specs are valid, paths and file names are distinct and there is one snapshot; it then returns all of them |
| AssignmentManifest.EvaluateMetadata | app/uspto_odp_bulk_metadata.py:150-226 | accepted exactly when no record names another product and for every file one path leads to a record naming it, which is dated; the plan has those dates |
| AssignmentManifest.BuildAssignmentManifest | app/uspto_odp_manifest_builder.py:127-187 | accepted exactly when dates are distinct and every daily date is after the snapshot's; sources sorted by date, the last daily date, the daily count |
| AssignmentManifest.SortAscends | app/uspto_odp_manifest_builder.py:177-177 | sorting distinct dates gives strictly increasing ones |
| AssignmentManifest.SnapshotLeads | app/uspto_odp_manifest_builder.py:160-187 | the one snapshot comes first and everything after it is daily |
| AssignmentManifest.ThroughIsLast | app/uspto_odp_manifest_builder.py:177-187 | `daily_through` is the date of the last source, or none for a lone snapshot |
| AssignmentManifest.BuildableIffAcceptable | app/uspto_odp_manifest_builder.py:58-187 | the steps of the builder succeed exactly for specs with different paths, file names and dates, one snapshot before all others, and no other product |
| AssignmentManifest.BuildManifest | app/uspto_odp_manifest_builder.py:332-396 | a manifest exactly for acceptable input; it lists every spec once, dated by the only record for its file, dates strictly increasing, snapshot first |
| CapacityProjection.CeilRatioIsLeast | app/us_capacity_projection.py:50-51 | the ceiling division is the least integer not below the exact ratio |
| CapacityProjection.ProjectedIffAcceptable | app/us_capacity_projection.py:54-146 | a projection is made exactly for inputs that meet every demand; without a pilot one is asked for |
| CapacityProjection.ProjectionsAreLeast | app/us_capacity_projection.py:148-154 | hot, warm and row projections, and those of the families, are the least integers not below their exact ratios |
| CapacityProjection.GoFromInputs | app/us_capacity_projection.py:92-157 | GO from the inputs alone: the exact hot ratio fits what floor and reserve leave, the exact warm ratio with the corpus what the cold minimum leaves |
| CapacityProjection.ByteMap | app/us_capacity_projection.py:34-47 | accepted exactly for non-empty, non-negative, not all zero sizes under distinct non-blank stripped names |
| CapacityProjection.FamilySums | app/us_capacity_projection.py:148-160 | separately rounded parts exceed the rounded whole by less than one byte a part |
| CapacityProjection.ProjectionConserved | app/us_capacity_projection.py:148-160 | the same for every report with a projection |
| CapacityProjection.GoIffSpaceRemains | app/us_capacity_projection.py:92-204 | for any rounding of the hot floor, GO exactly when after the import the hot volume still covers floor and reserve and the cold volume its minimum |
| CapacityProjection.GoKeptForSmallerCorpus | app/us_capacity_projection.py:148-204 | GO is kept for every smaller corpus that contains the pilot |
| ResearchDataset.AscendingUnique | app/research_dataset.py:42-50 | there is one ascending arrangement of given names |
| ResearchDataset.NamesByKeys | app/research_dataset.py:42-50 | lists with the same names up to order and letter case normalise alike, errors included |
| ResearchDataset.PermutationHasSameNames | app/research_dataset.py:42-50 | a permutation has the same names |
| ResearchDataset.OrderAndCaseDoNotMatter | app/research_dataset.py:132-213 | building is invariant under permuting jurisdictions or resource kinds and under jurisdiction letter case |
| ResearchDataset.NamesAreNormal | app/research_dataset.py:42-50 | an accepted list is non-empty, strictly ascending, stripped, and upper-case where asked |
| ResearchDataset.NamesAgain | app/research_dataset.py:42-50 | normalising a normalised list changes nothing |
| ResearchDataset.SamplingAgain | app/research_dataset.py:59-68 | the same for the sampling object |
| ResearchDataset.BuiltIff | app/research_dataset.py:151-213 | a reference is built exactly for requests that meet every demand on their fields |
| ResearchDataset.BuiltFields | app/research_dataset.py:172-213 | every field comes from the field of the same name, normalised; the id is the prefixed fingerprint |
| ResearchDataset.ParsedIff | app/research_dataset.py:216-240 | a document is parsed exactly when it has the version, buildable fields, and their own identifier and fingerprint |
| ResearchDataset.BuildAgain | app/research_dataset.py:151-213 | building from the fields of a built reference gives it back |
| ResearchDataset.DatasetRoundTrip | app/research_dataset.py:109-240 | parsing the dictionary of any built reference gives that reference back |
| ResearchDataset.IdentifierBindsIdentity | app/research_dataset.py:216-240 | without collisions accepted documents share an identifier exactly when their normal forms agree |
| ResearchDataset.ReplayMatchesIff | app/research_dataset.py:243-250 | without collisions a replay matches exactly when scope, row count and digest agree |
| WorkLedger.KeyIdentifiesUnit | app/work_engine.py:22-40 | the key payload of a unit without bars is that of no other unit, whatever the other one contains; an absent bound is its infinity marker |
| WorkLedger.BarsCollide | app/work_engine.py:22-40 | every unit with a bar in a text field shares its payload with another one |
| WorkLedger.IdentifiesIffBarFree | app/work_engine.py:22-40 | with bounds free of bars, and a missing bound counted as its marker, the payload identifies the unit exactly when the four text fields are free of bars |
| WorkLedger.MarkersCollide | app/work_engine.py:36-37 | every unit with a missing, empty or marker bound shares its payload with another identity |
| WorkLedger.IdentifiesIffDefinite | app/work_engine.py:22-40 | with bounds free of bars, the payload determines the identity exactly when the text fields are free of bars and the bounds are present, not empty and not the markers |
| WorkLedger.Store.IsSuccess | app/work_engine.py:127-134 | done exactly when the job's row is SUCCESS with this operation hash |
| WorkLedger.Store.Running | app/work_engine.py:136-164 | invalid progress or partition kind changes nothing; otherwise the row is replaced |
| WorkLedger.Store.Succeed | app/work_engine.py:166-167 | an existing row becomes SUCCESS |
| WorkLedger.Store.Fail | app/work_engine.py:169-170 | an existing row becomes FAILED |
| WorkLedger.RowFollowsMarks | app/work_engine.py:127-170 | a row is decided by the last running mark and the last mark on its own slot |
| WorkLedger.SuccessIffLatestMark | app/work_engine.py:127-170 | over any interleaving a unit counts as done exactly when its own latest marks say so |
| WorkLedger.OtherUnitsUntouched | app/work_engine.py:22-170 | marks on any other unit or by other jobs leave the row of a unit without bars alone |
| WorkLedger.UnitDoneIffLatestCalls | app/work_engine.py:22-170 | over any interleaving of calls of any jobs for any units, a unit without bars counts as done exactly when that job's own last start of it carried the operation and its own last call was a later success |

## Left out

- AdminTaskProtocol.StopIsFinal: treats recovery as one step; SplitRecovery has the interleaving it excludes.
- Losing the lock session while a task executes, and the rows of `control.job_run` that other job types write.
- The task bodies: gates, replay executors, storage headroom, and the scheduled CN cycle, which is one step of the worker.
- Run ids are numbers instead of uuids, and domain and action names arrive stripped and in upper case.
- BackfillLoop.LookupStore.Backfill: the native INSERT ... SELECT branch is one statement and is not modelled; a call whose `max_rows` exceeds its batch while a whole batch has empty application numbers ends after reading the first page repeatedly, which the contract does not describe.
- BackfillAcceptance.SuccessIsExact: `max_rows` is not part of a history; epoch tokens do not come back; the last epoch check and the queries of the comparison are one step; an executor of an earlier epoch that still holds a page is excluded, as ForeignRowSpoils requires.
- BackfillDivergence.OverlappingConvergesIffNoTie: for sources in which some loop ends at all and no page has to end in an empty application number, and for executors that may use small batches.
- BackfillTarget.StatsMatchIffDistinct: which table with shared target keys and foreign rows is accepted depends on the hash.
- That an accepted run stays SUCCESS: the final update is unconditional, so an overlapping executor can overwrite it, and nothing is claimed.
- The schema and sample parts of the completeness check.
- CursorCodec.CursorRoundTrip: JSON numbers are integers, `\u` escapes of surrogate pairs are not parsed, and texts hold no lone surrogates; the encoder prints none of them.
- CursorCodec.DecodeCursor: payload values that are not scalars are compared against the checksum as they arrived instead of in canonical form, which changes only the kind of the error.
- PortfolioWalk.WalkIsExact: assumes a fixed snapshot with an ASCII source version and a case row for every binding.
- The projections, candidate materials, revalidation and provenance of the applicant reads, and the US lookups.
- RateLimiter.TraceBound: times do not decrease in lock order and settings do not change during the trace; time is real, not floating point.
- RawInventory.RawInventory: offset and limit are natural numbers; path classification is given with each file, and the listing of the buckets is a map.
- The other admin lists, whose rows come from SQL; AdminPaging covers their page arithmetic.
- WorkDag: Python's recursion limit, and the contract dictionary.
- AssignmentManifest.BuildManifest: issue lists are only empty or not; path, kind, date and file-name parsing are parameters, of which file names of file names being themselves is assumed.
- The TTAB manifest, which repeats the assignment checks per file.
- ResearchDataset.DatasetRoundTrip: the fingerprint is a function of the normalised fields, and the case mappings are assumed to be idempotent; a contract version of `true` or `1.0` is not accepted as 1.
- WorkLedger.IdentifiesIffBarFree: bounds that contain bars; KeyIdentifiesUnit and BarsCollide hold with them as far as stated.
- `summary` and `assert_complete` of the work ledger, which read only the rows that exist.
- SQL text, drivers, HTTP routes, report files and static contract tables.
