# A model of the seedrlike backend

seedrlike downloads torrents on a server, uploads them to a file host and keeps a
library of the uploaded folders and files. This project models its core and proves
what it promises. `dafny verify dfyconfig.toml` checks everything.

* **Download queue** (`JobStore`, `Reservation`, `QueueOps`, `DownloadQueue`,
  `QueueProtocol`, `QueueInvariant`, `QueueSafety`, `QueueQuiet`, `QueueBudget`,
  `QueueLedger`, `QueueDisk`, `QueueTheorems`, `QueueRuns`, `QueueStops`, `QueueOutcome`,
  `QueueRequests`, `QueueProgress`, `QueueLaws`, `QueueWitness`).
  `QueueOps` gives each critical section as a function of the task table and the database.
  `DownloadQueueClass` carries the sections out in place, on a list of task objects and the
  two tables, and each method equals its function. `QueueProtocol` interleaves the same functions: workers, HTTP
  callers, the scheduler, other users of the disk, crashes and restarts, where each
  store call works, is lost, or takes effect and loses its reply. The theorems speak
  about every state of every run, those of `QueueRuns` about runs with well-behaved
  surroundings. `QueueProgress` says what jobs, checks and restarts lead to, `QueueLaws`
  what each section does in plain terms, and `QueueWitness` has runs that show where the
  code falls short.
* **Staging** (`Staging`). The links from the downloaded to the uploaded files.
* **Library** (`Library`, `Folders`, `Search`). The two tables with their foreign keys,
  the two recursive closures, the two deleting handlers with authorisation, transaction
  and rollback, and the LIKE search.
* **Upload** (`UploadTree`, `Upload`, `RoundTrip`). The walk over the local tree, the
  size loop with its string comparison, the mirror of the tree in the tables, and that
  deleting an upload undoes it.
* **Notifications** (`Notifications`, `NotificationHistory`, `NotificationLaws`,
  `NotificationSafety`). The settings row, its statements and transactions, what each
  request answers, and runs of them.
* **Torrent metadata** (`Torrent`). Acceptance of an uploaded torrent and what it implies
  for the names the queue checks and the sizes it computes.
* `Wrappers`, `Sums` and `Paths` hold what the others share.

Assumptions. There is one process. New job IDs are fresh canonical UUIDs; a write whose
error was returned is not applied later. Verification tokens are fresh, their hash is
injective, and whoever presents an issued token has it from a mail. Each transaction of
the settings, and each delete request with its ownership check, is atomic. An upload
starts at an absolute, clean path other than "/"; directory entries have different names
without slashes. The full path of a file in a torrent is the name of the torrent joined
with the path of the file in it. LIKE follows section 8.5 of ISO/IEC 9075:1992 with
equality of characters as the collation, and torrent metadata the info dictionary of
BEP 3.

Results that differ from what one might expect of the code:

* An acknowledged stop can still end as "failed": `StopOverwritten` says exactly when,
  `StopLasts` what holds otherwise, and `LateStopHappens` is a run.
* A delivered job can be counted as failed: a crash between the answer of the upload and
  the terminal save leaves the row at "uploading", and recovery fails such rows.
  `CompletedExact` says exactly when a counted job says completed, and `AnsweredButFailed`
  is a run.
* The free space alone does not bound what admitted jobs may write, because a capacity
  check samples it before it walks the directories: `AdmissionOverbooks` is a run,
  `AdmissionExact` says when an admission leaves the bound, and `PlainBound` that it holds
  in every run without raced bytes. `DiskSafety` and `AdmissionSettles` bound all runs.
* The bound of ten tasks can fail after a restart: `TenTasks` proves it for all runs in
  which no reply of an insert is lost, `QueueStaysBounded` for all steps but a restart, and
  `RestartOverfills` is a run with eleven.
* A torrent whose name has a slash is accepted on upload and rejected by the worker: see
  `AcceptedNames` and `SlashedName`.
* `ParseTorrentFile` sees uploaded torrents only. For a magnet link the metadata comes
  from peers, and the overflow tests in `run` are what protects the sums;
  `RecordSizes` and `SelectedSizeLoop` cover both, `AcceptedSizes` says when they are idle.
* A folder inserted as its own parent would pass the foreign key and break the tree; the
  upload never does it, because it only inserts below the placeholder or a row that exists.

## Model

| member | source | states |
|---|---|---|
| QueueTheorems.AtMostOnceUpload | internal/core/queue/queue.go:633-657 | Over every run with any faults, crashes and restarts, each job ID enters the remote upload at most once; it is counted as completed only if it did; and while its row lives after an upload began, the row is at "uploading" or terminal |
| QueueTheorems.UploadIsDurable | internal/core/queue/queue.go:633-638 | Whenever a worker is inside the remote upload, the durable row of its job already says "uploading" |
| QueueTheorems.StagesMoveForward | internal/core/queue/queue.go:351-371 | The stages one worker run tries to persist strictly advance: pending, started, downloading, zipping, uploading, terminal |
| QueueTheorems.ExactAccounting | internal/jobs/store.go:70-95 | In every reachable state the rows ever inserted are the live rows plus the counted ones, without overlap; the job counters add up to the number of deleted rows and the byte counters to their sizes, in total and per day and status, even when a commit is applied but reported as an error and then retried |
| QueueTheorems.ReservationConservation | internal/core/queue/queue.go:509-517 | `activeBytes` equals the sum of the reservations of the admitted tasks and lies between 0 and the budget in every reachable state, failed finishes included |
| QueueTheorems.NoBudgetDeadlock | internal/core/queue/queue.go:554-557 | When no task holds a reservation, every worker waiting for capacity passes the budget test |
| QueueTheorems.DiskSafety | internal/core/queue/queue.go:526-558 | In every reachable state the admitted tasks may still write at most the free space plus `foreign`: what raced past the last check that admitted a job, and what others have written since its sample, or jobs beyond their reservations, less what others have freed |
| QueueRuns.AdmissionSettles | internal/core/queue/queue.go:526-558 | Every admission settles the debts of earlier ones: afterwards the admitted tasks overrun the free space by at most the raced bytes of this check plus what others have written since its sample, and never by more than before plus the raced bytes |
| QueueRuns.PlainBound | internal/core/queue/queue.go:526-558 | In every run in which nobody else writes, jobs stay within their reservations, and no check admits a job after a byte was written to a directory it had yet to walk, the free space alone covers what the admitted tasks may still write |
| QueueRuns.AdmissionExact | internal/core/queue/queue.go:526-558 | In every run whose walks count what is there at their ends, for every admission with jobs within their reservations: the free space alone covers the outstanding bytes afterwards if and only if the measured obligations, the bytes raced per job and those of others fit the sample plus the bytes freed before the walks |
| QueueTheorems.StoresAgree | internal/core/queue/queue.go:264-270 | A task that is not terminal has a durable row; once configured, a live row belongs to a task in memory or to an Add that returned an error; rows have equal status and stage, tasks too unless a restart reset the status to pending |
| QueueTheorems.ForgottenWhenGone | internal/core/queue/queue.go:699-723 | A finish removes the task from memory if and only if both store calls work, and then the row is gone and counted; otherwise the task stays terminal without a worker; the row goes exactly when the save works and the delete is applied |
| QueueTheorems.NeverForgotten | internal/core/queue/queue.go:718-723 | No step but a finish or a crash removes a task from memory |
| QueueTheorems.OneWorkerPerTask | internal/core/queue/queue.go:333-342 | Two live workers never run the same task, and a task with a live worker is marked as running |
| QueueTheorems.RunningIsAttended | internal/core/queue/queue.go:333-342 | A task marked as running has a live worker, so no task waits for nobody |
| QueueTheorems.RecoveryIsTotal | internal/core/queue/queue.go:149-192 | From every durable state of a run, in whatever order the rows are read, `configure` accepts all rows, makes one task of each, starts with zero active bytes, and re-establishes the whole invariant; an uploading row becomes a failed task, a terminal row stays as it is, any other becomes pending with its stage, and no other field changes |
| QueueProgress.ResumedAfterCrash | internal/core/queue/queue.go:153-191 | After a crash in any reachable state, `configure`, one pass of the scheduler and one read, every row has a worker: pending, started, downloading and zipping jobs are at the beginning of `run` again, interrupted uploads at their end as failed, terminal ones at their end as what they are |
| QueueProgress.AnswerCompletes | internal/core/queue/queue.go:651-727 | From every reachable state with a worker inside the upload, its answer, the look for stops and the terminal section leave the job counted as completed on that day, with its size, and that counter one higher |
| QueueOutcome.CompletedExact | internal/core/queue/queue.go:651-657 | In every reachable state a counted job says completed if and only if its upload was answered and no crash found its row at "uploading" |
| QueueOutcome.StepOutcome | internal/core/queue/queue.go:374-390 | Every step keeps what row, task, worker and count say about an answered and an interrupted upload |
| QueueProgress.AnsweredButFailed | internal/core/queue/queue.go:166-175 | For every acceptable request that fits budget and disk there is a run in which its upload is answered and the job is counted as failed, after a crash before the terminal save |
| QueueProgress.JobCompletes | internal/core/queue/queue.go:374-727 | From every reachable state, for every acceptable request whose reservation fits budget and disk, there is a run from Add to the count as completed, with the size of what was selected |
| QueueProgress.FailureCounts | internal/core/queue/queue.go:384-390 | From every reachable state a worker that gives up ends its job as failed, or as stopped if it was stopped, counted once on that day |
| QueueProgress.CleanExact | internal/core/queue/queue.go:728-745 | Afterwards the directory of the job is gone and its bytes are free, unless the job failed; no other directory changes |
| QueueProgress.CheckAnswers | internal/core/queue/queue.go:526-570 | In every run a check with measured directories and a representable sum leaves its worker admitted if the reservation fits the budget and the outstanding bytes the sample, and waiting otherwise; only an admission changes the tasks |
| QueueProgress.CheckRuns | internal/core/queue/queue.go:526-570 | The next undisturbed check of a waiting worker can be run to its end, and admits the job if and only if budget and free space have room |
| QueueProgress.WaitingIsAdmitted | internal/core/queue/queue.go:526-570 | With no reservation held and enough free space the next undisturbed check of a waiting worker admits its job |
| QueueProgress.TickStartsAll | internal/core/queue/queue.go:333-342 | After a pass of the scheduler in any reachable state every task is running and has a live worker, and no job has changed |
| QueueRequests.RequestSurvives | internal/core/queue/queue.go:238-240 | In every reachable state, restarts included, row and task of a job carry magnet, selection, ZIP flag and owner of the request it was inserted for; a row that says work is under way has the name and sizes of the task |
| QueueLaws.AddExact | internal/core/queue/queue.go:202-273 | A request is accepted exactly when the magnet parses, the selection is absent or nonempty, distinct and not negative, the queue is configured and below ten tasks, neither task nor row has the hash and the insert is acknowledged; the job then has the hash, magnet, name, owner, ZIP flag and selection of the request, no sizes, and is pending |
| QueueLaws.SelectionExact | internal/core/queue/queue.go:215-224 | Before the metadata is there a selection is acceptable exactly when it is absent or nonempty, distinct and not negative |
| QueueLaws.CreateExact | internal/jobs/store.go:21-28 | An insert takes effect exactly when neither ID nor hash is taken and it is not lost, and is acknowledged exactly when its reply comes |
| QueueLaws.StopExact | internal/core/queue/queue.go:277-306 | A stop is acknowledged exactly when the caller may address the task, its status is not terminal, its stage is neither uploading nor zipping, and the save works; then status and stage of task and row are stopped and no other record changes |
| QueueLaws.SaveExact | internal/core/queue/queue.go:351-371 | A stage is recorded exactly when the task is not stopped and the save is acknowledged; task and row then say it, the row takes name, selection and sizes of the task and keeps its other columns |
| QueueLaws.FinishExact | internal/core/queue/queue.go:682-727 | A finish succeeds exactly when both statements work; the row goes and is counted under its day and outcome, with its size, exactly when the save works and the delete is applied; otherwise task and written row are terminal, no worker runs the task, and the reservation stays |
| QueueLaws.ConfigureExact | internal/core/queue/queue.go:120-193 | A list of rows is accepted exactly when the queue is not configured, every ID is canonical, every magnet parses to the hash of its row and no hash repeats |
| QueueLaws.DecideExact | internal/core/queue/queue.go:526-570 | The three answers of a capacity check: refusal exactly when the outstanding bytes exceed int64, admission exactly when they and the reservation fit, waiting otherwise |
| QueueLaws.MeasuredExact | internal/core/queue/queue.go:464-508 | The worker measures a torrent exactly when the chosen file numbers are nonempty, distinct and in range, names and paths are safe, the chosen lengths are not negative and add up to at most the full size, and the reservation fits int64 |
| QueueLaws.MeasureExact | internal/core/queue/queue.go:464-517 | Name, size and reservation are recorded exactly then, no other field changes, and the reservation is the full size, 16 MiB, 8 KiB a file and, for a ZIP, 21/20 of the selected size |
| QueueLaws.WholeTorrent | internal/core/queue/queue.go:982-990 | Without a selection the measured size is the sum of all lengths, which is the full size when that is exact |
| QueueLaws.SelectedFiles | internal/core/queue/queue.go:991-1005 | With a selection it is the sum of the selected lengths |
| QueueTheorems.QueueStaysBounded | internal/core/queue/queue.go:230-232 | No step but a restart takes the queue above ten tasks |
| QueueRuns.TenTasks | internal/core/queue/queue.go:230-273 | In every run in which no reply of an insert is lost, every state, restarts included, has at most ten tasks and at most ten rows, and while configured a task for every row |
| QueueWitness.RestartOverfills | internal/core/queue/queue.go:149-192 | The converse: for any eleven acceptable requests there is a run (one reply lost, ten accepted, a restart) that ends with eleven tasks |
| QueueTheorems.AcknowledgedStop | internal/core/queue/queue.go:283-306 | Once a stop is acknowledged, in every later state of the run, restarts included, the job is never uploaded nor counted as completed, and it is either still in the table or counted |
| QueueTheorems.OwnedStop | internal/core/queue/queue.go:277-306 | A stop by an HTTP caller succeeds only for a stoppable job of that caller, leaves jobs of others alone, and changes no other task, row or counter |
| QueueStops.StepSticks | internal/core/queue/queue.go:277-306 | Once every record of a job says stopped and no worker is about to write anything else, every step keeps it so |
| QueueStops.StopLasts | internal/core/queue/queue.go:277-306 | A stop acknowledged while no worker of the job has passed its look for stops lasts: in every later state, across failures, retries, lost replies and restarts, task, row and count say stopped, and the job is still in the table or counted |
| QueueStops.StopOverwritten | internal/core/queue/queue.go:384-390 | Some continuation counts an acknowledged stop as something else if and only if a worker of the job was between its look for stops and the terminal lock when the stop was acknowledged |
| QueueWitness.LateStopHappens | internal/core/queue/queue.go:384-390 | For every acceptable request there is a run in which its stop is acknowledged and the job is counted as failed |
| QueueWitness.AdmissionOverbooks | internal/core/queue/queue.go:526-558 | For any two independent requests there is a run with the reservations of two one-block torrents that admits both with one block of 512 bytes too few on the disk |
| QueueDisk.CheckExact | internal/core/queue/queue.go:533-553 | At any moment of a check whose walks are done, the present obligations exceed the free space by exactly: the measured obligations, the raced bytes and the bytes of others, less the sample, the bytes freed before the walks and what the walks got wrong; for no job is that error below what it freed before its walk |
| QueueBudget.StepBudget | internal/core/queue/queue.go:724-727 | Every step keeps the running total equal to the held reservations and within the budget |
| QueueLedger.StepLedger | internal/jobs/store.go:70-95 | Every step keeps all counters equal to the sums over the deleted rows |
| QueueLedger.CountedLedger | internal/jobs/store.go:90-94 | The upsert of one counter keeps every counter and both totals exact |
| QueueDisk.StepDisk | internal/core/queue/queue.go:526-558 | Every step (writes, frees, admission, finish, cleanup, foreign use of the disk, crash) keeps the disk bound |
| QueueSafety.StepCore | internal/core/queue/queue.go:374-390 | Every step keeps the per-job and per-worker invariant that relates row, task, worker position and history |
| QueueOps.RecoveredTasksAt | internal/core/queue/queue.go:153-191 | Recovery turns every row into the idle task with its ID, field by field that row, except that an interrupted upload is failed in status and stage and other unfinished work has status pending |
| DownloadQueueClass.DownloadQueue.Configure | internal/core/queue/queue.go:120-193 | Refines the configure operation in place: all rows or none, in the order read; the queue keeps its store and its task list if it refuses; each recovered task is its row, failed if it was uploading, pending if it was unfinished |
| DownloadQueueClass.DownloadQueue.Recover | internal/core/queue/queue.go:153-187 | The recovery loop accepts exactly the row lists with canonical IDs, matching magnets and distinct hashes |
| DownloadQueueClass.DownloadQueue.FindHash | internal/core/queue/queue.go:233-237 | The duplicate loop finds a hash exactly when some task has it |
| DownloadQueueClass.DownloadQueue.Add | internal/core/queue/queue.go:202-273 | Refines the add operation on list, table and rows: a job is accepted only if the insert was acknowledged |
| DownloadQueueClass.CheckSelection | internal/core/queue/queue.go:215-224 | Accepts exactly: no selection, or a nonempty one of distinct indexes that are not negative |
| DownloadQueueClass.CheckNames | internal/core/queue/queue.go:473-493 | Accepts exactly the metadata whose name is one safe component and whose files are no links and have paths of safe components only; the test of the whole path rejects nothing else |
| DownloadQueueClass.DownloadQueue.Find | internal/core/queue/queue.go:286-288 | Finds the addressed task if the caller may address it, and nothing otherwise |
| DownloadQueueClass.DownloadQueue.Stop | internal/core/queue/queue.go:277-306 | Refines the stop operation: memory changes only after an acknowledged save; a queue that is not configured knows no job |
| DownloadQueueClass.DownloadQueue.SaveStage | internal/core/queue/queue.go:351-371 | Refines the stage operation: refused once stopped, and memory changes only after an acknowledged save |
| DownloadQueueClass.DownloadQueue.Schedule | internal/core/queue/queue.go:333-342 | One pass marks every task as running and starts one worker for each task that had none, no task twice |
| DownloadQueueClass.DownloadQueue.RecordSizes | internal/core/queue/queue.go:464-517 | Records name, size and reservation when the selection, all paths, the name and the sums are valid, and then says whether the reservation fits the budget; the size is the sum of all lengths without a selection and of the selected ones with one |
| DownloadQueueClass.DownloadQueue.TryReserve | internal/core/queue/queue.go:526-558 | Gives up if and only if the file system does not answer, a counted directory cannot be measured or the outstanding bytes exceed int64; admits if and only if neither holds, the reservation fits the budget and the outstanding bytes fit the free space; waits otherwise |
| DownloadQueueClass.DownloadQueue.Outstanding | internal/core/queue/queue.go:533-553 | The loop returns the exact sum over the admitted tasks and the candidate, or nothing if a directory cannot be measured or the sum exceeds int64 |
| DownloadQueueClass.DownloadQueue.Finish | internal/core/queue/queue.go:682-727 | Refines the finish operation: on failure the terminal state and the reservation stay, on success the task leaves the list and gives its reservation back |
| JobStore.Store.Create | internal/jobs/store.go:21-28 | Inserts one row unless the ID or the hash is taken; an error leaves open whether it did |
| JobStore.Store.Active | internal/jobs/store.go:29-50 | Returns every row once, or an error |
| JobStore.Store.Save | internal/jobs/store.go:51-69 | Updates the mutable columns and tells a missing row from an unchanged one |
| JobStore.Store.Finish | internal/jobs/store.go:70-95 | Deletes the row and counts it in one transaction; a missing row counts nothing |
| Reservation.SelectedIndexesLoop | internal/core/queue/queue.go:982-1005 | With no selection and some files the result has every index once, in order; a given selection is returned unchanged if it is nonempty, distinct and in range; anything else is rejected |
| Reservation.Deduplicated | internal/api/handlers/torrent.go:52-72 | Keeps exactly the values of the list, each once, in the order of their first positions |
| Reservation.DeduplicatedIdentity | internal/api/handlers/torrent.go:52-72 | A selection without repetitions is kept as it is |
| Reservation.ParseSelection | internal/api/handlers/torrent.go:52-72 | Accepts exactly 1 to 10000 numbers between 0 and 100000 and keeps the first occurrences in order |
| Reservation.SelectionPipeline | internal/api/handlers/torrent.go:52-72 | What the form handler accepts passes the check of the worker unchanged, when its numbers are below the file count |
| Reservation.SelectedSizeLoop | internal/core/queue/queue.go:496-503 | The exact sum of the selected lengths, or an error exactly when one is negative or the sum exceeds int64 |
| Reservation.ReserveExact | internal/core/queue/queue.go:1024-1043 | `reservation` errors exactly on invalid sizes or when the mathematical sum exceeds int64, and otherwise returns that sum, without a wrapping step |
| Reservation.ReserveMonotone | internal/core/queue/queue.go:1024-1043 | The reservation grows with every argument and never falls below the full size |
| Reservation.AllocatedExact | internal/core/queue/queue.go:945-980 | The measurement in plain terms: nothing for an unreadable entry, a link, a negative count or an overflow, and otherwise 512 times the blocks of all inodes, hard links counted once |
| Reservation.AllocatedBytes | internal/core/queue/queue.go:945-980 | Exactly 512 times the blocks of the distinct inodes of the walk, or an error; an error exactly for an unreadable entry, a symbolic link, a negative count or an overflow |
| Staging.Stage | internal/core/queue/queue.go:822-859 | Succeeds exactly for safe and pairwise different paths of regular files in a job directory without symbolic links; then `payload` holds links to exactly these files and the directories on the way to them, and nothing else has changed |
| Staging.OnlySelected | internal/core/queue/queue.go:811-821 | After staging the files below `payload` are exactly the selected ones, each the same file as its download |
| Staging.StagedInodes | internal/core/queue/queue.go:822-859 | The inodes of the job directory grow by exactly those of the new directories; the links add none |
| Staging.StagingCost | internal/core/queue/queue.go:945-980 | The allocation measured after staging is the one before, plus 512 times the blocks of the new directories, less 512 times those of an earlier `payload` that nothing else links to; it is an error exactly when that sum is unrepresentable or a count is negative |
| Torrent.ParseTorrentFile | internal/core/queue/torrent_file.go:17-74 | Accepts exactly the dictionaries with safe name, safe and pairwise different paths, lengths whose exact sum fits int64, and as many pieces as it takes to cover the content, and no more |
| Torrent.CheckFiles | internal/core/queue/torrent_file.go:46-61 | The loop accepts exactly valid file lists and returns their exact total |
| Torrent.CheckPath | internal/core/queue/torrent_file.go:47-58 | Accepts exactly nonempty lists of safe components |
| Paths.SafeRelativeExact | internal/core/queue/queue.go:789-799 | The safe paths are exactly the slash-joined lists of components that are not empty, not dots and free of slashes, backslashes and NUL |
| Paths.SplitJoined | internal/core/queue/queue.go:793-797 | Splitting undoes joining |
| Paths.JoinedSplit | internal/core/queue/queue.go:793-797 | Joining undoes splitting |
| Paths.JoinedInjective | internal/core/queue/torrent_file.go:47-59 | Different component lists give different paths, so comparing joined strings finds exactly the repeated paths |
| Paths.BaseOnly | internal/core/queue/queue.go:490-493 | A safe name that is its own last element is exactly one component |
| Torrent.CeilingCovers | internal/core/queue/torrent_file.go:66-72 | The rounded-up quotient is the one piece count that covers the content |
| Torrent.SelectionWithinTotal | internal/core/queue/queue.go:496-503 | Distinct files in range never add up to more than the whole torrent |
| Torrent.SizeChain | internal/core/queue/queue.go:464-508 | For a torrent with exact sizes the selected size lies between 0 and the full size, so the overflow test and the test selected > full never fail, and the worker gives up only for a selection that does not fit, an unsafe name or a reservation beyond int64 |
| Torrent.AcceptedSizes | internal/core/queue/queue.go:464-508 | The same from the acceptance of the upload on: an accepted dictionary has exact sizes, and the worker measures it if and only if the selection fits, the names are safe and the mathematical reservation fits int64 |
| Torrent.AcceptedNames | internal/core/queue/queue.go:473-493 | The worker accepts the names of an accepted upload if and only if the torrent name has no slash and no file claims to be a link |
| Torrent.SlashedName | internal/core/queue/torrent_file.go:36-38 | The upload accepts the name "a/b", which the worker rejects |
| Library.GetFoldersToDelete | internal/database/sqlc/torrent.sql.go:263-272 | The level-by-level rows: each folder of the subtree once, parents before children; gives up exactly when the recursion passes the limit of the database |
| Library.ClosureTerminates | internal/database/sqlc/torrent.sql.go:263-272 | Without a limit the recursion ends if and only if it does not start at the root, which is its own parent |
| Library.DistinctClosure | internal/database/sqlc/library.go:77-80 | The UNION DISTINCT closure ends on every table, cyclic ones included, and is the same set, the subtree |
| Library.LibrarySubtreeOwned | internal/database/sqlc/library.go:76-87 | True exactly when no folder or file of the subtree has another owner or none |
| Library.SeededTree | internal/database/migrations/20250116065715_seedrlike_base.sql:29-32 | The table after the migration is a tree |
| Library.InsertFolderTree | internal/database/sqlc/torrent.sql.go:53-85 | An accepted folder keeps the tree if and only if it is not its own parent |
| Library.InsertFileTree | internal/database/sqlc/torrent.sql.go:13-51 | An accepted file keeps the tree |
| Library.SubtreeWithout | internal/api/handlers/folders.go:352-385 | Removing other subtrees leaves of a subtree exactly what was in none of them |
| Library.WithoutTree | internal/api/handlers/folders.go:352-385 | Removing whole subtrees below the root keeps the tree and both foreign keys |
| Folders.DeleteSubtree | internal/api/handlers/folders.go:365-384 | Files first and folders from the end of the list: no statement meets a foreign key, each folder is deleted once, and exactly the subtree is gone; it fails only if the connection does |
| Folders.DeleteSubtrees | internal/api/handlers/folders.go:352-385 | For any list of folders below the root (overlapping, repeated, any order, missing) exactly the union of their subtrees and the files in it is gone, no folder is deleted twice, no foreign key is met; it fails only beyond the recursion limit or when the connection breaks within one statement per listed folder and two per folder of the table |
| Folders.AuthorizeExact | internal/api/handlers/folders.go:128-175 | When each answer is given: a deletion goes ahead exactly for a signed-in account and a row below the root that exists and, unless the caller is an administrator, is theirs with everything below it |
| Folders.RemovedExact | internal/api/handlers/folders.go:194-224 | A deleted folder goes with exactly the folders and files of its subtree, a deleted file alone, and no other row changes |
| Folders.SweptExact | internal/api/handlers/folders.go:269-405 | The rows a cleanup takes, in terms of their age in seconds, their owners and the subtree they are in |
| Folders.DeletionRemovesOwnRows | internal/api/handlers/folders.go:159-175 | A deletion by anybody but the administrator removes only rows of that user |
| Folders.SweepRemovesOwnRows | internal/api/handlers/folders.go:316-329 | A cleanup by anybody but the administrator removes only rows of that user |
| Folders.RemovedTree | internal/api/handlers/folders.go:194-224 | A deletion keeps the tree |
| Folders.SweptTree | internal/api/handlers/folders.go:352-395 | A cleanup keeps the tree |
| Folders.Database.Check | internal/api/handlers/folders.go:128-175 | The order of refusals: sign-in, content type, root, account, missing row, owner, mixed subtree |
| Folders.Database.DeleteContent | internal/api/handlers/folders.go:126-241 | On success exactly the file, or the subtree with its files, is gone; every refusal and every failure leaves the tables alone, except a commit whose reply was lost; no foreign key error ever |
| Folders.Database.KeepSafe | internal/api/handlers/folders.go:316-329 | Keeps exactly the folders whose subtrees belong to the user alone; one statement per folder, and it fails exactly when the connection breaks before the last |
| Folders.Database.DeleteStale | internal/api/handlers/folders.go:269-405 | On success a folder is gone if and only if it is, or lies below, a folder added more than 604800 seconds ago that the caller may take, which is any for an administrator and one whose whole subtree is theirs for others; a file is gone if and only if its folder is, or it is itself that old and covered by the caller; each stale folder is deleted once, no foreign key error; it succeeds for every account unless the recursion limit, the commit or an early loss of the connection gets in the way; failures leave the tables alone, except a commit whose reply was lost |
| Folders.Database.CreateFolder | internal/database/sqlc/torrent.sql.go:53-85 | Inserts exactly what primary and foreign key allow; the tree is kept unless the row is its own parent |
| Folders.Database.CreateFile | internal/database/sqlc/torrent.sql.go:13-51 | Inserts exactly what primary and foreign key allow, and keeps the tree |
| Search.EscapingIsExact | internal/database/sqlc/library.go:35-40 | For every query and name, the escaped pattern between two percent signs matches if and only if the query occurs in the name as a contiguous substring |
| Search.EscapedPieces | internal/database/sqlc/library.go:37 | An escaped query is read by the matcher as its own characters, whatever follows |
| Search.PatternPieces | internal/database/sqlc/library.go:37 | The pattern is never an invalid escape sequence |
| Search.SelectExact | internal/database/sqlc/library.go:41-47 | The WHERE clauses select exactly the visible rows of the folder, or those with the query in their name, never the root |
| Search.FoundExact | internal/database/sqlc/library.go:41-47 | Found are exactly the rows without owner or of this user, none of a user for a guest, in the folder or with the query in their name, never the root |
| Search.GetLibraryContents | internal/database/sqlc/library.go:21-62 | Returns exactly the visible folders and files that are wanted, each once; a guest sees only rows without owner |
| UploadTree.SizeLoopEnds | internal/core/upload/upload.go:463-467 | Walking up while the path is not less than the start ends if and only if the start is not "/" |
| UploadTree.AddUpwards | internal/core/upload/upload.go:463-467 | The string comparison makes the loop visit exactly the directories between the file and the start, each once, and no other directory is touched |
| UploadTree.DirSizes | internal/core/upload/upload.go:453-473 | Every directory at or below the start is charged exactly the files below it |
| UploadTree.SizesFit | internal/core/upload/upload.go:463-467 | No sum of any directory, at any time, exceeds the size of the whole tree, so none wraps when that fits int64 |
| UploadTree.WalkSizes | internal/core/upload/upload.go:453-473 | The bytes charged to a directory of the walk are the recursive size of that directory |
| UploadTree.WalkKidsOrder | internal/core/upload/upload.go:493-508 | The pre-order walk names every path once and every directory before what is in it |
| UploadTree.WalkComplete | internal/core/upload/upload.go:493-508 | Every node of the tree is in the walk, under the path of its names |
| UploadTree.WalkSound | internal/core/upload/upload.go:493-508 | Every entry of the walk is a node of the tree at the path of its names |
| UploadTree.SiblingsApart | internal/core/upload/upload.go:504-508 | No path is below two entries of one directory |
| Upload.NewFolder | internal/core/upload/upload.go:182-234 | Creates the remote folder and its row; the upload root hangs below the placeholder, other folders below a parent that exists; the tree is kept |
| Upload.NewFile | internal/core/upload/upload.go:245-280 | Records what the remote service reports, with the remote root mapped to the placeholder |
| Upload.NewFolderExact | internal/core/upload/upload.go:182-234 | A folder is recorded exactly when its parent is known, the remote folder exists, the ID is new and the row at its place exists; every column of the row, and the answer for every fault |
| Upload.NewFileExact | internal/core/upload/upload.go:245-280 | A file is recorded exactly when the remote service answers with a server, the ID is new and the folder it names exists; name, size and folder are those it reports |
| Upload.ParentKnown | internal/core/upload/upload.go:503-523 | The lookup of the parent folder ID never fails |
| Upload.MirroredRows | internal/core/upload/upload.go:182-280 | Column by column: every directory has a row with its name, recursive size, owner and time, below the placeholder with the hash of the job or below the row of its parent; every file has a row with its name and size in the folder of its directory |
| Upload.LastReport | internal/core/upload/upload.go:532-541 | However far the walk has come, the last report is the number of bytes of the files so far, and there is none before the first file |
| Upload.Callback | internal/core/upload/upload.go:493-544 | One callback of the walk keeps the mirror, the byte count and the reports; with an honest remote service it succeeds if and only if the entry gets what it asks for |
| Upload.SendDirectory | internal/core/upload/upload.go:452-551 | With an honest remote service it succeeds if and only if the tree can be read and every entry is served: its reply is there and has an ID that no earlier row has; then the new folder rows are the directories of the tree, one each, under the row of their parent, with name and recursive size, and the new file rows are the files; reports never fall and never pass the total; old rows stay and the table stays a tree, also on failure |
| Upload.Send | internal/core/upload/upload.go:439-551 | The same for a single file, which goes below the placeholder, with its own success condition and progress reports |
| RoundTrip.DeleteUndoesUpload | internal/api/handlers/folders.go:194-224 | Deleting the root folder of an upload restores the tables exactly as they were before the upload |
| RoundTrip.UploaderMayDelete | internal/api/handlers/folders.go:159-175 | The user who uploaded passes the authorisation for that deletion, administrator or not |
| RoundTrip.SubtreeOfUpload | internal/core/upload/upload.go:475-544 | The subtree of the new root folder is exactly the set of created folders |
| NotificationLaws.SaveExact | internal/notifications/service.go:58-70 | Settings are saved exactly for a named user and a normalised address; each column afterwards, for a new, an unchanged and a changed address; nobody else is touched |
| NotificationLaws.RequestExact | internal/notifications/service.go:88-127 | Every answer to a request for verification and exactly when it is given; token, expiry in 30 minutes and cooldown are written exactly for those that pass |
| NotificationLaws.VerifyExact | internal/notifications/service.go:128-148 | A token verifies exactly if it is that of the row and unexpired, and is then gone |
| NotificationLaws.TestReserveExact | internal/notifications/service.go:149-186 | Every answer to a request for a test mail and exactly when it is given |
| NotificationLaws.TestDeliverExact | internal/notifications/service.go:187-200 | A test mail goes out exactly if the row is verified and still has that address |
| NotificationLaws.NotifyExact | internal/notifications/service.go:206-243 | A notification goes to the verified address exactly if the flag of its own event is set: completed for completed jobs, failed for failed ones |
| NotificationLaws.FullCircle | internal/notifications/service.go:58-243 | Save, request, change of flags, verification and notification in a row: exactly the events asked for arrive, and the token works once |
| NotificationLaws.ChangedAddress | internal/notifications/service.go:58-70 | A changed address voids the token, silences notifications and refuses test mails |
| Notifications.AssignmentOrder | internal/notifications/service.go:66-69 | The left-to-right assignments equal the simultaneous update; with the address assigned first they would if and only if nothing had to be cleared |
| Notifications.Service.Save | internal/notifications/service.go:58-70 | A changed address loses verification and pending token, an unchanged one keeps them, cooldowns always stay |
| Notifications.Service.RequestVerification | internal/notifications/service.go:88-127 | Grants a mail only after a committed reservation, at most once a minute |
| Notifications.Service.Verify | internal/notifications/service.go:128-148 | Verifies exactly when the hash matches an unexpired request for a nonempty address, and consumes it |
| Notifications.Service.TestReserve | internal/notifications/service.go:149-186 | Reserves a test mail for a verified address at most once a minute |
| Notifications.Service.TestDeliver | internal/notifications/service.go:187-200 | Lets a test mail go only to the address that is verified at that moment |
| Notifications.Service.Notify | internal/notifications/service.go:206-243 | Lets a notification go only to a verified address that asked for the event |
| NotificationSafety.VerifiedMeansConfirmed | internal/notifications/service.go:128-148 | In every reachable state a verified row has a nonempty address for which a token was issued since its last change, mailed to it first, and presented by that user within 30 minutes |
| NotificationSafety.TokenVerifiesOnce | internal/notifications/service.go:136-146 | No token ever verifies twice |
| NotificationSafety.MailToVerifiedOnly | internal/notifications/service.go:187-200 | Every test mail and every notification of a run went to an address that was verified when it was sent |
| NotificationSafety.SendsFollowReservations | internal/notifications/service.go:100-126 | Every verification and test mail spends a committed reservation of its user, and no two mails spend the same one |
| NotificationSafety.CooldownHolds | internal/notifications/service.go:114-118 | The k-th next reservation of a user is at least k minutes later, whatever is saved in between and however the clock jumps |
| NotificationSafety.CooldownWindow | internal/notifications/service.go:174-180 | A window of length T holds at most floor(T/60s)+1 reservations of a user |
| NotificationSafety.StepInv | internal/notifications/service.go:58-201 | Every step keeps the invariant behind these results |

## Left out

- The torrent client, peers, trackers, piece state, tickers and timeouts: a worker may fail at any point instead.
- The remote file host, mail delivery, ZIP compression and file system calls: only their effects (upload begun, mail handed over, bytes written, replies) are modelled.
- Bencode, magnet links, UUIDs, JSON, base64 and SHA-256: parsing is a parameter, a string that is only compared is a number.
- The cached metadata file of a job and the paths of its directory: they do not change which jobs exist.
- Display fields, snapshots, progress percentages, speeds, websocket messages, logging, views, routing and sessions.
- JobStore.Store.Active: does not state the order by creation time and ID; the recovery results hold for every order.
- Search.GetLibraryContents: does not state the requested sort order, only which rows are returned, each once.
- Widths of the metric counters and of times: counters are unbounded and times are not rounded to the column precision.
- The `processing` flag of the scheduler and its ticker: a pass may happen at any time while the queue is configured.
- Concurrent changes of the library during a delete request, and deletion of user accounts.
- Staging.Stage: file system calls that fail for other reasons than a wrong path, and access rights, are not modelled.
- DownloadQueueClass.DownloadQueue.Finish: writes the terminal state to the task object after the store calls instead of before; nobody can look in between, because the mutex is held.
- QueueSafety.StepCore: the worker body is a program counter with one step per critical section or piece of unlocked work, not a method.
- Upload.SendDirectory: the file rows mirror the tree, and the success condition is exact, only if the remote service reports the parent, name and size it was given.
- UploadTree.Size: sizes are unbounded, while the source adds them up in int64 without a guard; by `SizesFit` no sum exceeds that of the whole tree.
- UploadTree.AddUpwards: joins paths by plain concatenation, which is what joining does for clean paths.
- Library.GetFoldersToDelete: the recursion limit is a setting of the database server and a parameter here.
