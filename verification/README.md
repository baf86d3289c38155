# A verified model of postgres-mcp

`postgres-mcp` is a stdio server that gives agents access to a PostgreSQL database. This project models the parts
of it whose correctness is not obvious from one function body, and proves what they are there for: two protocols
between concurrent callers, four registries that are shared behind locks, the SQL scanner with the quoting and the
budget prefix around it, the way of a cell from the driver to a tuple or an exported file, the discovery filters,
the pagination cursors, and the loop around the external advisor.

`dafny verify dfyconfig.toml` checks everything.

## How the model is organised

| module | models |
|---|---|
| `Text` | trimming, ASCII case, decimal numbers, `join` |
| `SqlScanner`, `SqlSplitting`, `SqlTokens` | splitting SQL into statements, quoting, the budget prefix, and what the scanner takes as one token (`src/db.rs`) |
| `QueryJob`, `QueryJobSafety`, `QueryJobRuns`, `QueryJobStatus` | the job handle: lock regions, atomic operations, the waiter's `Notify` (`src/server.rs`), and the loop of `job_status` (`src/tools/query_surface.rs`) |
| `JobRegistry` | the table of jobs, while the jobs in it go on (`src/server.rs`) |
| `ExportArtifacts` | the registry of exported files (`src/server.rs`) |
| `PinnedSessions`, `PinnedSessionSafety`, `PinnedSessionExpiry`, `PinnedSessionRaces`, `PinnedSessionCalls` | pinned sessions, their expiry timers, touches that race with them, and each call run alone (`src/server.rs`) |
| `CircuitBreaker` | the circuit breaker in front of the tools (`src/server.rs`) |
| `StartupLease`, `LeaseProtocol`, `LeaseSafety` | the startup lease and the phase journal (`src/startup_coordination.rs`) |
| `OutputNames`, `DelimitedExport` | column names, rows and tuples, CSV and TSV (`src/db.rs`, `src/tools.rs`, `src/tools/query_surface.rs`) |
| `NameFilter` | compilation of discovery filters, against a LIKE matcher and an escape-string reader (`src/tools.rs`) |
| `EscapeLiterals` | the escape-string literals of `NameFilter` under the scanner of `SqlScanner` |
| `Pagination` | cursors and pages (`src/tools.rs`, `src/tools/query_surface.rs`) |
| `Advisor`, `AdvisorResults`, `AdvisorEcho`, `ReasonMerging` | the external advisor loop, what it returns, what comes back to it, and the merging of reasons (`src/advisor_extension.rs`) |

Code that changes state is modelled by methods and classes that change state, each against a function on values;
what the code promises is proved about these functions. Where callers run concurrently there is also a machine in
which every lock region, atomic operation, SQL statement or timer step is one step, any number of callers exist,
and a schedule says who moves; the theorems hold for every schedule. Times, generated ids, the answers of the
database, of the external advisor and of the keyed digest are parameters.

## What the proofs show to be different from what one would expect

* `run_phase` with `skip_if_completed` records an event `skipped`, and only a latest event `completed` makes it
  skip. So a completed phase is executed again by every second run (`LeaseSafety.CompletedPhaseRunsAgain`). No caller
  asks for it at present: both calls in `src/main.rs` (lines 190 and 261) pass `false`.
* The fence token starts at 1 again after a release. Along a run the tokens are distinct exactly if at most one
  acquire found no row, and then they count up and each identifies its holder (`LeaseSafety.TokensAreDistinctExactly`);
  otherwise only the pair of owner and token does (`LeaseSafety.TokenAloneIsReused`).
* The configuration check "heartbeat below ttl" is exactly right (`LeaseSafety.IntervalMustBeBelowTtl`), but it leaves
  only the difference as room for latency: a held lease lasts in every timely run if and only if the time to get an
  answer, the interval and the time for a statement to take effect add up to less than the ttl
  (`LeaseSafety.PromptIsExactlyWhatKeepsLeases`).
* `job_status` reads the snapshot before the revision and can wait for ever for a job that is finished
  (`QueryJobStatus.StatusOrderLosesAWakeup`). From when the job is finished, it is sure to return, however the others
  are scheduled, exactly if what it holds will not count everything once all is announced
  (`QueryJobStatus.FinishedJobReleasesStatusExactlyIfBehind`): in particular if it loaded the revision before the end
  was counted (`QueryJobStatus.EarlyWaiterReturns`). `snapshot_with_revision` always leads to a return
  (`QueryJobSafety.FinishedJobReleasesWaiter`).
* A session in use can be closed. A touch that has raised the generation before the expiry checks it is honoured
  (`PinnedSessionRaces.RaisedTouchIsHonoured`); one that has not can be lost, wherever its own steps lie: after the
  checks (`PinnedSessionRaces.TouchInTheWindowIsLost`), on both sides of checks and removal
  (`PinnedSessionRaces.TouchBegunBeforeTheChecksIsLost`), or with the use stored before the checks and the generation
  raised in between (`PinnedSessionRaces.UseBeforeTheChecksIsLost`). A session is closed less than a time to live
  after a use exactly if a touch that had not raised the generation at the generation check uses it that late
  (`PinnedSessionRaces.TakenOutEarlyExactlyByLateTouch`).
* Registering an export artifact under the path of a listed record leaves a record without its file, or two with one;
  the files and the records agree at every point exactly if no path is that of a record listed then
  (`ExportArtifacts.RunIsConsistent`). The server itself keeps to that: its only registration
  (`src/tools/query_surface.rs` line 940) comes after `create_export_artifact_file`, which opens with
  `create_new(true)`, and with new files only they always agree (`ExportArtifacts.NewFilesAreConsistent`).
* The quoting of literals and identifiers is opaque to the statement scanner even next to other quotes
  (`SqlSplitting.QuotingIsOpaque`). An escape-string literal is opaque if its value holds no single quote, and else
  exactly if the scan takes what is printed behind the first one as a whole (`EscapeLiterals.LiteralIsOpaqueExactly`):
  two quotes cancel out (`EscapeLiterals.TwoTicksAreOpaque`), one alone leaves the scan outside normal mode
  (`EscapeLiterals.EscapeLiteralWithOneTickEndsElsewhere`), and a semicolon right behind the first one, as in `';'`,
  cuts the statement (`EscapeLiterals.SemicolonBehindTickCuts`). Every value over a set of characters is opaque
  if and only if the single quote is not in the set (`EscapeLiterals.AlphabetIsOpaqueExactly`).
* With a query that has no statement, the budget prefix's own last statement is taken for the query's
  (`SqlSplitting.BudgetKeepsLastStatement`).
* A column that the query itself calls `x__dup2` is reported as renamed when there is a column `x`
  (`OutputNames.GivenAliasIsReported`), and a column that was renamed from an empty name is not reported; which
  columns are reported is said exactly by `OutputNames.ReportedExactly`.
* `name_like` without an unescaped wildcard takes backslashes literally (`NameFilter.CompiledFilterMeaning`).
* An export without columns does not read back (`DelimitedExport.ExportRoundTrip`).
* An advisor that sends a collected recommendation back unchanged has it recognised exactly if no column begins or
  ends with whitespace, which only whitespace inside quotes can cause (`AdvisorEcho.EchoIsRecognized`).
* A text of reasons with ` | ` in it is never recognized: it is appended unless it does not fit or is the whole
  current text (`ReasonMerging.TextWithBarIsAppended`). Any text that was appended is recognized when it comes again
  exactly if it holds no ` | ` and the current text did not end in a reason with ` |` at its end, or if that reason
  without its ` |` is the text itself (`ReasonMerging.MergingAgain`): such an open end swallows the separator, so after
  `a |` the reason `t` is appended twice (`ReasonMerging.OpenReasonHidesTheNext`). A reason that is listed stays
  recognized for ever unless it ends in a bar (`ReasonMerging.MentionedStays`).

## Model

| member | source | states |
|---|---|---|
| `SqlScanner.SplitSqlStatements` | src/db.rs:1931-2055 | the loop with its five flags and start index returns exactly the trimmed non-blank pieces that the mode-by-mode scan `Run` finds |
| `SqlScanner.ReadDollarQuoteStart` | src/db.rs:2057-2074 | returns the dollar-quote delimiter that starts at a position, and none if there is none |
| `SqlTokens.LineCommentIsOpaque` | src/db.rs:1952-1958 | from normal mode, two dashes, any text without a line feed, and a line feed only add themselves to the current piece |
| `SqlTokens.OpenLineComment` | src/db.rs:1952-1958 | before the line feed the scan is in the comment and has cut nothing, whatever the comment holds |
| `SqlTokens.BlockCommentIsOpaque` | src/db.rs:1960-1968 | so does a block comment, up to the first end mark |
| `SqlTokens.DollarQuoteIsOpaque` | src/db.rs:1943-1951 | so does a dollar-quoted text with any tag, up to the next occurrence of that tag |
| `SqlTokens.BlandTextIsCutAtDepthZero` | src/db.rs:2022-2038 | a text in which no quote, comment, dollar quote or parenthesis begins is added as it is exactly if it holds no semicolon or the depth is not 0, and is cut otherwise |
| `SqlTokens.ParenthesesAreOpaque` | src/db.rs:2022-2038 | such a text in parentheses is added as it is, semicolons included, exactly unless it holds one and the parenthesis opens at depth -1 |
| `SqlSplitting.StatementsAreThePieces` | src/db.rs:2022-2052 | the statements are the pieces that are not blank, each trimmed, in order and none twice |
| `SqlSplitting.SplittingLosesNothing` | src/db.rs:1931-2055 | joining the pieces with `;` gives the SQL back: only the cutting semicolons and outer whitespace are dropped |
| `SqlSplitting.SplitIsCompositional` | src/db.rs:1931-2055 | a text that ends outside quotes and comments at depth 0 can be followed by `;` and anything: the statements are those of both parts; and the pieces split that way only then |
| `SqlSplitting.StatementsAreAtomic` | src/db.rs:1931-2055 | every returned statement is non-empty, trimmed, and one statement when split again |
| `SqlSplitting.SqlQuoteLiteral` | src/db.rs:2264-2266 | the quoted literal reads back as the value |
| `SqlSplitting.SqlQuoteIdent` | src/db.rs:2268-2270 | the quoted identifier reads back as the value |
| `SqlSplitting.QuotingIsInvertible` | src/db.rs:2264-2270 | a text reads as a value exactly if it is the quoted form of the value |
| `SqlSplitting.QuotingIsOpaque` | src/db.rs:1972-1998 | from normal mode the scan passes a quoted value as one token and ends exactly behind it in the same mode and depth, for every value and every text on either side |
| `SqlSplitting.QuotedValueNeverMovesACut` | src/db.rs:1931-2055 | replacing one quoted value by another changes one piece, and in it nothing but the value |
| `EscapeLiterals.LiteralIsOpaqueExactly` | src/tools.rs:1904-1914 | for every value and from every state in normal mode, the scan only adds the printed literal to the current piece, in the same mode and depth, if and only if the value has no single quote or what is printed behind the first one is scanned as a whole: without a cut, and back to normal mode and the same depth |
| `EscapeLiterals.AlphabetIsOpaqueExactly` | src/tools.rs:1904-1914 | all values over a set of characters are opaque if and only if the single quote is not in the set |
| `EscapeLiterals.EscapeLiteralWithoutTickIsOpaque` | src/tools.rs:1904-1914 | the first case of the exact condition: no single quote |
| `EscapeLiterals.TwoTicksAreOpaque` | src/db.rs:1972-1998 | contrast: the value of two single quotes is opaque |
| `EscapeLiterals.SemicolonBehindTickCuts` | src/db.rs:1972-2040 | contrast: for every value with a semicolon right behind its first single quote, the scan of the literal at depth 0 ends the statement there |
| `EscapeLiterals.EscapeLiteralWithOneTickEndsElsewhere` | src/tools.rs:1904-1914 | for every value with exactly one single quote the scan of the printed literal never ends in normal mode |
| `EscapeLiterals.StaysInsideExactlyWithoutTick` | src/db.rs:1972-1998 | the scan stays inside the string up to the closing quote of the printed literal exactly if the value holds no single quote |
| `SqlSplitting.BudgetedSql` | src/db.rs:2143-2177 | the text is `BEGIN TRANSACTION READ ONLY` if the query must be read-only, then the timeouts that are set, local to the transaction or not and at most 2147483647 ms, then the query, separated by `; ` |
| `SqlSplitting.ExtractLastStatement` | src/db.rs:1923-1929 | the backward search finds the last statement, which is one non-empty statement by itself |
| `SqlSplitting.BudgetKeepsLastStatement` | src/db.rs:2076-2177 | the budgeted SQL splits into the prefix statements and those of the query; its last statement is the query's exactly if the query has a statement or there is no prefix |
| `QueryJob.QueryJobHandle.MarkRunning` | src/server.rs:282-299 | field by field: pending becomes running with its start time, with one counted and announced change; any other state is left alone |
| `QueryJob.QueryJobHandle.CompletePayloads` | src/server.rs:315-342 | field by field: an unfinished job gets the given state, payloads and time, keeps its start, loses the abort handle, and one change is counted and announced; a finished job is left alone |
| `QueryJob.QueryJobHandle.Cancel` | src/server.rs:344-387 | field by field: an unfinished job becomes canceled with the given payloads and time, and the registered task is aborted; a finished job is left alone |
| `QueryJob.QueryJobHandle.RegisterAbortHandle` | src/server.rs:408-446 | a job that was canceled before has its task aborted at once, any other keeps the handle |
| `QueryJobSafety.ReachableInv` | src/server.rs:282-469 | along every interleaving of any number of calls the invariant of the handle holds: who made a change, whether it is counted and announced, what each waiter knows, and who still has to abort |
| `QueryJobRuns.FirstTurnsDecide` | src/server.rs:282-387 | in every interleaving, from calls and schedule alone: the job is finished exactly if a call that finishes it has had a turn, and carries the state, payloads and time of the first such turn; it was started exactly if `mark_running` had a turn before that, at the time of its first |
| `QueryJobSafety.FirstTerminalStateIsFinal` | src/server.rs:315-387 | in every interleaving the first terminal snapshot, with its payloads, never changes again |
| `QueryJobSafety.CancelAbortsTheTask` | src/server.rs:344-446 | when cancel and registration have returned and a cancellation won, the task was aborted; a task is aborted only if the job is canceled |
| `QueryJobSafety.AbortedExactlyIfCanceled` | src/server.rs:315-446 | with jobs completed as succeeded or failed only, a settled job's task was aborted if and only if a cancellation won |
| `QueryJobSafety.SnapshotLoopIsBounded` | src/server.rs:389-406 | the revision never exceeds 2, and the retry loop of `snapshot_with_revision` succeeds in its third round at the latest |
| `QueryJobSafety.NoLostWakeup` | src/server.rs:393-469 | a waiter with a revision from `snapshot_with_revision` that waits although the job is finished has been notified, or the call that finished the job is about to notify it |
| `QueryJobSafety.WaiterReturns` | src/server.rs:448-469 | once the end of the job is announced, such a waiter returns after at most eleven turns of its own, however all others are scheduled |
| `QueryJobSafety.FinishedJobReleasesWaiter` | src/server.rs:315-469 | liveness: if the job is finished, three turns of the call that finished it and then eleven of such a waiter let the waiter return, in every schedule |
| `QueryJobStatus.LoadIsEarlyExactly` | src/tools/query_surface.rs:1511-1519 | the loop of `job_status` loads a revision without the end in it exactly if the end has not been counted by then |
| `QueryJobStatus.EarlyWaiterReturns` | src/server.rs:448-469 | in every schedule, a call of `job_status` with such a revision returns after at most three turns of its own once the end is announced |
| `QueryJobStatus.StatusReturnsExactlyIfBehind` | src/tools/query_surface.rs:1511-1519 | in every schedule, when the end is announced and no other change is on its way: the call returns after at most four turns of its own if what it holds does not count everything, and in no continuation otherwise |
| `QueryJobStatus.FinishedJobReleasesStatusExactlyIfBehind` | src/tools/query_surface.rs:1511-1519 | at any point of any schedule from which the job is finished, whatever is still to be counted or announced: if the call will be behind, it returns in every schedule after at most four turns of its own once all is announced; and if and only if not, a schedule leads to its waiting for ever |
| `QueryJobStatus.LateLoadIsNotBehind` | src/tools/query_surface.rs:1517-1518 | a revision that is loaded after everything is announced leads to the second case |
| `QueryJobStatus.StatusOrderLosesAWakeup` | src/tools/query_surface.rs:1511-1519 | contrast: a whole run in which the waiter waits for ever for a finished and announced job |
| `QueryJobStatus.CallRunsAlone` | src/server.rs:282-387 | a call that takes its steps in the machine without others in between has exactly the effect that the contract of its method states |
| `QueryJobStatus.RegistrationRunsAlone` | src/server.rs:408-446 | so has a registration of an abort handle |
| `JobRegistry.JobIdInjective` | src/server.rs:573-579 | two job ids are equal only if they carry the same number, whatever the kinds |
| `JobRegistry.JobIdText` | src/server.rs:573-579 | an id is the mark of its kind and sixteen characters for the number |
| `JobRegistry.RunsAreSteady` | src/server.rs:500-534 | the assumption that the registry makes on what it looks at, that a finished job stays as it is, holds in every interleaving of calls on the job |
| `JobRegistry.QueryJobRegistry.PruneTerminalJobs` | src/server.rs:500-513 | with jobs changing during the scan: whatever was stale when it began is gone, and whatever is gone is stale when it ends |
| `JobRegistry.QueryJobRegistry.EvictOldestTerminalJob` | src/server.rs:515-538 | the job taken out had finished (by its finish time, or its creation if it has none) no later than any job that was finished when the scan began, and none is taken out only if none was |
| `JobRegistry.QueryJobRegistry.MakeRoom` | src/server.rs:569-572 | a capacity eviction happens only from a full table and takes a job of minimal finish time; there is no room only if no job of the full table had finished at the scan |
| `JobRegistry.QueryJobRegistry.CreateInternal` | src/server.rs:559-588 | the table never exceeds its limit, the new id was never issued before, every removed job was finished, an evicted one had finished first, and creation is refused only when a full table showed no finished job |
| `JobRegistry.QueryJobRegistry.Get` | src/server.rs:590-594 | a job is found until it is stale and not any more when it was stale before the call |
| `ExportArtifacts.ExportArtifactRegistry.Register` | src/server.rs:646-664 | the map and the list stay in agreement, the listing becomes that of the longer history, and exactly the files of the replaced and of the dropped records are removed |
| `ExportArtifacts.ExportArtifactRegistry.Evict` | src/server.rs:656-663 | the loop drops the oldest records, with their files, until the limit is kept |
| `ExportArtifacts.ExportArtifactRegistry.List` | src/server.rs:666-676 | the listing is the function `Listed` of the whole history of registrations |
| `ExportArtifacts.ExportArtifactRegistry.GetByUri` | src/server.rs:678-684 | finds the listed record whose handle ends the URI, and nothing if there is none |
| `ExportArtifacts.ListingIsTheMostRecent` | src/server.rs:646-676 | the listing shows the `max_entries` most recently registered distinct handles, each as registered last, newest first; what is missing was registered before everything in a full list |
| `ExportArtifacts.ListedAfter` | src/server.rs:646-664 | what is listed after a registration depends on what was listed before it only: a dropped handle comes back only by being registered again |
| `ExportArtifacts.RegistrationIsConsistent` | src/server.rs:646-664 | if files and listed records agree, they agree after a registration exactly if its path is not that of a listed record |
| `ExportArtifacts.RunIsConsistent` | src/server.rs:646-664 | files and listed records agree at every point of a run exactly if every registration came with a path that no record listed at that time had |
| `ExportArtifacts.NewFilesAreConsistent` | src/tools/query_surface.rs:589-612 | so they agree at every point exactly if every file was created at a path where there was none, as `create_new` demands |
| `ExportArtifacts.HandleOfUri` | src/server.rs:678-680 | a URI that ends with a slash and a handle leads to that handle |
| `PinnedSessions.PinnedSessionRegistry.OpenPinnedSession` | src/server.rs:768-788 | a new session gets a new id and an alarm for the end of its time to live |
| `PinnedSessions.PinnedSessionRegistry.TouchPinnedSession` | src/server.rs:1146-1159 | a touch of a registered session renews its last use and expiry, raises the generation, keeps track of the transaction and the keyword, and schedules an alarm |
| `PinnedSessions.Touch` | src/server.rs:735-753 | field by field: `begin` and `start` open the transaction, `commit` and `rollback` close it, any other keyword leaves it |
| `PinnedSessions.UppercaseIs` | src/server.rs:748-750 | the stored keyword differs from the given one in the case of ASCII letters only |
| `PinnedSessions.PinnedSessionRegistry.ClosePinnedSession` | src/server.rs:798-802 | a registered session leaves the registry and is closed; any other call does nothing |
| `PinnedSessions.PinnedSessionRegistry.ExpireIfGenerationMatches` | src/server.rs:804-821 | with calls as atomic steps: an alarm closes its session exactly if that is registered and unused since the alarm was set, and then it has been idle for its full time to live |
| `PinnedSessionCalls.OpenRunsAlone` | src/server.rs:768-788 | the steps of an open in the machine, without others in between, have the effect that the contract of the method states, the alarm included |
| `PinnedSessionCalls.TouchRunsAlone` | src/server.rs:1146-1159 | so have those of a touch without a keyword |
| `PinnedSessionCalls.CloseRunsAlone` | src/server.rs:798-802 | so have those of a close |
| `PinnedSessionCalls.ExpiryRunsAlone` | src/server.rs:804-821 | so have those of an expiry that is due |
| `PinnedSessionSafety.StepKeepsInv` | src/server.rs:735-821 | every single step of an open, touch, close or expiry keeps the invariant of the registry |
| `PinnedSessionSafety.ReachableInv` | src/server.rs:735-1159 | so every interleaving keeps it |
| `PinnedSessionExpiry.NoSessionLeaks` | src/server.rs:735-1159 | every registered session has an open or touch in progress, or an expiry that is past its checks or of the current generation and due no earlier than the session expires |
| `PinnedSessionExpiry.EverySessionIsClosedOnce` | src/server.rs:790-821 | a session that was opened is registered, or closed, or taken out by exactly one task that has yet to close it |
| `PinnedSessionExpiry.IdleSessionIsClosed` | src/server.rs:804-821 | a session with nothing in progress is closed by six turns of one of its expiries at any time from its due time on |
| `PinnedSessionExpiry.ExpiryClosesOnlyIdleSessions` | src/server.rs:804-821 | an undisturbed expiry closes its session if and only if its generation is current, and then the session was idle for its time to live |
| `PinnedSessionRaces.RaisedTouchIsHonoured` | src/server.rs:804-821 | in every schedule, an expiry that passes its generation check after a touch has raised the generation is due no earlier than a time to live after the use of that touch |
| `PinnedSessionRaces.IdleOrNotRaised` | src/server.rs:804-821 | in every schedule, from an expiry's generation check on: the last use is a time to live before the alarm was due, or was stored by a touch that had not raised the generation at the check |
| `PinnedSessionRaces.TakenOutEarlyExactlyByLateTouch` | src/server.rs:804-821 | in every schedule in which an expiry takes a session out: some touch uses it less than a time to live before that, or later, if and only if one does that had not raised the generation at the generation check |
| `PinnedSessionRaces.CanCloseEarlyExactly` | src/server.rs:804-821 | in any state that keeps the invariant: an expiry that would close its session now can come to close it early if and only if the last use is less than a time to live ago or a touch can still store one that is |
| `PinnedSessionRaces.TouchInTheWindowIsLost` | src/server.rs:815-819 | contrast: a touch that runs between the last check and the removal returns the session, which is then closed before its time |
| `PinnedSessionRaces.TouchBegunBeforeTheChecksIsLost` | src/server.rs:804-821 | contrast: a run in which a touch reads the clock before the checks and stores its use after the removal, with no step in between, and returns the session, which was closed one time unit after that |
| `PinnedSessionRaces.UseBeforeTheChecksIsLost` | src/server.rs:1146-1159 | contrast: a run to a state in which a session is about to be taken out one time unit after its last use, although no touch has yet to raise the generation and none has stored a use since the checks: one stored it before and raised the generation after them |
| `PinnedSessionRaces.WindowIsReachable` | src/server.rs:804-821 | the state between the checks and the removal is reached by a run |
| `CircuitBreaker.CircuitBreaker.CircuitOpenRetryAfterMs` | src/server.rs:1276-1295 | the answer after any history of calls of any tools is the time left until the last trip of the tool's group has cooled down |
| `CircuitBreaker.CircuitBreaker.RecordToolOutcome` | src/server.rs:1297-1333 | the lazily expired states stay indistinguishable from those that the outcomes alone lead to |
| `CircuitBreaker.WhoSharesACircuit` | src/server.rs:1268-1274 | exactly the seven tools that run SQL share one circuit |
| `CircuitBreaker.RetryAfterIsWhatIsLeft` | src/server.rs:1285-1290 | the answer is the number of whole milliseconds until the circuit is no longer open |
| `CircuitBreaker.StateIsOpenAfterTrip` | src/server.rs:1276-1333 | a main result: whatever was asked and recorded before, the stored state is open exactly as the last trip in the history says, and its failure count is below the threshold |
| `CircuitBreaker.OutcomeTripsExactly` | src/server.rs:1321-1331 | an outcome makes the stored state open exactly if it completes, in the history, a row of retryable failures of the threshold's length with no reset, trip or cooled-down trip in between |
| `CircuitBreaker.AskingKeepsTrack` | src/server.rs:1285-1293 | a main result: the reset that a query performs leaves the states such that no later query or outcome can tell them from those that the outcomes alone lead to |
| `CircuitBreaker.StatesIgnoreQuestions` | src/server.rs:1276-1295 | so breakers with histories that differ in queries, or in calls of other groups, hold states that answer alike |
| `CircuitBreaker.AnswersIgnoreQuestions` | src/server.rs:1276-1295 | and the answer that the history demands is the same |
| `CircuitBreaker.BlockedExactlyAfterATrip` | src/server.rs:1285-1290 | a group is blocked at a time if and only if some call tripped it less than a cooldown before |
| `StartupLease.LeaseDatabase.TryAcquireLease` | src/startup_coordination.rs:254-295 | the row is taken exactly if it is free, expired or the caller's own, with the next token |
| `StartupLease.LeaseDatabase.HeartbeatOnce` | src/startup_coordination.rs:552-576 | the lease is extended exactly if owner and token match, whether or not it has expired |
| `StartupLease.LeaseDatabase.Release` | src/startup_coordination.rs:369-384 | the row goes exactly if owner and token match |
| `StartupLease.LatestEventIsTheLast` | src/startup_coordination.rs:386-404 | the latest event of a phase is that of its last entry in the journal |
| `StartupLease.StartupLeaseGuard.AssertFence` | src/startup_coordination.rs:406-440 | holds exactly if no check failed before and the row has the guard's owner and token and an expiry after now; a failure sticks |
| `StartupLease.StartupLeaseGuard.RecordPhaseEvent` | src/startup_coordination.rs:442-487 | the event is appended exactly if the fence holds |
| `StartupLease.StartupLeaseGuard.RunPhase` | src/startup_coordination.rs:319-367 | the work runs exactly if the name is valid, the fence held and the phase not to be skipped; then after a `started` event, followed under a held fence by `completed` or `failed` as the work said; failing work always gives an error; without work nothing but a `skipped` event is written; a failed fence sticks |
| `StartupLease.Acquire` | src/startup_coordination.rs:178-219 | makes at most ceil(timeout / 300 ms) + 1 attempts, all but the last one refused before the deadline, and returns what the last one says |
| `LeaseProtocol.StepKeepsInv` | src/startup_coordination.rs:168-576 | every SQL statement, answer and tick keeps the invariant that ties row, guards and journal together |
| `LeaseProtocol.ReachableInv` | src/startup_coordination.rs:168-576 | so every run of any number of processes keeps it |
| `LeaseSafety.LostGuardIsHarmless` | src/startup_coordination.rs:369-576 | a guard whose row is gone cannot change the row again, and can add only an event whose check had passed before |
| `LeaseSafety.LossIsFinal` | src/startup_coordination.rs:369-576 | in every continuation of every run a lost lease stays lost, and at most one more event of the old guard reaches the journal |
| `LeaseSafety.JournalIsFenced` | src/startup_coordination.rs:406-487 | in every run each process writes at most one event while the row is not its own, all its events carry one token, and a lease is only taken when free or expired |
| `LeaseSafety.EveryEventWasChecked` | src/startup_coordination.rs:406-487 | in every run each event in the journal passed a fence check in some turn, at which the row had its owner and token and had not expired |
| `LeaseSafety.FenceCheckExactly` | src/startup_coordination.rs:406-440 | a fence check makes its event pending exactly if the row is the guard's and unexpired, and otherwise the guard has lost the lease |
| `LeaseSafety.ToldIsFinal` | src/startup_coordination.rs:406-440 | a guard that has been told of the loss makes no event pending in any continuation |
| `LeaseSafety.WakesUpExactly` | src/startup_coordination.rs:519-525 | a heartbeat is sent a full interval after the task went to sleep, and not earlier |
| `LeaseSafety.HeartbeatsExactly` | src/startup_coordination.rs:525-576 | the statement extends the lease exactly if owner and token match; after a failure or a lost answer the task sleeps again |
| `LeaseSafety.RepliesExactly` | src/startup_coordination.rs:525-545 | the answer that the lease is not held ends the task and is remembered |
| `LeaseSafety.EndsExactly` | src/startup_coordination.rs:369-384 | stopping waits for a statement in flight, and the row is released only after that, by a guard that is alive and has nothing to write |
| `LeaseSafety.TokensAreDistinctExactly` | src/startup_coordination.rs:254-384 | the tokens of a run are distinct if and only if at most one acquire found no row; then each is greater than all before it and identifies its holder |
| `LeaseSafety.WithoutDeletionTokensCount` | src/startup_coordination.rs:254-384 | that holds along every run in which no release has deleted the row |
| `LeaseSafety.OnlyReleasesDelete` | src/startup_coordination.rs:369-384 | nothing but an executed release deletes the row |
| `LeaseSafety.TokenAloneIsReused` | src/startup_coordination.rs:254-384 | contrast: after a release the next owner gets the same token |
| `LeaseSafety.PromptHeartbeatsKeepTheLease` | src/startup_coordination.rs:509-576 | if reply time + interval + effect time is below the ttl, then along every such run every fence check passes and no other process can acquire, until the guard gives the lease up |
| `LeaseSafety.PromptIsExactlyWhatKeepsLeases` | src/startup_coordination.rs:509-576 | that condition is exact: with any other latencies there is a timely run in which the lease is lost |
| `LeaseSafety.IntervalMustBeBelowTtl` | src/startup_coordination.rs:129-133 | some latency keeps the lease in every timely run if and only if the interval is below the ttl |
| `LeaseSafety.CompletedPhaseRunsAgain` | src/startup_coordination.rs:319-367 | of any number of runs of a phase that succeeds, exactly those with an even index execute it |
| `OutputNames.DedupeOutputNames` | src/db.rs:86-112 | the loop terminates and gives each column its own name if free, else the alias with the least free number |
| `OutputNames.DedupedNames` | src/db.rs:86-112 | the names are pairwise distinct, uniquely determined, and the given ones exactly if those were distinct |
| `OutputNames.AliasNumberIsSmall` | src/db.rs:100-104 | among n used names one of the first n aliases is free |
| `OutputNames.AliasText` | src/db.rs:100-104 | an alias is the name, `__dup` and the number in decimal |
| `OutputNames.RowToJsonMap` | src/db.rs:2222-2230 | the map holds exactly the column names, each with the parsed cell at its last position, or null if that is missing or NULL |
| `OutputNames.TuplePayload` | src/tools/query_surface.rs:317-333 | the removing reads return, row by row, what removing each name as it is read yields |
| `OutputNames.RowRoundTrip` | src/tools.rs:1015-1026 | with distinct names both readers return the cells in order |
| `OutputNames.RowsSurviveExactlyIfDistinct` | src/tools.rs:1015-1026 | rows come back whatever they hold if and only if the names are distinct |
| `OutputNames.DedupedRowsRoundTrip` | src/tools/query_surface.rs:317-333 | with deduplicated names both readers give, at position `i` of every tuple, the parsed cell `i` of the row, or null if it is missing or NULL, repeated input names included |
| `OutputNames.RenamedColumnsAreReported` | src/tools.rs:1045-1063 | a renamed column is reported exactly if its raw name is non-empty; its raw name is a column, and the last `__dup` splits it into raw name and number |
| `OutputNames.ReportedExactly` | src/tools.rs:1045-1063 | exactly these columns are reported: a renamed one with a non-empty raw name, and one that was not renamed whose raw name splits into a number from 2 on and a non-empty base that is a raw name or an alias given out |
| `OutputNames.BaseIsARawName` | src/tools.rs:1045-1063 | a base that does not look like an alias in turn is a column exactly if it is a raw name |
| `OutputNames.GivenAliasIsReported` | src/tools.rs:1045-1063 | contrast: a column that the query calls like an alias is reported without having been renamed |
| `DelimitedExport.ExportFile.WriteDelimitedRow` | src/tools/query_surface.rs:624-645 | appends the fields, quoted where needed and separated, and a line feed |
| `DelimitedExport.WriteExportArtifact` | src/tools/query_surface.rs:662-680 | the file holds the header and one record per row, with empty fields for missing cells |
| `DelimitedExport.TableRoundTrip` | src/tools/query_surface.rs:624-645 | a reader of section 2 of RFC 4180 gives the printed table back, whatever the fields hold, exactly if every record has a field |
| `DelimitedExport.ExportRoundTrip` | src/tools/query_surface.rs:647-696 | an export reads back as its header and rendered rows if and only if it has a column |
| `DelimitedExport.CellsReachTheFile` | src/tools/query_surface.rs:662-680 | from the driver's columns, repeated names included, to the reader of the file: each field is the rendered cell of its row and column |
| `DelimitedExport.DriverCellsReachTheFile` | src/tools/query_surface.rs:662-680 | the same from the driver's cells: each field is the rendered parsed cell of its row and column, or a rendered null |
| `DelimitedExport.MissingCellIsEmpty` | src/tools/query_surface.rs:614-622 | a cell that the row map does not have is printed as an empty field |
| `NameFilter.EscapeLikePattern` | src/tools.rs:1891-1902 | the escaped term reads, as a pattern, as exactly its own characters |
| `NameFilter.EnsureNoDanglingLikeEscape` | src/tools.rs:1860-1870 | passes exactly the patterns that the matcher can read |
| `NameFilter.ContainsUnescapedWildcard` | src/tools.rs:1872-1889 | says whether the pattern as read holds a wildcard, and fails exactly if it cannot be read |
| `NameFilter.SqlQuoteELiteral` | src/tools.rs:1904-1914 | the literal reads back, as an escape string, as the value |
| `NameFilter.EQuotedReadsBack` | src/tools.rs:1904-1914 | for every value the server reads the printed literal as that value |
| `NameFilter.EscapedTermMeaning` | src/tools.rs:1891-1902 | up to case folding, exact, prefix and contains patterns match exactly the names that equal, begin with or contain the term |
| `NameFilter.ReadableExactly` | src/tools.rs:1860-1870 | a pattern can be read exactly if the number of backslashes at its end is even |
| `NameFilter.CompileRefusal` | src/tools.rs:1930-2002 | the request is refused exactly if two filters are given, or the only one is a pattern that ends in an odd number of backslashes, named in the error; there is no filter exactly if none is given |
| `NameFilter.CompiledFilterMeaning` | src/tools.rs:1923-2002 | the compiled filter, printed, read by the server and matched, accepts a name exactly if the one argument given asks for it |
| `NameFilter.ModeOfFilter` | src/tools.rs:1923-2002 | source and mode of the filter say which argument was given, and for `name_like` whether it holds an unescaped wildcard |
| `NameFilter.CompiledPatternIsReadable` | src/tools.rs:1923-2002 | the matcher never fails on a compiled pattern |
| `Pagination.DecodeOfEncode` | src/tools.rs:1483-1557 | an issued cursor, whenever and for whatever presented: another scope is invalid, another query a mismatch, a late one expired, otherwise the offset comes back |
| `Pagination.PayloadIsInjective` | src/tools.rs:1483-1497 | the signed text determines scope, query hash, offset and expiry |
| `Pagination.AcceptedCursorIsWhatWasIssued` | src/tools.rs:1499-1557 | whatever text bears a signature that was issued, one whose digest has no collision, is accepted only with the scope, query, offset and expiry it was issued for |
| `Pagination.DecodeOfFields` | src/tools.rs:1499-1557 | any text made of a cursor's fields is invalid exactly unless scope, hash length, numbers and signature are right, and then a mismatch, expired or accepted as query and time say |
| `Pagination.OtherVersionIsInvalid` | src/tools.rs:1499-1515 | a text that begins with another version mark is invalid |
| `Pagination.RunReadQuery` | src/tools/query_surface.rs:749-847 | with paging: refused exactly if the cursor does not decode, and with its error; otherwise at most the requested number of rows, at least 1, or the default, from the cursor's offset on, clipped, and a next cursor exactly if rows remain; without paging a cursor is refused, and without one all rows come back |
| `Pagination.IssuedCursorExactly` | src/tools/query_surface.rs:775-800 | an issued cursor of another scope, of another query or past its expiry is refused, each with its own error, and any other gives the page at its offset |
| `Pagination.CursorWalkIsAPartition` | src/tools/query_surface.rs:749-847 | with any page sizes the pages concatenate to the result, in order, and the walk ends exactly when the sizes add up to it |
| `Advisor.NormalizeColumns` | src/advisor_extension.rs:612-635 | between 1 and 16 valid columns give a non-empty list without repetitions up to ASCII case, anything else is refused |
| `Advisor.NormalizeExternalRecommendation` | src/advisor_extension.rs:588-673 | returns `Normal` of the recommendation, or refuses it; what `Normal` returns is characterised by the next two rows |
| `AdvisorEcho.AcceptedExactly` | src/advisor_extension.rs:588-673 | a recommendation is accepted exactly if table, columns, method and reason are each within their limits and made of the characters allowed there |
| `AdvisorEcho.NormalFields` | src/advisor_extension.rs:638-666 | method and reason come out trimmed, the method in lower case, or as the defaults where missing or blank |
| `AdvisorEcho.CleanColumnSplits` | src/advisor_extension.rs:619 | a column loses the white space around it and then the double quotes at either end, and nothing else |
| `AdvisorEcho.NormalIsNormal` | src/advisor_extension.rs:588-673 | what is accepted has a table of trimmed parts, 1 to 16 columns that are distinct up to ASCII case, a lower-case method and a trimmed reason, all within their limits |
| `AdvisorEcho.FixedPointsAreNormal` | src/advisor_extension.rs:588-673 | normalization gives a recommendation back as it went in if and only if it is such a one and no column begins or ends with whitespace |
| `Advisor.TakeRecommendations` | src/advisor_extension.rs:417-450 | the list and the index stay in agreement, the new list is the old one with the batch collected into it, and it is refused exactly if a recommendation is or the limit is passed |
| `Advisor.RunExternalAdvisorLoop` | src/advisor_extension.rs:336-506 | on success every attempt was asked with what the earlier ones had collected, none but the last gave a reason to stop, and the result is what all of them collected; on failure the attempt and its fault are named; the final error needs `max_attempts` to be 0 |
| `AdvisorResults.FirstSeenIsFirstOccurrences` | src/advisor_extension.rs:417-450 | the reference: every item once, in the order of first occurrence |
| `AdvisorResults.KeptColumns` | src/advisor_extension.rs:618-632 | up to ASCII case the kept columns are the distinct ones in first-seen order |
| `AdvisorResults.CollectedKeys` | src/advisor_extension.rs:417-450 | the collected keys are the distinct keys of everything recommended, in first-seen order |
| `AdvisorResults.CollectedReasons` | src/advisor_extension.rs:424-428 | the reason of an entry is made of the reasons given for its key, merged in order, and of no other |
| `AdvisorResults.CollectedResult` | src/advisor_extension.rs:336-506 | at every point of a run: first-seen distinct keys, merged reasons of at most 1024 bytes, at most 1024 recommendations and 512 errors |
| `AdvisorResults.StopsExactly` | src/advisor_extension.rs:452-499 | an attempt ends the loop with its stated reason, or as converged exactly if it brought no key that an earlier one had not, or as the last one allowed |
| `AdvisorResults.FaultExactly` | src/advisor_extension.rs:378-470 | an answer is at fault exactly if the call failed, it is no JSON, a recommendation is refused, or a limit is passed; with the reason |
| `AdvisorResults.KeysAgree` | src/advisor_extension.rs:299-312 | two recommendations have the same key exactly if table, columns and method agree |
| `Advisor.ByteLenIs` | src/advisor_extension.rs:547 | lengths are counted in UTF-8 bytes |
| `AdvisorResults.PreviousKeysGrow` | src/advisor_extension.rs:363-376 | what an attempt is shown is a prefix of what the next one is shown, and equal to it exactly if the attempt brought no new key |
| `AdvisorEcho.EchoIsRecognized` | src/advisor_extension.rs:363-376 | a collected recommendation that comes back as it was sent, whatever reasons were merged into it, is accepted under the same key if and only if none of its columns begins or ends with whitespace |
| `AdvisorEcho.NormalTableIsStable` | src/advisor_extension.rs:591-610 | a normalized table name is accepted again as it is |
| `AdvisorEcho.CleanColumnIsStable` | src/advisor_extension.rs:619 | cleaning a cleaned column changes it exactly if it begins or ends with whitespace |
| `ReasonMerging.ReasonPartsOfJoin` | src/advisor_extension.rs:539-543 | splitting a merged reason gives back the plain reasons it was merged from |
| `ReasonMerging.PartsAfterMerge` | src/advisor_extension.rs:539-546 | for all texts: appending adds the parts of the appended text, or, behind an open end, turns its bar into a separator |
| `ReasonMerging.MergingAgain` | src/advisor_extension.rs:534-551 | for every current and incoming text that was appended: merging it again changes nothing if and only if it is found again (no separator in it, or behind an open end equal to the stem) or does not fit; otherwise it is appended again |
| `ReasonMerging.TextWithBarIsAppended` | src/advisor_extension.rs:534-551 | a text with a separator is never recognized, whatever the current text is |
| `ReasonMerging.MentionedStays` | src/advisor_extension.rs:534-551 | a listed reason that does not end in a bar is recognized after any further merges |
| `ReasonMerging.OpenReasonHidesTheNext` | src/advisor_extension.rs:534-551 | contrast: after a plain reason with ` |` at its end, every other plain reason that fits twice is appended a second time when it comes again |
| `ReasonMerging.MergeOfPlain` | src/advisor_extension.rs:534-551 | for lists of plain reasons: merging appends the incoming ones unless they do not fit, are the whole text, or are one reason that is in the list already |
| `Text.WhitespaceIs` | src/db.rs:2023 | `trim` removes the Unicode white space code points |
| `Text.LowercaseIs` | src/advisor_extension.rs:621 | lower case changes ASCII letters only |
| `Text.SignOfNumber` | src/tools.rs:1517-1526 | a number may have a plus sign in front and no other |

## Left out

- The network, TLS, connection strings, `tokio-postgres`, process spawning, files and environment variables, telemetry and the MCP plumbing; the database is a lease row and a journal, the disk a set of paths.
- The SQL policy classifier, the capability guard and the task engine come from crates that are not part of this model.
- SHA-256 and the signature are a function parameter, of which only the printed form (64 lower-case hexadecimal digits) is used; that a digest does not collide is a premise of `Pagination.AcceptedCursorIsWhatWasIssued` only.
- JSON texts: an advisor answer is modelled after parsing, and what `to_json` sends is represented by the recommendations it is made from.
- Lock poisoning and the wrap-around of 64-bit counters; one clock that does not go back is assumed in each component.
- Lengths in bytes are modelled where a limit is in bytes (`Advisor.ByteLen`); phase names, cursor hashes and signatures consist of ASCII characters where their length is compared, so characters are counted.
- `canonicalize_sql` and the text of the paging query: `LIMIT` and `OFFSET` are applied to the result rows directly, which is right for inner queries that do not end in a line comment.
- The hash of a request is a parameter; which settings enter it is not modelled.
- `list_tasks`, listings of resources and the other read-only accessors add no property.
- `enqueue_task` and the tools that run jobs: the model has the calls on a handle and at most one registration of an abort handle, which `enqueue_task` never makes.
- Regular-expression helpers, health SQL, configuration parsing and error tables.
- QueryJobSafety.WaiterReturns: the model has waits without a timeout; a wait with one ends in any case.
- StartupLease.Acquire: the attempts are a function of their number; that an attempt is the upsert on the row is in `LeaseProtocol.Step`.
- LeaseProtocol.Step: a statement that fails is modelled as one whose answer is lost, before or after it took effect; the messages of errors are not modelled.
- NameFilter.ReadEscapeString: octal, hexadecimal and Unicode escapes are refused, since the printer never writes them.
- NameFilter.CompiledFilterMeaning: case folding is any function that maps single characters and leaves `%`, `_` and the backslash alone; locale-dependent folding of several characters is not modelled.
- Advisor.RunExternalAdvisorLoop: the clipping of error items is a function parameter, and the failure to encode a request cannot happen.
- OutputNames.ReportedExactly: whether a base that looks like an alias was given out depends on all names before it and is said through the columns, which the names determine (`OutputNames.DedupedNames`).
- PinnedSessions.Step: the transaction flag and the last keyword are not part of the machine; `PinnedSessions.PinnedSessionRegistry.TouchPinnedSession` has them. Clocks count milliseconds, so a timer is due a full time to live after it was set.
- JobRegistry.QueryJobRegistry.CreateInternal: the number of jobs ever created stays below 2 to the power of 64.
- ExportArtifacts.Disk.RemoveFile: a removal that fails is not modelled.
- ExportArtifacts.NewFilesAreConsistent: the creation of a file and its registration are one step, and the limit of 32 attempts at a new path is not modelled.
