# Dira's time, store and identity core, in Dafny

Dira turns an interleaved log of human and agent events into billable time, compacts and syncs that log,
groups sessions into runs, prices models, keeps timestamps as text and rotates its device key. This project
models those parts and proves what they keep. `dafny verify dfyconfig.toml` checks it.

Times are integer nanoseconds; every counted gap is truncated to whole seconds on its own, as the source
does. Tables are sequences in rowid order and maps by primary key; a transaction is one step. An object the
source updates in place is a class whose methods are proved equal to a function of the old state, and what
the source promises is proved of that function, over every run where runs matter.

| Files | Part of the system |
|---|---|
| `Timeline`, `Ties`, `MapSums`, `Accounting`, `AgentTime`, `Cells`, `Report`, `ReportLines`, `StoreReport` | the gap model, attribution to keys, agent time, per-project reports |
| `Windows`, `Windowings`, `SyncSeed` | building billable intervals flush by flush |
| `Events`, `TokenTable`, `EventStore`, `Compaction*`, `RollupRows`, `RollupRuns` | the event log, its daily rollup, tokens, and every run of them |
| `Feed`, `Knowledge`, `KnowledgeRows` | decision and spec records behind a change feed |
| `Transcript`, `TranscriptTokens` | incremental token capture |
| `Runs`, `RunPartition`, `RunChains`, `RunOrder` | grouping sessions into orchestration runs |
| `Lineage`, `Paths`, `Shell`, `BashEvidence`, `BashScripts` | session lineage and what a shell command says about its directory |
| `Pricing`, `ModelSpellings`, `Pruning` | the price cascade and when a table key is redundant |
| `Calendar`, `Decimal`, `TextOrder`, `StoredAt`, `Rfc3339`, `TimeColumns` | canonical timestamps, section 5.6 of RFC 3339 |
| `Identity`, `Rotation`, `RotationTimes` | the device key and its two-phase rotation |

Where the code and its own words disagree, the code is modelled and the difference is a theorem:

- Compaction is called lossless for reporting, human and agent time alike (cli/core/migrations/0001_init.sql:105-114,
  cli/core/src/report.rs:153-159). Human column: `PassChangesTimeBy` gives the exact signed change for any log,
  `OnlyMidnightGapsAreLost` the days on which it is a loss of midnight gaps only, `CompactionCanAddTime` a log of
  two sessions whose human time grows. Agent column: the row rule drops what the live rule clamps;
  `PassChangesAgentTimeBy` gives the exact change for any log, `WholeSecondPassOnlyLowers` when it is never a rise
  and when it is nothing, `ToolCallsAreLost` a tool call of 7200 seconds that becomes 0, and
  `CompactionCanAddAgentTime` and `FractionsCanAddAgentTime` days whose agent time grows.
- A day is said never to be part rollup and part raw (cli/core/src/store.rs:1096-1101). `DaysStayApartIff`:
  exactly as long as no billable event is appended for a day already compacted.
- Intervals are said to be identical under every windowing (cli/core/src/sync/batch.rs:490-492, 566-573).
  None is ever missing (`EveryGapIsEmitted`); none is stale exactly when no flush cuts or reopens a gap already
  emitted (`AnyWindowingIff`).
- The agent total is called order-independent (the test at cli/core/src/accounting.rs:471), and a `PreTool` is
  said to open its span whatever it collides with (cli/core/src/accounting.rs:165-166). A tool call listed before
  another event at its time does not; `AgentOrderFreeIff` says when order matters. Attribution to a key has the
  same gap (`SharesOrderFreeIff`).
- A retried rotation is said to rebuild the same key and time (cli/core/src/identity.rs:160-182). After two
  crashes a new key can stand under an old time; `NeverTornIff`: exactly when a rotation is begun while an earlier
  one's time is still stored.
- Whichever channel sees a new cloud epoch is said to reset both as one coherent resync
  (cli/dirad/src/sync.rs:1371-1378). A reset between a knowledge window's read and its acceptance is undone by the
  acceptance (`AResetInFlightSkips`); `CursorNeverPassesIff`: that is the only way the cursor passes what was not sent.
- The sessions added to a merged report are said to be those of the rollups folded in (cli/core/src/report.rs:161-164).
  A report of one project adds those of every row; `ProjectCountIff` says when the two agree.
- Grouping shows each session once only when its parent links settle (`ExactlyOnceIff`); a chain deeper than
  eight shows one session twice (`DeepChainsAreShownTwice`).
- The command splitter knows no backslash, so an escaped quote turns it around; `QuotedStaysWholeIff` says which
  quoted words it cuts.
- A pruned price key is said never to be reached (cli/core/src/bin/pricing_sync.rs:190-194). For a key with
  both a date and `-latest` it can be (`PruneIff` and `SweepIff` give the exact condition).
- Incremental capture equals one pass for Claude transcripts; for grok exactly when no repeated base id
  stores a new row (`CaptureKeepsUpIff`).

## Model

| member | source | states |
|---|---|---|
| Accounting.CountedGaps | cli/core/src/accounting.rs:50-71 | the loop over sorted signals computes the counted gaps that the lemmas below describe |
| Accounting.CountedGapsAreAdjacentPairs | cli/core/src/accounting.rs:45-71 | for signals in any order, a counted gap exists for (a, b) if and only if a and b are neighbouring signal times at most idle apart |
| Accounting.GapsAreDisjoint | cli/core/src/accounting.rs:50-71 | counted gaps are ordered, pairwise disjoint, each within (0, idle] and inside the signal span |
| Accounting.HumanTotalWithinSpan | cli/core/src/accounting.rs:74-79 | no wall-clock second is counted twice: the human total never exceeds the span of the signals |
| Accounting.HumanTotalIgnoresOrder | cli/core/src/accounting.rs:74-79 | any permutation of the signals, ties included, gives the same human total |
| Accounting.AddingATimeLowersActive | cli/core/src/accounting.rs:81-102 | one more timestamp lowers the active time if and only if it cuts a counted gap where both pieces lose part of one whole second |
| Accounting.WholeSecondTimesOnlyAddActive | cli/core/src/accounting.rs:81-102 | with whole-second timestamps it never lowers it |
| Accounting.AFractionalTimeCanEraseASecond | cli/core/src/accounting.rs:81-102 | a half-second sample erases a counted second |
| Accounting.PerKeySeconds | cli/core/src/accounting.rs:226-247 | the attribution loop computes the per-key breakdown of the counted gaps |
| Accounting.PerKeySumsToTotal | cli/core/src/accounting.rs:215-247 | over any key the breakdown adds up to the one de-duplicated total |
| Accounting.PerKeyIsOwnGaps | cli/core/src/accounting.rs:215-247 | a key gets exactly the gaps its signals open, and is listed if and only if it opens one |
| Accounting.SharesOrderFreeIff | cli/core/src/accounting.rs:226-247 | every order of the signals gives every key the same time, if and only if no two keys tie ahead of a counted gap of at least a whole second |
| Accounting.PerKeyIgnoresOrder | cli/core/src/accounting.rs:226-247 | with distinct times the breakdowns are equal entry for entry, zero entries included |
| Accounting.PerKeyDependsOnTies | cli/core/src/accounting.rs:226-247 | such a tie: the same minute goes to one project or to the other |
| AgentTime.ConfiguredPolicy | cli/core/src/config.rs:486-490 | the configured ceilings satisfy max_span >= idle whatever the settings |
| AgentTime.LiveTailSettles | cli/core/src/accounting.rs:160-203 | settling a sample no earlier than all others raises the agent total by exactly the live timer's figure for that gap |
| AgentTime.AgentActiveIsBounded | cli/core/src/accounting.rs:141-184 | agent time lies between the idle-trimmed time and both the wall-clock span and the sum of ceilings |
| AgentTime.AgentOrderFreeIff | cli/core/src/accounting.rs:160-184 | every order of the samples gives the same total, if and only if no tool call ties with another sample ahead of a gap that the two ceilings credit differently |
| AgentTime.AgentActiveDependsOnTies | cli/core/src/accounting.rs:160-184 | such a tie: an hour is credited as 3600 or as 300 seconds |
| Report.Build | cli/core/src/report.rs:42-148 | one line per key in key order; the human total is the de-duplicated total over all sessions, the agent total the free sum over sessions, both the sums of the lines |
| Report.LinesSumToMaps | cli/core/src/report.rs:123-148 | collecting lines from the two tables loses no line and doubles none |
| Report.HumanMapSumsToTotal | cli/core/src/report.rs:65-73 | human lines, orchestration split included, add up to the de-duplicated total |
| Report.SplitNeverChangesAProject | cli/core/src/report.rs:54-73 | a named project's time is all on its own line and equals its plain attribution; repo-less time is that of its two lines together |
| Report.BuildMerged | cli/core/src/report.rs:165-203 | totals are the live totals plus the rollup lines, still the sums of the lines |
| Report.RollupsAddUp | cli/core/src/report.rs:165-203 | folding rollup lines in raises a column's total by exactly what they hold |
| Report.RollupsLandOnTheirProject | cli/core/src/report.rs:165-203 | a project's line gains exactly its own rollup lines, a line is listed if it was or has one, and the orchestration line is untouched |
| ReportLines.OrchestrationLine | cli/core/src/report.rs:43-73 | the orchestration line holds exactly the counted gaps opened by a signal with no project in a session whose events coordinate, and is listed if and only if there is one |
| ReportLines.UnresolvedLine | cli/core/src/report.rs:58-73 | the unresolved line holds exactly the other repo-less gaps |
| ReportLines.ProjectLine | cli/core/src/report.rs:58-73 | a project's line holds exactly the gaps its signals open, in whichever session |
| ReportLines.AgentLine | cli/core/src/report.rs:90-121 | an agent line holds the credits of exactly the sessions on it: the orchestration line for those that coordinate, else that of the first project their events name |
| ReportLines.RepolessLinesComeFirst | cli/core/src/report.rs:123-138 | unresolved time first, then orchestration, then the projects in the order of their names, each line once |
| ReportLines.OneProjectsLines | cli/dirad/src/control.rs:707-748 | events of one project make no human line but its own, and agent time only there or on the orchestration line |
| Windows.BuildIntervalsSeeded | cli/core/src/sync/batch.rs:512-609 | the interval loop emits the counted gaps of seed and window that touch the window |
| Windows.SeedIsEnough | cli/core/src/store.rs:505-540 | signals outside the band one idle around the window never bound an emitted interval, so the band gives what the whole synced log would |
| Windows.EmittedIsTouched | cli/core/src/sync/batch.rs:500-573 | an interval is emitted if and only if it is a counted gap of the whole log opened by a window signal or ended where no synced signal stands |
| Windowings.EveryGapIsEmitted | cli/core/src/sync/batch.rs:500-573 | however a log is cut into flushes, back-dated signals included, every counted gap of it is emitted by some flush, under its own key |
| Windowings.AnyWindowingIff | cli/core/src/sync/batch.rs:490-573 | the flushes emit exactly the intervals of one flush, openers included, if and only if none brings a signal inside a counted gap of the log before it or takes over its start under another key |
| Windowings.AnyWindowingSpansIff | cli/core/src/sync/batch.rs:490-573 | by start and end alone: if and only if none brings a signal strictly inside such a gap |
| Windows.WindowingInvariant | cli/core/src/sync/batch.rs:566-573 | for an in-order log the flushes' intervals are the one-shot list itself, in order and each once |
| SyncSeed.FlushIsGlobal | cli/core/src/store.rs:505-540 | a flush over an id window, seeded from the store by time, emits exactly the global counted gaps it owes, back-dated signals included |
| SyncSeed.Flush | cli/dirad/src/sync.rs:857-876 | the flush, the first one without a cursor included, computes its band from its own signals and emits exactly what it owes |
| SyncSeed.FlushNamesOpeners | cli/core/src/sync/batch.rs:512-609 | every interval of a flush names the project and session of a synced human signal that stands at its start |
| SyncSeed.WindowsPartition | cli/core/src/store.rs:408-445 | as the cursor moves on, every real event it has reached was in exactly one flush's window, and no other was |
| EventStore.Store.Append | cli/core/src/store.rs:315-345 | appends one event, or refuses a repeated id and changes nothing |
| EventStore.Store.UpsertTokenUsage | cli/core/src/store.rs:809-836 | inserts a token row or ignores a repeated id |
| EventStore.GroupByDay | cli/core/src/store.rs:1158-1195 | one accumulator per UTC day and session, holding that key's own events in time order |
| EventStore.WriteGroups | cli/core/src/store.rs:1197-1241 | every group that did something is upserted once: time and prompts added, tokens kept by maximum; the rest is untouched |
| EventStore.Store.Compact | cli/core/src/store.rs:1110-1253 | one pass: the aligned bound, the rollup of the synced and old, their deletion and the count returned; with no cursor nothing changes |
| EventStore.Store.BackfillRollupTokens | cli/core/src/store.rs:140-202 | once, rows without tokens get their day's sums; other rows and later calls change nothing |
| EventStore.Store.Nuke | cli/core/src/store.rs:730-807 | wipes log, rollup and tokens and reports the counts |
| EventStore.Store.SessionTokens | cli/core/src/store.rs:2215-2256 | a session's token total: rollup copies only for days without token rows, plus the rows |
| CompactionDays.BoundIsAligned | cli/core/src/store.rs:1119-1137 | the bound is a midnight, the cutoff's or that of a held-back event's day, and no held-back event lies before it |
| CompactionDays.SurvivesIff | cli/core/src/store.rs:1082-1137 | after a pass a billable event is in the log if and only if it is at or past the bound, and no unsynced event is ever removed |
| CompactionDays.OnlySyncedLeave | cli/core/src/store.rs:1110-1118 | whatever the cursor, an event that a pass takes from the log is at or behind a cursor there is, and before the cutoff's day |
| CompactionDays.NoDayIsSplit | cli/core/src/store.rs:1096-1101 | of one UTC day every billable event goes or every one stays |
| CompactionDays.SurvivorsAreOld | cli/core/src/store.rs:1243-1249 | a pass invents no event |
| CompactionDays.SecondPassDoesNothing | cli/core/src/store.rs:1082-1089 | the same call again changes nothing |
| CompactionDays.ProbeRowsGoAlong | cli/core/src/store.rs:1144-1249 | a probe row is deleted if and only if it is swept and some real event is swept with it |
| CompactionDays.ProbeIff | cli/core/src/model.rs:99-115 | the reserved sessions are those named `dira-probe-` and anything, in letters of either case |
| CompactionRuns.EventsStayUntilSynced | cli/core/src/store.rs:1110-1118 | over any run an event in the log stays there until a nuke, or a pass whose cursor is at or past its id |
| CompactionRuns.PassMovesPrompts | cli/core/src/store.rs:1167-1241 | a pass moves exactly the batch's human signals into the rollup, though all-lifecycle groups write no row |
| CompactionRuns.PromptsAreConserved | cli/core/src/store.rs:1082-1253 | in every reachable state rollup prompts plus prompts in the log are the prompts ever appended |
| CompactionRuns.WrittenRowsAreExact | cli/core/src/store.rs:1216-1240 | right after a pass each row it wrote carries exactly its day's token sums |
| CompactionRuns.TokensStayCopies | cli/core/src/store.rs:1103-1106 | in every reachable state no rollup row claims more tokens than its day's rows hold |
| CompactionRuns.TokensAreCountedOnce | cli/core/src/store.rs:2215-2256 | in every reachable state the reported tokens of a session are the sums over its token rows |
| CompactionRuns.RowCountsIff | cli/core/src/store.rs:2215-2256 | in any store, one more rollup row adds its tokens to its own session's total if and only if no token row of the session falls on its day |
| CompactionRuns.UpkeepKeepsReported | cli/core/src/store.rs:1103-1106 | in any store, rows of older versions included, neither a pass nor the backfill changes any session's reported tokens |
| CompactionRuns.BackfillFills | cli/core/src/store.rs:140-202 | right after the first backfill a row that carried no tokens holds its day's sums, and any other row what it held |
| RollupRows.RowIsIsolated | cli/core/src/store.rs:1158-1215 | a row is the accounting of its day and session on their own |
| RollupRows.RowProject | cli/core/src/store.rs:1174-1185 | a row's known project is never overwritten; a fresh row takes the first its group knows in time order |
| RollupRows.TokenDayIsEventDay | cli/core/src/store.rs:114-138 | the text day of a canonical token row is the UTC day its instant falls on |
| RollupRows.CompactKeepsDaysApart | cli/core/src/store.rs:1096-1101 | a pass never leaves a day with both a rollup row and a billable raw event |
| RollupRuns.DaysStayApartIff | cli/core/src/store.rs:1096-1101 | over a whole run no day is part rollup and part raw if and only if no billable event came for a day already compacted |
| RollupRuns.RowsAccountTheirDays | cli/core/src/store.rs:1091-1094 | without late events every row holds the time and prompts of everything ever captured for its session's day, and a day without a row is whole in the log |
| Cells.CellTime | cli/core/src/store.rs:1210-1211 | accounting each day on its own gives exactly the counted gaps inside that day |
| StoreReport.RollupTotals | cli/core/src/store.rs:1277-1311 | from a day on: one line for each project that has a row, each the sum of its rows, no row lost |
| StoreReport.FullReport | cli/dirad/src/control.rs:707-748 | from a lower bound on, the merged report shows live human and agent time plus the rollup rows', and the sessions of both |
| StoreReport.ProjectReport | cli/dirad/src/control.rs:707-748 | a report of one project shows the time of its own events and rows only, and counts the sessions of all rows once it has one |
| StoreReport.EventsSinceIff | cli/core/src/store.rs:383-420 | a report reads, in time order, every event of a real session from its bound on, and no other |
| StoreReport.ProjectEventsIff | cli/dirad/src/control.rs:715-717 | a project's report reads exactly its own events of real sessions |
| StoreReport.RowsSinceIff | cli/core/src/store.rs:1277-1311 | of the compacted days it reads those from the bound's day on, in the order of the calendar |
| StoreReport.ProjectCountIff | cli/dirad/src/control.rs:734-739 | that count is the project's own if and only if every session with a row has one of the project |
| CompactionTime.PassChangesTimeBy | cli/core/src/store.rs:1158-1249 | for any log, what a pass takes from the reported human time is the counted gaps that leave a compacted day, plus for each compacted day its de-duplicated time less that of each of its sessions on its own |
| CompactionTime.OnlyMidnightGapsAreLost | cli/core/src/store.rs:1158-1249 | where each compacted day had one signalling session it takes exactly those gaps, and nothing if and only if none is worth a whole second |
| CompactionExample.CompactionCanAddTime | cli/core/src/store.rs:1197-1241 | on any day, two interleaved sessions go from 300 reported human seconds to 400 |
| CompactionAgent.AgentTotalIsCredits | cli/core/src/report.rs:75-121 | the agent total over a log read in time order is what each session with agent activity earns on its own |
| CompactionAgent.PassChangesAgentTimeBy | cli/core/src/store.rs:1158-1249 | for any log, what a pass takes from the reported agent time is, session by session, the credit of the gaps opened before the bound (and of the rest when no agent activity remains), less the active time its rows gain |
| CompactionAgent.WholeSecondPassOnlyLowers | cli/core/src/store.rs:1197-1241 | with whole-second times and an agent idle no narrower than the human one, a pass never raises reported agent time, and leaves it alone if and only if each session's rows gain all it loses |
| CompactionAgentExample.PassOverDay | cli/core/src/store.rs:1197-1241 | one session's day goes from its live credit to the active time of its agent activity alone |
| CompactionAgentExample.ToolCallsAreLost | cli/core/src/store.rs:1210-1211 | a tool call of two hours goes from 7200 reported seconds to 0 |
| CompactionAgentExample.CompactionCanAddAgentTime | cli/core/src/store.rs:1210-1211 | with an agent idle of one minute and a human one of ten, 60 reported seconds become 500 |
| CompactionAgentExample.FractionsCanAddAgentTime | cli/core/src/store.rs:1210-1211 | with fractional times and equal idles, 0 reported seconds become 1 |
| Feed.FindMax | cli/core/src/store.rs:1353-1376 | the next sequence number is one past the largest in the table |
| Feed.ReadSince | cli/core/src/store.rs:1699-1727 | a window is the oldest records past the cursor, in order, as many as the limit allows |
| Feed.PendingIsOrdered | cli/core/src/store.rs:1694-1722 | what is past the cursor is listed in strictly increasing order, each record once |
| Feed.WriteKeepsFeed | cli/core/src/store.rs:1343-1410 | a write keeps sequence numbers distinct and puts the record past every cursor |
| Feed.ReadKeepsFeed | cli/core/src/store.rs:1694-1722 | a window accepted at once is new and in order, and nothing behind the new cursor is left out |
| Feed.AcceptKeepsFeedIff | cli/dirad/src/knowledge_sync.rs:520-552 | a window accepted after any writes passes nothing that was not handed over, unless the cursor was reset in between and something lies before the window |
| Feed.ReadsDrain | cli/core/src/store.rs:1694-1722 | with writers stopped, repeated reads hand over the backlog in order and drain it |
| Feed.ZeroLimitStalls | cli/core/src/store.rs:1694-1722 | a zero limit never moves |
| Knowledge.Store.UpsertDecision | cli/core/src/store.rs:1343-1410 | replaces the record under the next number, keeping its first sight and replacing its globs |
| Knowledge.Store.UpsertSpec | cli/core/src/store.rs:2452-2582 | the same for specs, with the first real commit filling an empty first sight from the artifacts |
| Knowledge.Store.RepairProvenance | cli/core/src/store.rs:1597-1634 | rewrites first sight from the artifacts under the next number, or reports that there is no record |
| Knowledge.Store.ReadWindow | cli/core/src/store.rs:1696-1773 | returns one window with its rows |
| Knowledge.Store.AcceptWindow | cli/dirad/src/knowledge_sync.rs:541-548 | once the cloud took a window, its last number is the cursor |
| Knowledge.Store.ResetCursors | cli/dirad/src/sync.rs:1402-1423 | a new cloud epoch starts the cursors over |
| Knowledge.FeedIsComplete | cli/core/src/store.rs:1694-1773 | under any interleaving of captures, repairs, reads, acceptances and resets that skips nothing, numbers stay distinct, no version is delivered twice, and every undelivered latest version lies past the cursor |
| Knowledge.CursorNeverPassesIff | cli/dirad/src/knowledge_sync.rs:239-552 | over a whole run, writes between a read and its acceptance included, the cursor never passes an undelivered latest version, if and only if no window read before a reset is accepted after it with a record left before it |
| Knowledge.AResetInFlightSkips | cli/dirad/src/sync.rs:1371-1423 | such a run exists after any run with one record handed over and another pending |
| Knowledge.FeedDrains | cli/core/src/store.rs:1694-1722 | from any state reached without a skip enough reads deliver every record that is owed |
| Knowledge.ProvenanceIsOneSighting | cli/core/src/store.rs:2495-2515 | a record's commit, date and session always come from one operation |
| Knowledge.FirstSightStays | cli/core/src/store.rs:1337-1342 | later captures never change a first sight that names a commit; only a repair does |
| Knowledge.StampFollowsState | cli/core/src/store.rs:2492-2527 | over any run a spec's state and its stamp are those of the last operation that changed the state |
| Knowledge.CommitStays | cli/core/src/store.rs:2492-2527 | a recorded commit is never blanked |
| KnowledgeRows.RowsFollowCaptures | cli/core/src/store.rs:1366-1407 | in every reachable state a decision's or spec's text, globs, links, update time and (for a decision) last commit are those of the last capture of that record; a repair changes none of them |
| KnowledgeRows.RecordedIff | cli/core/src/store.rs:1343-1410 | a record is there if and only if it was once captured; a nuke keeps it |
| KnowledgeRows.LastCommitIff | cli/core/src/store.rs:2490-2494 | a spec's last commit is that of its last capture that named one, or none if none did |
| KnowledgeRows.FirstSightIff | cli/core/src/store.rs:2495-2515 | a spec's first sight names a commit if and only if a capture or a repair named one and no repair blanked it since |
| KnowledgeRows.FirstSightIsLastSet | cli/core/src/store.rs:2495-2515 | a record's first sight is that of the last operation that brought it in, filled it or repaired it |
| KnowledgeRows.SessionIsFirstRecorder | cli/core/src/store.rs:879-900 | the session a commit is attributed to is that of its first recording since the last wipe |
| Transcript.Parse | cli/core/src/tokens.rs:115-176 | the parse keeps the rows of the first record of each base id |
| Transcript.FirstOccurrenceWins | cli/core/src/tokens.rs:115-176 | a row is returned if and only if it belongs to the first record of its base |
| Transcript.CapturePass | cli/core/src/store.rs:809-836 | a pass inserts or ignores each parsed row and touches no other table |
| Transcript.ClaudeCaptureIsOnePass | cli/core/src/tokens.rs:112-176 | overlapping line-boundary passes from the top without a hole leave the rows of one parse, whatever the table held before |
| Transcript.CaptureKeepsUpIff | cli/core/src/tokens.rs:273-384 | capture in passes agrees with one parse of every prefix if and only if no record under a base seen before stores a new id |
| Transcript.GrokCanFallBehind | cli/core/src/tokens.rs:323-367 | two grok turns under one event id naming different models break it |
| TranscriptTokens.TurnsAreCountedOnce | cli/core/src/tokens.rs:112-176 | under any overlapping passes without a hole, a day's sum in each token column is that of the billed turns new to the file on that day, absent figures zero |
| TranscriptTokens.GrokRecordHolds | cli/core/src/tokens.rs:288-384 | a grok turn is stored if it reports usage and has a key, and its rows hold what its models report, cache reads not counted as input |
| TranscriptTokens.GrokBasesDiffer | cli/core/src/tokens.rs:283-327 | turns without an event id share a key if and only if prompt and second agree |
| Runs.FindRoot | cli/core/src/runs.rs:69-87 | the ancestor walk with its cycle check and depth cut |
| Runs.BuildRun | cli/core/src/runs.rs:130-149 | a run's repos are those any session touches, the project of one that coordinates nobody included; its direct repos those only orchestrators touch |
| Runs.FoldedIff | cli/core/src/runs.rs:40-44 | a run folds if and only if its sessions touch at most one repo |
| Runs.ScratchIff | cli/core/src/runs.rs:46-51 | a run is a scratch session if and only if its orchestrator has no members and touched nothing |
| Runs.Group | cli/core/src/runs.rs:61-128 | the grouping loops compute the grouped list the lemmas below describe |
| RunPartition.OnceIffRootsSettle | cli/core/src/runs.rs:61-128 | with unique ids the output is the list as a multiset if and only if every claimed root is placed under itself |
| RunChains.ExactlyOnceIff | cli/core/src/runs.rs:61-128 | in terms of parent links: if and only if every chain ends or repeats within eight steps, or is cut below a cycle found within eight steps from there |
| RunChains.WalkEnds | cli/core/src/runs.rs:69-87 | a chain that ends within eight steps gives its topmost listed ancestor |
| RunChains.WalkRepeats | cli/core/src/runs.rs:69-87 | a chain that repeats an id within eight steps gives nothing, and has no top |
| RunChains.WalkCuts | cli/core/src/runs.rs:23-26 | any other chain is cut at its eighth ancestor |
| RunChains.ShallowGroupingIsPartition | cli/core/src/runs.rs:61-128 | with unique ids and chains that end or repeat within eight steps, the output is exactly the list |
| RunOrder.TogetherIffSameTop | cli/core/src/runs.rs:61-128 | two sessions share a run if and only if they have the same topmost listed ancestor |
| RunOrder.CyclicStandsAlone | cli/core/src/runs.rs:69-87 | a session on or below a cycle stands alone |
| RunOrder.EntriesSitAtEarliest | cli/core/src/runs.rs:115-127 | entries appear in the order of their earliest session |
| RunOrder.MembersKeepOrder | cli/core/src/runs.rs:106-113 | the members of a shown run are the listed sessions placed under its root, in list order |
| RunOrder.DeepChainsAreShownTwice | cli/core/src/runs.rs:23-26 | a chain of ten does not settle and is not a partition |
| Lineage.SessionLineage.Observe | cli/core/src/orchestration.rs:160-199 | folds one event and returns whether the wire-relevant shape changed |
| Lineage.VerdictIsClosedForm | cli/core/src/orchestration.rs:164-190 | the verdict is: some spawn, or some scratch and some repo, and no repo known to lie outside scratch |
| Lineage.VerdictByPaths | cli/core/src/orchestration.rs:164-190 | the same by the names on the paths alone: no repo seen from a known directory that is in no workspace |
| Lineage.ScratchRunOrchestrates | cli/core/src/orchestration.rs:164-190 | a scratch run whose repos are all seen from below workspace directories orchestrates |
| Lineage.VerdictIgnoresOrder | cli/core/src/orchestration.rs:164-190 | reordering events never changes the verdict |
| Lineage.VerdictFlipsOnceAtMost | cli/core/src/orchestration.rs:164-190 | over a growing run the verdict goes off, on, off at most once |
| Lineage.WireChangeIsReported | cli/core/src/orchestration.rs:218-272 | over any run of events, whenever a wire projection changes, that of the first-seen project included, the shape did, so the fold returned true |
| Lineage.CachedWireIsFresh | cli/dirad/src/state.rs:607-642 | refreshed only on that answer or when a project appears or goes, a live session's cached projection is always the current one |
| Lineage.WireByRole | cli/core/src/orchestration.rs:228-272 | an orchestrator shows its first workspace and no repo of its own, any other session its first project and no workspace, and repos are listed for orchestrators and spawners only |
| Lineage.LiveProjectIs | cli/dirad/src/state.rs:631-637 | a live session's project is the first one named since it last coordinated |
| Lineage.LinksAreTheFirst | cli/core/src/orchestration.rs:191-217 | parent, workspace and trigger are the first ones seen and never cleared |
| Lineage.ReposAreTheOnesSeen | cli/core/src/orchestration.rs:164-182 | kept repos are repos seen, all of them below the cap |
| Paths.Normalize | cli/core/src/orchestration.rs:490-502 | the component loop is the fold of the path |
| Paths.FoldAllNormalizes | cli/core/src/orchestration.rs:489-502 | a normalized path holds no dot components and the root only in front |
| Paths.FoldNormalized | cli/core/src/orchestration.rs:489-502 | normalizing a normalized path changes nothing |
| Paths.NameThenParent | cli/core/src/orchestration.rs:489-502 | a name and the `..` behind it cancel wherever they stand |
| Paths.ParentAtTheTop | cli/core/src/orchestration.rs:489-502 | `..` stays at the root, is dropped with nothing before it, and a root starts over |
| Paths.PathReadsBack | cli/core/src/orchestration.rs:489-502 | a printed absolute path reads back as its names and is already normalized |
| Paths.ScratchWorkspaceIff | cli/core/src/orchestration.rs:289-317 | a directory's workspace is the account, org and `scratch-…` name right below the first `Claude/scratch-workspaces` on its path, and there is none otherwise |
| Paths.ScratchDirIff | cli/core/src/orchestration.rs:289-317 | below a root without such a pair, `a/o/d` is a workspace if and only if `d` starts with `scratch-`; what is above it is in none |
| Paths.BelowIsSameWorkspace | cli/core/src/orchestration.rs:289-317 | everything below a workspace directory is in the same workspace |
| Shell.SplitSegments | cli/core/src/orchestration.rs:505-533 | the quote-aware loop splits a command into segments |
| Shell.ShellWords | cli/core/src/orchestration.rs:537-574 | the word loop reads a segment |
| Shell.WordsRoundTrip | cli/core/src/orchestration.rs:537-574 | any words are read back from their printed form, in any mix of bare, single-quoted, double-quoted and backslashed words |
| Shell.SegmentsRoundTrip | cli/core/src/orchestration.rs:505-533 | commands joined by any mix of operators are split back, words with balanced escaped quotes included |
| Shell.ShellRoundTrip | cli/core/src/orchestration.rs:505-574 | splitting and then reading gives back every word of every command |
| Shell.QuotedStaysWholeIff | cli/core/src/orchestration.rs:505-533 | a quoted word whose double quotes stand inside comes through in one piece, if and only if each separator in it has an even number of single quotes before it |
| Shell.QuotesInsideWordsSplit | cli/core/src/orchestration.rs:505-574 | one that reads back but is cut |
| BashEvidence.ReadBash | cli/core/src/orchestration.rs:358-409 | the loop over segments computes the evidence of a command |
| BashEvidence.CdChainLandsOnWholePath | cli/core/src/orchestration.rs:358-409 | a chain of quoted relative `cd`s yields one path, that of the cwd joined with all words at once |
| BashScripts.ScriptsReadBack | cli/core/src/orchestration.rs:358-488 | any printed script of `cd`, `pushd`, `git -C`, `gh -R`, `gh api` and other lines yields in order what each gives away where the moves before it lead, and last the place itself if the final move led anywhere |
| BashScripts.GitAfterCds | cli/core/src/orchestration.rs:378-389 | after any chain of relative moves `git -C dir` yields the cwd joined with all the words and `dir` at once, then the chain's own end if there was one |
| BashScripts.LostStaysLost | cli/core/src/orchestration.rs:470-488 | after a `cd` to what only the shell can expand, relative directories yield nothing |
| BashScripts.SpecReads | cli/core/src/orchestration.rs:427-443 | `owner/name` and `host/owner/name`, slashes around them or not, read as the repo's address |
| BashScripts.ApiWordReads | cli/core/src/orchestration.rs:445-452 | `repos/owner/name` and whatever follows reads as that repo's address |
| BashScripts.FlagFound | cli/core/src/orchestration.rs:454-468 | the value of the first flag, apart or joined by `=`, is found behind any other words |
| Pricing.Resolve | cli/core/src/pricing.rs:195-235 | the cascade: exact, normalized, unpinned, longest boundary prefix; it lands on a key of the table or nowhere |
| Pricing.ScanPrefixes | cli/core/src/pricing.rs:221-234 | the scan with a best so far finds the longest boundary prefix |
| Pricing.LongestKeyIsLongest | cli/core/src/pricing.rs:221-234 | that key is a boundary prefix and no boundary prefix in the table is longer |
| ModelSpellings.SpellingsNormalize | cli/core/src/pricing.rs:105-174 | whatever path, region, vendor and Bedrock or Vertex version a model string wraps an id in, it normalizes to the id |
| ModelSpellings.SpellingsResolve | cli/core/src/pricing.rs:195-235 | such a string resolves to itself if the table has it, else to the id, else for a dated id to its family |
| ModelSpellings.PinsAreStripped | cli/core/src/pricing.rs:176-193 | a date, `-latest` or both come off a base, which is otherwise kept |
| ModelSpellings.ObservedTrims | cli/core/src/pricing.rs:105-106 | blanks around a model string and the case of its letters do not matter |
| Pruning.PruningKeepsPrices | cli/core/src/pricing.rs:176-235 | dropping a redundant key with nothing between its pins changes no raw string's price at any step |
| Pruning.SinglePinPrunes | cli/core/src/pricing.rs:241-273 | a singly pinned alias of a family key at the same price can always be dropped |
| Pruning.DropRedundant | cli/core/src/bin/pricing_sync.rs:190-204 | the sweep drops exactly the keys whose unpinned form is in the table at the same price |
| Pruning.SweepIff | cli/core/src/bin/pricing_sync.rs:190-204 | that sweep, chains of aliases included, changes no price if and only if nothing hides between the pins of any key it drops |
| Pruning.PruneIff | cli/core/src/pricing.rs:176-235 | dropping a redundant key changes no price if and only if no differently priced key hides between its pins |
| StoredAt.TextOrderIsTimeOrder | cli/core/src/stored_at.rs:31-36 | canonical text compares as the instants do |
| StoredAt.TextIsInjective | cli/core/src/stored_at.rs:31-36 | two instants share a text if and only if they are equal |
| StoredAt.TextReadsBack | cli/core/src/stored_at.rs:31-42 | parsing the canonical text gives the instant back to the nanosecond |
| StoredAt.SpellingsReadBack | cli/core/src/stored_at.rs:37-42 | any offset and any lossless number of fractional digits reads back to the same instant |
| StoredAt.SpellingsAgree | cli/core/src/stored_at.rs:37-42 | all spellings of one instant have one canonical text |
| StoredAt.CanonicalIsIdempotent | cli/core/src/stored_at.rs:37-42 | canonicalizing twice is canonicalizing once |
| Rfc3339.ParsesIff | cli/core/src/stored_at.rs:37-42 | a text is read as a timestamp if and only if it is one in the grammar, and then as the local time and offset it writes |
| Calendar.DateOf | cli/core/src/stored_at.rs:31-36 | every day of the years 0000 to 9999 has a valid date whose day number it is |
| Calendar.DateOrder | cli/core/src/stored_at.rs:31-36 | dates in calendar order are days in order |
| TimeColumns.DisplayReadsBack | cli/core/src/stored_at.rs:83-90 | what is shown names the same local time and offset as what is stored |
| TimeColumns.DisplayKeepsCanonical | cli/core/src/stored_at.rs:83-90 | displaying and storing again is storing |
| TimeColumns.DisplayIsShortest | cli/core/src/stored_at.rs:83-90 | no spelling of the same local time and offset that loses nothing is shorter than what is shown |
| TimeColumns.TimeTables.NormalizeStoredAt | cli/core/src/store.rs:45-108 | every time column is rewritten once; later calls change nothing |
| TimeColumns.BoundSelectsByTime | cli/core/src/store.rs:45-108 | on rewritten well-formed rows a text bound selects exactly the rows at or after its instant |
| TimeColumns.RowsSortByTime | cli/core/src/store.rs:45-108 | rewritten rows sort as their instants |
| TimeColumns.RewriteIsStable | cli/core/src/store.rs:45-108 | the rewrite names the same instants, and a second one finds nothing to do |
| TimeColumns.TrimmedTextMisorders | cli/core/src/stored_at.rs:1-20 | trimmed fractions sort a later instant of a second before an earlier one |
| Identity.DeviceStore.PersistSecret | cli/core/src/identity.rs:110-131 | the writes of the keychain-then-fallback ladder |
| Identity.DeviceStore.InstallRotatedKey | cli/core/src/identity.rs:133-140 | the secret's writes, then the public key |
| Identity.DeviceStore.PersistPendingKey | cli/core/src/identity.rs:166-203 | the pending secret, public key and time, in that order |
| Identity.DeviceStore.ClearPendingKey | cli/core/src/identity.rs:249-270 | the four clearing writes, in order |
| Identity.DeviceStore.PromotePendingKey | cli/core/src/identity.rs:233-247 | install then clear, or nothing when nothing is pending |
| Identity.PersistedIsPending | cli/core/src/identity.rs:166-231 | a key persisted in full is what a retry loads, its public key beside it, and the active key is untouched |
| Identity.ClearErases | cli/core/src/identity.rs:249-270 | clearing erases the pending key from every slot and leaves the active one alone |
| Rotation.RotationNeverStrands | cli/core/src/identity.rs:166-270 | in every run of persists, posts, promotions and discards, with a crash after any write, the cloud's key is always one the device can load |
| Rotation.RetriesReloadWhatWasPosted | cli/core/src/identity.rs:160-182 | from a post until promotion or discard begins, every retry loads the posted key and time |
| Rotation.PromotionCompletes | cli/core/src/identity.rs:233-247 | an uninterrupted promotion leaves the key active, its public key stored and nothing pending |
| Rotation.RetriedPromotionCompletes | cli/core/src/identity.rs:233-270 | a promotion cut short after any number of writes is finished by calling it again |
| Rotation.SecretsStayInKeychain | cli/core/src/identity.rs:110-203 | on a device with a keychain no run of rotations, cut short anywhere, leaves a secret in the meta table |
| RotationTimes.PersistIsWholeIff | cli/core/src/identity.rs:166-203 | with a new time, every cut of a persist leaves nothing pending or exactly its key and time, if and only if no earlier time is stored |
| RotationTimes.NeverTornIff | cli/core/src/identity.rs:160-270 | in a run of rotations with new keys and times, whatever is pending at any cut was begun as that pair, if and only if none was begun over a stored time |
| RotationTimes.StaleTimeCanPairWithANewKey | cli/core/src/identity.rs:205-270 | such a run, on devices with a keychain and without |

## Left out

- Database machinery: SQL text, the connection pool, WAL, vacuum, indexes, file permissions and migrations other than the two data rewrites; each transaction is one step.
- Cryptography, base64 and JSON: keys are opaque, transcript lines and hook payloads start decoded.
- Rfc3339.ParsesIff: times outside the UTC years 0000 to 9999, RFC 3339 leap seconds (`:60`), which the source's parser reads in its own way, and date-time separators other than `T` and `t`.
- EventStore.Store.Append: event columns that neither accounting, lineage nor compaction reads (tool, label, note, branch, activity, email) are not carried.
- EventStore.Store.SessionTokens: estimated cost is a natural number of units, not a float, so float rounding of sums is not covered; cache columns are not carried.
- EventStore.Store.Nuke: the meta cursors and watermarks it blanks are not part of the event tables; the knowledge cursors it blanks are in `Knowledge`.
- SyncSeed.Flush: the cloud replacing stale intervals that overlap new ones is not modelled. One chunk per flush; splitting a window into size-capped chunks at idle breaks, interval ids and emails are not modelled.
- Knowledge.Store.UpsertDecision: the columns a capture always overwrites are one text; completion checks and the trailer and guard-event streams are left out.
- Transcript.Parse: the price is a parameter of the decoded line, and the working directory and project columns are not carried.
- BashScripts.ScriptsReadBack: words of mixed quoting inside one word, and a separator or quote that an escape hides from the word reader but not from the splitter, are covered by `Shell.QuotedStaysWholeIff` only.
- Pricing.Resolve: strings are compared by character, so the byte lengths of non-ASCII model names are not modelled; an entry with a null price is a key that is not in the table.
- BashEvidence.ReadBash: the home directory and the remote canonicalizer are parameters; collapsing several pieces of evidence into one answer, and file-tool evidence, are left out.
- Rotation.RotationNeverStrands: one driver at a time, keychain availability fixed, no seed in the environment, the cloud's key changed only by this device's posts, and no post that arrives after a later step. A failed write is a crash before it.
- The TUI, IPC, config loading, git work, TLS, heartbeats, presence and wire structs: I/O or data with no rule of its own.
