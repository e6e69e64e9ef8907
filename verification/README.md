# OpenHPC Web: a verified model

OpenHPC Web is a Go web console for one Slurm cluster. This project models the parts of it that run
protocols, keep shared state or do exact arithmetic, and proves what they promise.
`dafny verify dfyconfig.toml` checks everything.

| file | what it models |
|---|---|
| `SingleFlight.dfy`, `CacheReuse.dfy`, `NestedSnapshot.dfy` | the cache that lets one caller load while others wait, under any interleaving of callers, cancellations and invalidations; what it spares the loader; and the cluster snapshot, a cache whose loader asks two other caches |
| `LoginAttempts.dfy` | the login rate limiter with its pruning and eviction, compared with a limiter that never forgets |
| `TerminalSessions.dfy`, `TerminalRuns.dfy` | the store of terminal sessions, as a class and as a protocol between handlers, timers, streams, logout and shutdown |
| `CoreHours.dfy`, `Durations.dfy` | core-hour accounting and Slurm time arithmetic in 64 bits |
| `OutputSlots.dfy`, `Descriptors.dfy`, `JobOutput.dfy`, `Utf8.dfy` | the job output pipeline: slots, the descriptor walk, the bounded read, the UTF-8 cut (RFC 3629, sections 3 and 4), the framing between child and parent |
| `AuditLog.dfy` | audit retention and cursor pages read while events are recorded |
| `PartitionStore.dfy`, `PartitionSync.dfy` | partitions in the database and in Slurm, kept in step by one request at a time |
| `PartitionRaces.dfy`, `PartitionDrift.dfy` | requests on partitions that run at the same time: when Slurm keeps a partition that the store has lost, and when the two are bound to end in step |
| `Associations.dfy` | the association list, its filter and its pages |
| `ClusterNodes.dfy`, `ClusterViews.dfy`, `ClusterAgreement.dfy` | the node list, the metrics and the partition totals made from the same records |
| `Wrappers.dfy`, `Sets.dfy`, `Lists.dfy`, `Sorting.dfy`, `Text.dfy`, `Int64.dfy`, `Decimal.dfy` | shared vocabulary: results, sums over sets, lists of lists, sorting, the string functions used, 64-bit integers, decimal numerals |

Code that changes state is written as classes and methods, proved against functions and predicates on
values; the theorems are lemmas about those. What runs concurrently is a state machine whose steps are
the critical sections, and "every run" means every sequence of enabled steps. A Go map iterated in a
loop is read in an arbitrary order, and the results are proved not to depend on it.

## Findings

- An invalidation that happens while a live caller's load is in flight does not stop that load from
  being published and served to later callers. `InvalidationExactly` shows that this is the only such
  case, `LateInvalidation` gives the continuation and `StaleAnswerFromScratch` the whole run.
- `AllocationCount` does not add up over adjacent windows: a job that runs across the cut is counted in both
  (`BothHalvesCount`). `CountsOverlap` says by how much.
- `aggregateMetrics` does not check for overflow. The CPU usage is the nearest percentage exactly when
  `ShownRight` holds (`UsageExactly`): while the online total fits 64 bits, when a hundred times the
  allocated CPUs plus half the total fit as well; when the total wraps to nothing or less, when less than
  half a percent is allocated; and otherwise only by accident. `LargestNodeLooksIdle` and
  `ThreeNodesShowMinusOne` are inputs on which it fails. `aggregatePartitions` does check.
- Fifteen minutes that are not aligned to a window can see nine login attempts, not five (`NineInASpan`),
  and never more (`AttemptsAreBounded`). A span sees the late grants of one window begun before it, at most
  four, and the early grants of one begun no earlier than it, at most five; their number is exactly the sum
  (`SpanCount`). It sees more than five exactly when the two parts exceed five (`MoreThanFiveExactly`), so a
  span that begins with a window sees at most five (`MoreThanFive`).
- If the clock goes back, a full store can evict the very key that is granted an attempt
  (`ClockBackEvictsItself`); that is so exactly when all other windows lie in its future
  (`EvictsItselfExactly`).
- Undoing a refused deletion restores a partition's nodes and source but not its creation time
  (`RestoringADeleted`). A deletion is reported exactly when the store and Slurm both carry it out
  (`DeletePartition`), so the deletion of a partition that Slurm does not hold is always reported as
  failed and undone; it leaves the store only if the undoing fails as well. If the undoing fails and Slurm
  keeps a partition that the platform created there, the store no longer knows it: `DeletePartition` says
  exactly when, in terms of the state before the request, and `RefusedDeletionLeavesAnOrphan` is an example.
- The partition handlers take no lock. A partition in Slurm that the store does not know comes from a
  deletion that passes between the store step of a save and its creation in Slurm, or from a refused deletion
  that could not be undone (`OrphansHaveACause`). From every state in which a deletion can cross a pending save
  some continuation leaves such an orphan (`CrossingLeavesAnOrphan`); when nobody else works on the name,
  exactly if Slurm has the partition or the store has lost it (`StrandsExactly`).
- Nor does Slurm always end with what is stored. `SettlesExactly` gives, for every state, the exact
  condition under which the requests that are under way on a partition are bound to leave the two in step,
  however they are interleaved. If only saves are under way, all of them must bring the stored nodes
  (`SavesSettleExactly`). A deletion that is alone needs Slurm to have the partition as stored
  (`LoneDeletionSettlesExactly`). Two deletions are never bound to (`TwoDeletionsNeverSettle`). Three runs
  end out of step though the last command with an effect succeeded and every refused deletion was undone:
  two saves that cross leave Slurm with the nodes of one and the store with those of the other
  (`CrossedSavesDisagree`); the second of two deletions is refused and undone, and so brings back a
  partition whose deletion has been reported as done (`SecondDeletionBringsBack`); and a refused deletion
  that found a partition before a save puts the nodes of before the save back into the store
  (`StaleNodesComeBack`).
- A path that `validJobOutputPath` accepts has no component that the descriptor walk could refuse
  (`OpenAbsoluteFileNoFollow`).
- The limit on association records is checked twice; the second check can refuse nothing
  (`ParseAssociations`).

## Model

| member | source | states |
|---|---|---|
| SingleFlight.ValueCache.constructor | internal/slurm/cache.go:9-16 | a new cache holds nothing fresh and no refresh |
| SingleFlight.ValueCache.Enter | internal/slurm/cache.go:26-44 | the first critical section takes the step of the protocol: a fresh result, the channel to wait on, or leadership under a new channel |
| SingleFlight.ValueCache.Leave | internal/slurm/cache.go:47-53 | the second critical section takes the step of the protocol: it publishes only for a live caller and always ends the refresh |
| SingleFlight.ValueCache.Invalidate | internal/slurm/cache.go:18-22 | only the time of the last attempt is forgotten |
| SingleFlight.InitKeeps | internal/slurm/cache.go:9-16 | the whole invariant of the protocol holds of an empty cache |
| SingleFlight.NextKeeps | internal/slurm/cache.go:24-60 | every step of every caller, cancellation, invalidation and clock tick keeps the invariant |
| SingleFlight.RunKeeps | internal/slurm/cache.go:24-60 | so does every run |
| SingleFlight.RunExtends | internal/slurm/cache.go:24-60 | no run forgets or rewrites a load, its outcome or an invalidation |
| SingleFlight.LoadsNeverOverlap | internal/slurm/cache.go:32-53 | in every reachable state at most one caller loads, `refreshing` is set exactly then, and every channel is closed exactly once, when its load is over |
| SingleFlight.NoLostWakeUp | internal/slurm/cache.go:32-53 | a waiter's channel is closed, or the leader it waits for can take its remaining steps and thereby wake it |
| SingleFlight.RepliesComeFromOneFreshLoad | internal/slurm/cache.go:24-60 | what a live caller gets is the value and error of one load whose leader was live at its publish step, finished less than the time to live ago, and begun after every invalidation before the call unless in flight at it |
| SingleFlight.QuietInvalidation | internal/slurm/cache.go:18-22 | with no live load in flight, no later call is answered from a load begun before the invalidation, in any continuation |
| SingleFlight.LateInvalidation | internal/slurm/cache.go:46-53 | with a live load in flight there is a run in which a later call is answered from it |
| SingleFlight.InvalidationExactly | internal/slurm/cache.go:18-53 | invalidating is effective at once if and only if no live caller's load is in flight |
| SingleFlight.StaleAnswerFromScratch | internal/slurm/cache.go:18-58 | a whole run from an empty cache in which a call begun after an invalidation is answered from a load begun before it |
| CacheReuse.ReuseKept | internal/slurm/cache.go:24-60 | every run keeps loads in order, every standing result remembered, and the next load a time to live after it |
| CacheReuse.LoadsAreSpaced | internal/slurm/cache.go:27-44 | after a load that its live caller published, and that no invalidation has followed but while it was in flight, the next load begins no earlier than the time to live after it finished |
| CacheReuse.EnterExactly | internal/slurm/cache.go:26-44 | a call that takes the mutex is served the result of the published, not invalidated load finished less than the time to live ago if there is one, waits for the load in flight if there is only that, and leads a new load exactly if there is neither |
| CacheReuse.LiveCallersAreServed | internal/slurm/cache.go:35-58 | a call that is over was served unless its caller had cancelled it |
| NestedSnapshot.PlayKeeps | internal/slurm/client.go:111-160 | every interleaving of the outer cache, the two inner caches, their loaders and one clock keeps the three invariants and the derivation of every outer result from inner ones |
| NestedSnapshot.SnapshotAgeBound | internal/slurm/client.go:111-160 | metrics handed out are the aggregate of one node load and one job load that finished less than twice the time to live plus the snapshot's own running time before |
| NestedSnapshot.AnswersAreAggregated | internal/slurm/client.go:147-160 | once both inner calls are answered the load returns exactly what aggregating the two values gives, metrics or error, with the loads they came from |
| NestedSnapshot.SnapshotSucceeds | internal/slurm/client.go:111-160 | whenever two values can be aggregated, some run from scratch hands out their metrics |
| LoginAttempts.LoginAttemptStore.Reserve | internal/web/app.go:1266-1296 | the decision and the new store satisfy the declarative account of granting, pruning and evicting, whatever the order of the map |
| LoginAttempts.LoginAttemptStore.Reset | internal/web/app.go:1298-1308 | exactly the key is forgotten |
| LoginAttempts.FindOldest | internal/web/app.go:1284-1293 | the scan finds an oldest other key, or the reserving key itself when every other window lies in the future |
| LoginAttempts.StoreIsBounded | internal/web/app.go:1284-1294 | the store never exceeds 4096 keys, after any sequence of reservations and resets |
| LoginAttempts.EvictionTakesAnOldest | internal/web/app.go:1284-1293 | with non-decreasing times an evicted key has the smallest window start and is not the reserving key |
| LoginAttempts.PruningDecidesAlike | internal/web/app.go:1266-1296 | a key neither reset nor evicted is granted exactly what an unbounded limiter without pruning grants |
| LoginAttempts.GrantsAreWindowed | internal/web/app.go:1269-1283 | the grants of such a key fall into windows of at most five that start a window apart or more |
| LoginAttempts.AttemptsAreBounded | internal/web/app.go:1269-1283 | such a key gets at most 5 grants in a fixed window and at most 9 in any half-open span of 15 minutes |
| LoginAttempts.MoreThanFive | internal/web/app.go:1269-1283 | more than five grants in a span lie across two windows, one begun before it and one strictly inside; a span that begins with a window holds at most five |
| LoginAttempts.SpanCount | internal/web/app.go:1269-1283 | the number of grants in any half-open span of 15 minutes is exactly the late grants of one window begun before it, fewer than five, plus the early grants of one begun no earlier than it, at most five; no two such windows give more |
| LoginAttempts.MoreThanFiveExactly | internal/web/app.go:1269-1283 | a span sees more than five grants if and only if the late grants of some window begun before it and the early grants of some window begun no earlier than it are more than five |
| LoginAttempts.NineInASpan | internal/web/app.go:1266-1296 | a run with non-decreasing times, the key neither reset nor evicted, and nine grants in a span |
| LoginAttempts.EvictsItselfExactly | internal/web/app.go:1284-1293 | a key just granted an attempt is evicted if and only if the store is full of windows in its future |
| LoginAttempts.ClockBackEvictsItself | internal/web/app.go:1284-1293 | a run in which that happens |
| TerminalSessions.ManagedSession.Close | internal/web/terminal.go:332-335 | the session underneath is closed the first time only, and every call returns the error of that close |
| TerminalSessions.TerminalSessionStore.CountOwned | internal/web/terminal.go:257-262 | the count is the number of sessions of that owner |
| TerminalSessions.TerminalSessionStore.Add | internal/web/terminal.go:251-274 | accepts exactly within both quotas and with a token, and then stores the session unclaimed under it |
| TerminalSessions.TerminalSessionStore.Claim | internal/web/terminal.go:276-285 | hands out exactly a stored, unclaimed session of that owner and marks it, changing nothing else |
| TerminalSessions.TerminalSessionStore.Release | internal/web/terminal.go:287-298 | the id is gone and its session closed once; other sessions are untouched |
| TerminalSessions.TerminalSessionStore.TakeOwned | internal/web/terminal.go:301-309 | exactly the user's sessions are taken out |
| TerminalSessions.TerminalSessionStore.CloseUsername | internal/web/terminal.go:300-314 | exactly the user's sessions are removed and each is closed once; the others are untouched |
| TerminalSessions.TerminalSessionStore.Close | internal/web/terminal.go:316-330 | the store is empty, everything that was in it has been closed, and the errors of exactly those closes are returned joined |
| TerminalSessions.CloseEach | internal/web/terminal.go:310-329 | every session taken out has been closed once, and its error is among the joined ones |
| TerminalRuns.RunKeeps | internal/web/terminal.go:91-100 | every interleaving of handlers, claims, streams and removers keeps the quotas, the places of sessions, single closes and one-shot claims |
| TerminalRuns.QuotasHold | internal/web/terminal.go:251-265 | at most 8 sessions and at most 2 per owner are ever stored |
| TerminalRuns.AddsExactly | internal/web/terminal.go:251-274 | in every reachable state a session is stored under its token exactly when fewer than 8 are stored, fewer than 2 of them its owner's, and there is a token; otherwise it is turned away |
| TerminalRuns.ClaimsExactly | internal/web/terminal.go:276-285 | a claim is granted exactly for a stored session of that user not claimed before, hands its stream out, and cannot be repeated |
| TerminalRuns.ClaimsAreOneShot | internal/web/terminal.go:276-285 | an id is claimed at most once, and only by the user it was handed to |
| TerminalRuns.SessionsAreAccountedFor | internal/web/terminal.go:184-335 | every session opened is with its handler, turned away, stored, pending with exactly one remover, or closed; and none is closed twice |
| TerminalRuns.EverythingIsClosedOnce | internal/web/terminal.go:287-335 | when all handlers and removers are done and the store is empty, every session has been closed exactly once |
| CoreHours.AllocatedCpus | internal/slurm/core_hours.go:130-148 | returns the exact sum of the CPU counts, and fails exactly on a negative count or a sum beyond 64 bits |
| CoreHours.JobCoreSeconds | internal/slurm/core_hours.go:87-116 | one job contributes exactly CPUs times clipped seconds, or is refused exactly when malformed or too large |
| CoreHours.SecondsCounted | internal/slurm/core_hours.go:90-112 | the seconds counted for a job are as many as the seconds of the window at or after its positive start and before its end, or at which it is still running |
| CoreHours.CpusOfParts | internal/slurm/core_hours.go:130-148 | the CPUs of a job are the sum over its resources of kind cpu, in any case of letters |
| CoreHours.PlainIsAcceptable | internal/slurm/core_hours.go:87-89 | a job with printable names of reasonable length and no negative resource is accepted for every window |
| Text.FoldsLikeUpper | internal/slurm/core_hours.go:150-157 | ASCII texts fold alike exactly when they have the same upper case |
| CoreHours.BookOn | internal/slurm/core_hours.go:122-123 | booking a job keeps the map of groups the exact tally of all jobs so far, under the dash for an empty name, and no group sum overflows |
| CoreHours.SortedCoreHourGroups | internal/slurm/core_hours.go:170-182 | every group once, strictly ordered by descending core-seconds and then by name |
| CoreHours.ParseCoreHours | internal/slurm/core_hours.go:79-128 | succeeds exactly when all jobs are well-formed and the mathematical total fits 64 bits, and then returns the exact totals, counts and groups; group sums never overflow |
| CoreHours.TotalsOfParts | internal/slurm/core_hours.go:86-123 | the totals of all jobs are those of any two parts of them, and one job adds its CPUs times its seconds |
| CoreHours.GroupIsItsJobs | internal/slurm/core_hours.go:159-168 | a group has exactly the totals of the jobs of that account or user, or of those without one under the dash |
| CoreHours.GroupsDescend | internal/slurm/core_hours.go:170-182 | larger groups come first, and equal ones in the order of their names |
| CoreHours.GroupsAddUp | internal/slurm/core_hours.go:117-126 | the accounts, and likewise the users, add up to the total core-seconds and to the allocation count |
| CoreHours.GroupsAreDetermined | internal/slurm/core_hours.go:170-182 | the listing is determined by the jobs, whatever the order of the map |
| CoreHours.SecondsAdd | internal/slurm/core_hours.go:90-112 | cutting a window in two cuts every job's clipped time in two, also for running jobs and at the edges |
| CoreHours.TotalsAdd | internal/slurm/core_hours.go:86-123 | totals and every account's and user's group over [a,c] are the sums over [a,b] and [b,c] |
| CoreHours.WindowsSplit | internal/slurm/core_hours.go:79-120 | a window is accounted for if and only if both halves are and their totals fit together |
| CoreHours.CountsOverlap | internal/slurm/core_hours.go:121 | allocation counts exceed the whole window's by exactly the allocations that run across the cut |
| CoreHours.BothHalvesCount | internal/slurm/core_hours.go:121 | for every cut after the first second, one job of one CPU that counts once in the whole window and once in each half |
| Durations.ParseParts | internal/slurm/resource_usage.go:156-162 | all parts are read, or the parse fails exactly when one is no non-negative 64-bit number |
| Durations.ParseSstatDuration | internal/slurm/resource_usage.go:133-179 | returns the exact number of seconds, and rejects a well-formed duration exactly when it does not fit 64 bits or minutes or seconds reach 60 |
| Durations.SixtyIsRefused | internal/slurm/resource_usage.go:167 | minutes or seconds from 60 on are refused |
| Durations.ExactSeconds | internal/slurm/resource_usage.go:167-178 | the range checks refuse exactly what does not fit, and no intermediate step wraps |
| Durations.DurationRoundTrip | internal/slurm/details.go:327-339 | parsing what the printer prints gives back the same seconds, for every value up to the largest 64-bit integer |
| Durations.DurationsPrintApart | internal/slurm/details.go:327-339 | different durations never print alike |
| Durations.ShownTimesReadBack | internal/slurm/details.go:310-325 | a time limit or elapsed time that has a value is shown as a duration and reads back as the seconds meant; an infinite limit is shown as such, and anything else as a dash |
| Durations.ParseRow | internal/slurm/resource_usage.go:59-99 | a row is accepted exactly when its seven fields are well-formed and belong to the job, and gives that step with its times and four sizes |
| Durations.PrintedRowReadsBack | internal/slurm/resource_usage.go:59-99 | seven columns as Slurm prints them, joined by bars, are read back each into its own field of the step |
| Durations.ParseSstat | internal/slurm/resource_usage.go:47-114 | succeeds exactly with at most 1024 well-formed rows, none too long for the scanner, whose exact CPU sum fits 64 bits; the total is that sum and the peak the maximum |
| Durations.CpuTimeOfParts | internal/slurm/resource_usage.go:101-107 | the CPU time of all rows is that of any two parts of them, and of one row its own |
| Utf8.RepairIsValid | internal/web/job_output.go:204 | replacing malformed runs yields well-formed UTF-8 |
| Utf8.RepairKeepsValid | internal/web/job_output.go:204 | well-formed text is left alone |
| Utf8.RepairOfRun | internal/web/job_output.go:204 | well-formed text before a run of bytes that begin no character stays, and the whole run becomes one U+FFFD |
| Utf8.CharsExactly | internal/web/job_output.go:204 | a text begins with a well-formed character exactly when it begins with the encoding of a Unicode scalar value, of that length |
| Utf8.SuffixAtBoundary | internal/web/job_output.go:206-210 | a suffix of well-formed text is well-formed exactly when it starts at a byte that can start a character |
| Utf8.BoundaryNearby | internal/web/job_output.go:206-209 | such a place lies within any four consecutive ones |
| JobOutput.ReadBoundedOutput | internal/web/job_output.go:270-296 | for every chunking of reads, what is read is exactly the file's window of at most 256 KiB |
| JobOutput.CutToLimit | internal/web/job_output.go:205-211 | the cut leaves the longest well-formed suffix within the limit, at most three bytes short of it |
| JobOutput.ReadJobOutput | internal/web/job_output.go:189-212 | what is returned is the repaired tail of the file, cut if too long, with its truncation flag |
| JobOutput.SentIsSound | internal/web/job_output.go:189-212 | what is sent is well-formed UTF-8 of at most 256 KiB, and is the file itself unless that is too long or malformed |
| JobOutput.EndIsSent | internal/web/job_output.go:189-211 | of a longer file the last 256 KiB it had when opened are sent: as they are if well-formed, else repaired, and cut in front by no more than the limit asks and three bytes |
| JobOutput.SentIsUnique | internal/web/job_output.go:189-212 | only one text and flag can be sent for a file |
| JobOutput.BoundedResponse.Write | internal/web/job_output_fsuid_linux.go:66-74 | the buffer is the limit's prefix of everything written, and overflow is flagged exactly when the total exceeds the limit |
| JobOutput.LimitedBuffer.Write | internal/slurm/runner.go:52-70 | the same for a command's output, with the command cancelled exactly on overflow |
| JobOutput.RunCommand | internal/slurm/runner.go:20-42 | a successful command yields the concatenation of its writes; the limit error comes exactly when that is longer than the limit, before a cancelled context and a failed command |
| Lists.CutAnywhere | internal/slurm/runner.go:52-70 | what is written does not depend on how it is cut into chunks |
| JobOutput.ReceiveJobOutput | internal/web/job_output_fsuid_linux.go:32-57 | for a child that succeeds the answer depends only on the concatenation of the pipe writes; a child that fails never yields content |
| JobOutput.FrameArrivesWhole | internal/web/job_output_fsuid_linux.go:103-113 | for every chunking, the parent gets exactly the text and flag the child sent |
| JobOutput.DecodesExactly | internal/web/job_output_fsuid_linux.go:49-57 | a frame is accepted exactly when it encodes a text within the limit |
| Decimal.PositiveExactly | internal/web/job_output.go:142-156 | the accepted identifiers are exactly the numerals, without leading zeros, of 1 to the largest 64-bit integer |
| OutputSlots.RunKeeps | internal/web/job_output.go:48-113 | every interleaving of requests, timeouts and readers keeps the slot ledger |
| OutputSlots.SlotsAreConserved | internal/web/job_output.go:48-97 | tokens in use are the handlers owning one plus the unfinished readers, at most 4, and no release blocks |
| OutputSlots.SlotIsGivenExactly | internal/web/job_output.go:48-57 | a request gets a slot exactly when fewer than 4 are owned by handlers or readers |
| OutputSlots.EachTokenReturnsOnce | internal/web/job_output.go:58-97 | a token taken is held by exactly one side until it is returned, once |
| OutputSlots.AllSlotsComeBack | internal/web/job_output.go:58-97 | when all requests and readers are done all tokens have been returned |
| Descriptors.WalkOpenNoFollow | internal/web/job_output.go:248-268 | succeeds exactly if every component may be walked and no open fails; each component is opened, in order, relative to what the open before it yielded, each but the last as a directory, and the last is returned, a descriptor of the place at the end of the path; the walk closes all else it owns once, one close for each open tried and one more for a refused component |
| Descriptors.OpenRelativeFileNoFollow | internal/web/job_output.go:227-242 | one new descriptor, of the place at the end of the path, is open exactly if the walk succeeds and the file is regular, and none otherwise; the caller's root stays open |
| Descriptors.OpenAbsoluteFileNoFollow | internal/web/job_output.go:215-225 | the same for a valid absolute path, with the root opened and closed inside; on a valid path the walk refuses no component |
| Text.SplitExactly | internal/web/job_output.go:250 | splitting gives the one list of parts without the separator that join to the text |
| AuditLog.AuditStore.Record | internal/platform/audit.go:101-123 | after a successful record the store holds the newest events of the longer history; a failed one changes nothing |
| AuditLog.AuditStore.List | internal/platform/audit.go:125-160 | the page for a cursor, refused exactly outside the query bounds |
| AuditLog.RecordRetains | internal/platform/audit.go:107-116 | inserting and pruning by the largest id retains exactly the newest 100000 |
| AuditLog.RetainsNewest | internal/platform/audit.go:113-116 | the store holds exactly the newest min(n, 100000) events with consecutive ids |
| AuditLog.PageContents | internal/platform/audit.go:125-160 | a page shows the newest retained events below its cursor, without a gap, and says truly whether more follow |
| AuditLog.WalkDescends | internal/platform/audit.go:125-160 | pages read one after the other while events are recorded show strictly decreasing ids, none newer than the first page |
| AuditLog.WalkEnds | internal/platform/audit.go:153-158 | such a walk ends within as many pages as the first page's ids need |
| AuditLog.WalkIsComplete | internal/platform/audit.go:101-160 | every older event falls to one page, which shows it exactly when it had not been pruned before that page was read |
| AuditLog.OfferedCursorIsAccepted | internal/web/app.go:387-404 | a cursor offered for the next page is read back as the same number |
| PartitionStore.NormalizePartitionNodes | internal/platform/partitions.go:373-389 | accepts exactly valid node names without repetition and returns them in order |
| Text.TrimExactly | internal/platform/partitions.go:377 | trimming takes away the blanks around a name and nothing else |
| PartitionStore.DiffPartitionNodes | internal/platform/partitions.go:391-413 | what is added is desired minus existing, and what is removed is existing minus desired |
| PartitionStore.PatchLeadsTo | internal/platform/partitions.go:391-413 | existing minus removed plus added is desired, and both are empty exactly when the normalized lists are equal |
| PartitionStore.NormalStaysNormal | internal/platform/partitions.go:352-371 | normalizing a stored list again leaves it alone |
| PartitionStore.PartitionTable.Load | internal/platform/partitions.go:308-338 | reads back exactly what is stored |
| PartitionStore.PartitionTable.Upsert | internal/platform/partitions.go:196-265 | succeeds exactly for a valid name and nodes under an unchanged source, and then stores and reports exactly that change; otherwise nothing changes |
| PartitionStore.PlainIsSavable | internal/platform/partitions.go:373-389 | a new partition can be saved under every name of letters, digits, hyphens and underscores with any different nodes of that kind, whatever blanks are around them |
| PartitionStore.PartitionTable.DeleteManaged | internal/platform/partitions.go:167-194 | removes exactly the named managed partition and refuses a system one |
| PartitionStore.PartitionTable.ListManaged | internal/platform/partitions.go:267-306 | lists every managed partition once, in the order of the names |
| PartitionStore.SavedReadsBack | internal/platform/partitions.go:196-265 | what was saved reads back as the normalized nodes under the same source, and other partitions are untouched |
| PartitionStore.SavingAgainChangesNothing | internal/platform/partitions.go:226-232 | saving the same nodes again, in any order, changes and reports nothing |
| PartitionStore.UpdatePatches | internal/platform/partitions.go:226-246 | the patch of an update leads from the stored nodes to the wanted ones and is not empty |
| PartitionStore.SourceIsFixed | internal/platform/partitions.go:218-225 | between creation and deletion a partition keeps its source and creation time, under any operations |
| PartitionStore.SystemPartitionsStay | internal/platform/partitions.go:184-186 | no sequence of operations deletes a system partition or makes it managed |
| PartitionStore.RestoringADeleted | internal/web/partitions.go:121-124 | putting a deleted partition back restores nodes and source, but not its creation time |
| PartitionSync.ValidatePartitionDefinition | internal/slurm/partition_admin.go:109-130 | accepts exactly plain, distinct, printable names |
| PartitionSync.PlainIsApplicable | internal/slurm/partition_admin.go:109-130 | every name of letters, digits, hyphens and underscores with different nodes of that kind is a valid definition |
| PartitionSync.SlurmAdmin.ApplyPartition | internal/slurm/partition_admin.go:14-35 | success and effect exactly in terms of whether Slurm has the partition and how the two commands turn out; nothing else changes, and nothing for an invalid definition |
| PartitionSync.SlurmAdmin.DeletePartition | internal/slurm/partition_admin.go:37-53 | success and effect exactly in terms of the name, whether Slurm has it and how the command turns out; a failed command may have removed it, and nothing else |
| PartitionSync.Application.SavePartition | internal/web/partitions.go:48-98 | from every state; keeps Slurm free of platform partitions unknown to the store where it is, though commands may fail with or without effect; refuses exactly an empty name, no nodes or nodes that are not live, and otherwise says exactly what is stored and applied |
| PartitionSync.Application.DeletePartition | internal/web/partitions.go:100-136 | from every state; reply, store and Slurm exactly in terms of the state before the request; where there was no orphan, one is left if and only if the partition leaves the store, Slurm keeps it, the platform had created it there and the undoing fails |
| PartitionSync.RefusedDeletionLeavesAnOrphan | internal/web/partitions.go:121-124 | an input on which it does |
| PartitionSync.Application.SyncStoredPartitions | internal/web/partitions.go:155-169 | from every state: succeeds exactly if every definition, in the order of the names, can be applied with the outcomes that its commands meet; otherwise those before the first refused have their stored nodes, that one has them or is as before, and no other partition is changed |
| PartitionSync.SyncSucceeds | internal/web/partitions.go:155-169 | with valid definitions and no failing command none is refused and every managed partition has its stored nodes |
| PartitionSync.SaveThenDelete | internal/web/partitions.go:48-136 | while no command fails, saving a new partition and deleting it again both succeed, Slurm has the nodes in between, and store and Slurm end as they began |
| PartitionRaces.RunKeeps | internal/web/partitions.go:72-131 | every interleaving of the store, create, update, delete and undoing steps of saves and deletions keeps the order of every name that no deletion removed while a save was about to create it |
| PartitionRaces.OrphansHaveACause | internal/web/partitions.go:72-131 | in every interleaving a partition left in Slurm and unknown to the store comes from a deletion that removed it while a save was about to create it, or from a refused deletion whose undoing failed |
| PartitionRaces.CrossingLeavesAnOrphan | internal/web/partitions.go:72-131 | from every state with a save about to create a partition and a deletion about to remove the partition, some continuation ends with an orphan though every refused deletion is undone |
| PartitionRaces.StrandsExactly | internal/web/partitions.go:72-131 | when these two are the only requests on the name and finish without a failed undoing, they can leave an orphan if and only if Slurm has the partition or the store has lost it |
| PartitionRaces.OverlapLeavesAnOrphan | internal/web/partitions.go:72-131 | such a run from the start |
| PartitionRaces.NodesAgree | internal/web/partitions.go:72-86 | when the requests on a partition took turns, the last command on it had its effect and nothing is pending, Slurm has exactly the stored nodes |
| PartitionRaces.CrossedSavesDisagree | internal/web/partitions.go:72-86 | two saves that cross leave other nodes in Slurm than in the store though nothing fails |
| PartitionDrift.SettlesExactly | internal/web/partitions.go:72-131 | for every state: the requests under way on a partition, however interleaved and with every command doing what Slurm allows, are bound to leave Slurm in step with the store if and only if the stated condition on these requests, the store and Slurm holds |
| PartitionDrift.CanFinish | internal/web/partitions.go:72-131 | from every state such a run to the end exists |
| PartitionDrift.SavesSettleExactly | internal/slurm/partition_admin.go:14-35 | when only saves are under way and some command can have an effect, Slurm is bound to end in step if and only if the partition is stored and every save brings the stored nodes; when nothing is, if and only if they agree already |
| PartitionDrift.LoneDeletionSettlesExactly | internal/web/partitions.go:115-124 | a deletion that is alone is bound to end in step if and only if Slurm has the partition and, until it is out of the store, has it as stored |
| PartitionDrift.TwoDeletionsNeverSettle | internal/web/partitions.go:115-124 | with two deletions under way some interleaving always ends out of step |
| PartitionDrift.SecondDeletionBringsBack | internal/web/partitions.go:115-124 | a run from the start in which every command does what Slurm allows, no save is crossed and the refused deletion is undone, and which ends with a stored partition that Slurm lacks |
| PartitionDrift.StaleNodesComeBack | internal/web/partitions.go:115-124 | a run in which Slurm refuses only a deletion, which is undone, and which ends with the older nodes in the store and the newer in Slurm |
| Associations.ParseAssociationRecords | internal/slurm/accounting.go:256-302 | given valid records fails exactly when there are too many or two share an ID and differ, with the first record at fault; else returns the strictly ordered list of exactly these associations |
| Associations.Collect | internal/slurm/accounting.go:278-300 | the strictly ordered list of the map's values, whatever its order |
| Associations.ListCarriesRecords | internal/slurm/accounting.go:272-275 | every record is in the list with its own id, cluster, account, user and partition, and nothing else is |
| Associations.PlainIsValid | internal/slurm/accounting.go:263-271 | records with printable texts of reasonable length, a positive id, a cluster and an account are valid |
| Associations.ListIsOrdered | internal/slurm/accounting.go:278-300 | the list is ordered by cluster, account, user, partition and id, in this order |
| Associations.ListIsCanonical | internal/slurm/accounting.go:256-302 | acceptance and list are the same for every order and repetition of the records and every order of the map |
| Associations.ValidateCombinedAssociationCount | internal/slurm/accounting.go:231-254 | succeeds exactly for at most 10000 records in both replies together |
| Associations.ParseAssociations | internal/slurm/accounting.go:201-229 | both replies together give a list of at most 10000, and only the first limit check ever refuses by number |
| Associations.FilterAssociations | internal/web/app.go:529-541 | the loop computes the filter that `KeptExactly` is about |
| Associations.KeptExactly | internal/web/app.go:529-541 | filtering keeps the order and exactly the selected associations |
| Associations.PaginateAssociations | internal/web/app.go:558-578 | the rows of the page, a next page exactly when rows follow, and only page numbers that the page parser accepts |
| Associations.PagesShowEverything | internal/web/app.go:472-475 | pages 1 to 100 concatenate to the whole list if and only if it has at most 10000 entries |
| Associations.PageExactly | internal/web/app.go:498-515 | the accepted page numbers are exactly nothing, for the first page, and the numerals of 1 to 100 |
| ClusterNodes.AddMention | internal/slurm/details.go:177-198 | one mention is recorded in all tables, or refused exactly when it contradicts an earlier one |
| ClusterNodes.SortedNodePartitions | internal/slurm/details.go:219-226 | every name once, in order |
| ClusterNodes.ParseNodes | internal/slurm/details.go:160-211 | fails exactly when a record is malformed or a node is described in two ways; else lists every node once, in order, with its partitions in order |
| ClusterNodes.EntriesShowRecords | internal/slurm/details.go:179-185 | every node listed shows state, CPUs, memory and resources of a record that names it, and is online exactly if no state of that record begins with one of the eight words for off |
| ClusterNodes.PlainIsAcceptable | internal/slurm/details.go:164-176 | records with printable texts of reasonable length, a positive number of CPUs and no more of them allocated are accepted |
| Sorting.StringLessExactly | internal/slurm/details.go:200-204 | names are ordered by their first difference, a prefix before what it begins |
| ClusterViews.UniqueNodes | internal/slurm/client.go:163-172 | finds a conflict exactly when two entries of a node differ in state, CPUs or being online |
| ClusterViews.SumOnline | internal/slurm/client.go:173-183 | the online nodes are counted and summed once each, modulo 2 to the 64th, whatever the order of the map |
| ClusterViews.AggregateMetrics | internal/slurm/client.go:162-196 | the metrics are those of the set of distinct nodes, and fail exactly on a conflict |
| ClusterViews.SumsAreTallied | internal/slurm/client.go:173-183 | for nodes with different names the counts and sums are those over the list, node by node |
| ClusterViews.CountsStates | internal/slurm/client.go:187-194 | as many jobs are counted as have that state, in any case of letters |
| ClusterViews.UsageExactly | internal/slurm/client.go:174-186 | for all sums, also those that wrap: the CPU usage is the nearest percentage if and only if the stated condition on the sums holds, and then within 0 to 100; it holds at least when the exact dividend fits 64 bits |
| ClusterViews.LargestNodeLooksIdle | internal/slurm/client.go:184-186 | a fully allocated node of the largest size is shown with a usage of 0 |
| ClusterViews.ThreeNodesShowMinusOne | internal/slurm/client.go:174-186 | two fully allocated nodes of the largest size and an idle one show a usage of -1 |
| ClusterViews.Totals.Add | internal/slurm/partitions.go:67-78 | adds all three resources, or nothing exactly when one sum would leave 64 bits |
| ClusterViews.GroupNodes | internal/slurm/partitions.go:22-47 | groups the nodes by partition and name, and fails exactly on an unacceptable node or two descriptions |
| ClusterViews.TotalOf | internal/slurm/partitions.go:50-60 | the exact totals of a partition's nodes in any order, and the nearest percentage within 0 to 100; fails exactly when the whole partition's total does not fit, so never because of the order |
| ClusterViews.TotalsOfParts | internal/slurm/partitions.go:67-78 | the totals of a partition are the sums of those of any two parts of it |
| ClusterViews.TotalsOfOne | internal/slurm/partitions.go:67-78 | one node's totals are its own allocated CPUs, CPUs and memory |
| ClusterViews.AggregatePartitions | internal/slurm/partitions.go:21-65 | one entry per partition in order, with the totals of its distinct nodes; fails exactly on an unacceptable node, two descriptions or a total too large |
| ClusterAgreement.ReadNodesAgree | internal/slurm/details.go:160-211 | after a successful read no aggregation can find a conflict, and a partition can object to nothing but an empty node name |
| ClusterAgreement.SameOnlineLoads | internal/slurm/details.go:200-211 | the node list has exactly the loads of the records, each once |
| ClusterAgreement.ReadMetrics | internal/slurm/client.go:147-160 | the metrics fail exactly where reading the nodes fails, so the conflict error is unreachable; counts are those of the distinct nodes, and the usage is the nearest percentage exactly when the condition of `UsageExactly` holds, also for sums beyond 64 bits |
| ClusterAgreement.ReadPartitions | internal/slurm/partitions.go:13-19 | the partitions fail exactly where reading fails, on an empty node name or on a total too large, never on a conflict |
| ClusterAgreement.ViewsIgnoreOrder | internal/slurm/details.go:160-211 | acceptance, node list, loads and partition totals are the same for every order and repetition of the records |

## Left out

- Time: clocks are unbounded integers, and times given to the rate limiter are taken as the callers read them before they get its lock; the theorems that need non-decreasing times say so.
- Tokens: random session tokens are taken to be fresh; stopping a session's timer is not modelled, so a timer may still fire after its session is gone.
- SnapshotAgeBound: says nothing about invalidating the node cache, which does not reach the snapshot's own cache; the snapshot may keep showing the older nodes for its time to live.
- ExactSeconds: which of the two error texts a refused duration gets is left open, as are most error texts in the project.
- ParseRow: memory sizes are floating point in the source, so their parser is a parameter, and the step keeps the numbers but not the texts they were read from.
- ParseSstat: the same parameter, for every row.
- TotalOf: the utilization percentage is computed and rounded over the reals; what 64-bit floating point loses on sums beyond 2 to the 53rd is not modelled.
- AggregatePartitions: the same rounding, in every entry.
- ParseNodes: the library's case mapping is a parameter; the theorems hold for every mapping of characters to characters.
- SavePartition: one request at a time; `PartitionRaces.dfy` interleaves requests. Node names are trimmed by the store and passed to Slurm as they came.
- SettlesExactly: about requests whose commands report what they did and whose undoing works; `OrphansHaveACause` and `NodesAgree` allow commands that fail with or without an effect.
- SlurmAdmin: Slurm is a map of partitions plus an outcome for each command; it refuses to create what it has and to update or delete what it does not have, and a command that fails may have taken effect.
- ReceiveJobOutput: the child's identity checks and the text of its diagnostics are not modelled.
- ReadBoundedOutput: each read returns what the environment decides, at least one byte before the end of the file, as a regular file does.
- WalkOpenNoFollow: a place is the list of names that lead to it from the root; which file that is, and what a name may not lead to, is up to the file system. A failure of `close` is ignored, as in the source.
- syncSystemPartitions: the import of system partitions stops at the first refused one; only its store operation is modelled.
- JSON decoding, SQL text, command execution, SSH, websockets, LDAP, templates, cookies, routing, settings and users: outside the model, which starts from decoded records and tables.
- Cryptography: bcrypt, AES-GCM, SSHA and TLS are library calls.
- Simple validators, environment parsing, `safeNext`, `redact` and file permission checks: they would only add easy members.
