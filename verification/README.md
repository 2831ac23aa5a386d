# SeaTunnel task-log cleaning and Weaviate split enumeration, in Dafny

This project models two small parts of Apache SeaTunnel and proves properties of them.

**Task-log retention (`TaskLogCleanService`).** A cron-driven service deletes old job log files from a directory. For each file whose name starts with the configured prefix, it does three things in order. First, it looks for an 18-digit job id in the name with the regular expression `\b(\d{18})\b`. Second, it asks the job-history service whether that job is in an end state, and skips the file if so. Third, it deletes the file when `now - lastModified > keepTime` holds. A `running` flag guards `scheduleTask`, and every execution reschedules the next one from inside the same `try`.

**Weaviate split enumerator (`WeaviateSourceSplitEnumertor`, `WeaviateSourceState`).** The constructor sets up two collections: a queue of pending tables and a map of pending splits per reader subtask. It starts them fresh from the catalog's table keys, or restores them from a checkpointed state record. Every callback is an empty stub. `currentUnassignedSplitSize` returns 0 and `snapshotState` returns `null`.

Modules:
- `Wrappers` (wrappers.dfy): `Option` (also stands for a nullable reference) and `Result`.
- `JavaInts` (java_ints.dfy): Java `long` and `int` ranges, and `long` subtraction with its wrap-around.
- `JobIdPattern` (job_id_pattern.dfy): the job-id search and `Long.parseLong`.
- `LogClean` (log_clean.dfy): one pass of the clean thread as a pure function. The directory, clock, history service and `File.delete` are inputs.
- `CleanScheduler` (clean_scheduler.dfy): the `running` flag, the executor's queued executions, and shutdown, as a state machine over events.
- `SourceState` (source_state.dfy): the two-field state record with its getters, setters and equality.
- `SplitEnumerator` (split_enumerator.dfy): the constructor, the stub callbacks, and a restart from the enumerator's own snapshot.

Every enumerator callback is an empty stub, `currentUnassignedSplitSize` returns 0, and `snapshotState` returns `null`. So every callback provably leaves the state unchanged, and a restart from a snapshot is a fresh start that drops all pending splits.

The status check is modelled as written. `checkTaskStatus` returns true when the job IS in an end state, and such files are skipped, even though the caller names the result `isTaskRunning`. So logs of running or unknown jobs are the ones that get deleted (`LogClean.RunningJobLogIsDeleted`).

## Model

| member | source | states |
|---|---|---|
| JavaInts.LongSub | seatunnel-engine/seatunnel-engine-server/src/main/java/org/apache/seatunnel/engine/server/telemetry/log/TaskLogCleanService.java:166 | the age is `now - lastModified` on Java longs: the true difference whenever it fits in a long, and congruent to it modulo 2^64 otherwise |
| JavaInts.NonNegativeSubNoWrap | seatunnel-engine/seatunnel-engine-server/src/main/java/org/apache/seatunnel/engine/server/telemetry/log/TaskLogCleanService.java:166 | timestamps at or after the epoch never overflow the subtraction |
| JavaInts.AgeOverflowWrapsNegative | seatunnel-engine/seatunnel-engine-server/src/main/java/org/apache/seatunnel/engine/server/telemetry/log/TaskLogCleanService.java:166 | whenever the true difference exceeds the long range, the wrapped difference is negative |
| JobIdPattern.FirstMatchFrom | seatunnel-engine/seatunnel-engine-server/src/main/java/org/apache/seatunnel/engine/server/telemetry/log/TaskLogCleanService.java:179-182 | `Matcher.find` returns the leftmost position at or after the start where `\b\d{18}\b` matches; none is returned only when no position matches |
| JobIdPattern.ExtractJobId | seatunnel-engine/seatunnel-engine-server/src/main/java/org/apache/seatunnel/engine/server/telemetry/log/TaskLogCleanService.java:179-184 | an id is found iff the pattern occurs somewhere; it is the value of the leftmost 18-digit word-bounded run, below 10^18 and so within a long |
| JobIdPattern.DigitsValueBound | seatunnel-engine/seatunnel-engine-server/src/main/java/org/apache/seatunnel/engine/server/telemetry/log/TaskLogCleanService.java:184 | `Long.parseLong` of n digits is below 10^n |
| JobIdPattern.IdRangeFitsLong | seatunnel-engine/seatunnel-engine-server/src/main/java/org/apache/seatunnel/engine/server/telemetry/log/TaskLogCleanService.java:184 | 10^18 - 1 fits in a long, so parsing a captured run cannot fail |
| JobIdPattern.FormatDigitsRoundTrip | seatunnel-engine/seatunnel-engine-server/src/main/java/org/apache/seatunnel/engine/server/telemetry/log/TaskLogCleanService.java:184 | parsing an id written as zero-padded digits gives the id back |
| JobIdPattern.DigitRunOfWrongLengthHasNoId | seatunnel-engine/seatunnel-engine-server/src/main/java/org/apache/seatunnel/engine/server/telemetry/log/TaskLogCleanService.java:179 | a name of 17, 19 or any other number of digits other than 18 yields no id |
| JobIdPattern.GluedBeforeHidesId | seatunnel-engine/seatunnel-engine-server/src/main/java/org/apache/seatunnel/engine/server/telemetry/log/TaskLogCleanService.java:179 | 18 digits preceded directly by a letter, digit or underscore yield no id |
| JobIdPattern.GluedAfterHidesId | seatunnel-engine/seatunnel-engine-server/src/main/java/org/apache/seatunnel/engine/server/telemetry/log/TaskLogCleanService.java:179 | 18 digits followed directly by a letter, digit or underscore yield no id |
| JobIdPattern.EmbeddedIdIsExtracted | seatunnel-engine/seatunnel-engine-server/src/main/java/org/apache/seatunnel/engine/server/telemetry/log/TaskLogCleanService.java:179-184 | a name of the form head + 18 zero-padded digits + tail, with a digit-free head and non-word characters around the digits, yields exactly that id |
| LogClean.NameFilterIsPrefixTest | seatunnel-engine/seatunnel-engine-server/src/main/java/org/apache/seatunnel/engine/server/telemetry/log/TaskLogCleanService.java:147-150 | the filter `startsWith(prefix + "-") \|\| startsWith(prefix)` accepts exactly the names starting with the prefix |
| LogClean.ListMatching | seatunnel-engine/seatunnel-engine-server/src/main/java/org/apache/seatunnel/engine/server/telemetry/log/TaskLogCleanService.java:147-150 | the filtered listing holds exactly the listed files whose name starts with the prefix |
| LogClean.CheckTaskStatus | seatunnel-engine/seatunnel-engine-server/src/main/java/org/apache/seatunnel/engine/server/telemetry/log/TaskLogCleanService.java:178-187 | true iff an id was extracted and the history service returned a non-null state that is an end state; false for names with no id |
| LogClean.OutcomeOf | seatunnel-engine/seatunnel-engine-server/src/main/java/org/apache/seatunnel/engine/server/telemetry/log/TaskLogCleanService.java:152-172 | a file is skipped iff its job ended; kept iff not skipped and not strictly older than keepTime; deleted iff neither and the delete succeeds |
| LogClean.ProcessFiles | seatunnel-engine/seatunnel-engine-server/src/main/java/org/apache/seatunnel/engine/server/telemetry/log/TaskLogCleanService.java:151-174 | every listed file gets exactly its own outcome, in listing order, whatever happened to earlier files |
| LogClean.Clean | seatunnel-engine/seatunnel-engine-server/src/main/java/org/apache/seatunnel/engine/server/telemetry/log/TaskLogCleanService.java:137-175 | a null path aborts the pass (the exception that leaves run()); a missing path or a non-directory returns early; a null listing examines nothing; otherwise one outcome per prefixed file |
| LogClean.InvalidDirectoryTouchesNothing | seatunnel-engine/seatunnel-engine-server/src/main/java/org/apache/seatunnel/engine/server/telemetry/log/TaskLogCleanService.java:137-141 | with a null or invalid path or a failed listing, no file is examined or deleted |
| LogClean.ExaminedAreThePrefixedFiles | seatunnel-engine/seatunnel-engine-server/src/main/java/org/apache/seatunnel/engine/server/telemetry/log/TaskLogCleanService.java:147-152 | the examined files are exactly the listed files whose name starts with the prefix |
| LogClean.DeletedIff | seatunnel-engine/seatunnel-engine-server/src/main/java/org/apache/seatunnel/engine/server/telemetry/log/TaskLogCleanService.java:151-173 | a file is deleted iff it is listed under a valid directory, starts with the prefix, is not the log of an ended job, is strictly older than keepTime, and its delete succeeds |
| LogClean.DeletedWereAttemptedAndExamined | seatunnel-engine/seatunnel-engine-server/src/main/java/org/apache/seatunnel/engine/server/telemetry/log/TaskLogCleanService.java:164-172 | deleted files are a subset of the files whose delete was attempted, which are a subset of the examined files |
| LogClean.DeleteFailureDoesNotStopProcessing | seatunnel-engine/seatunnel-engine-server/src/main/java/org/apache/seatunnel/engine/server/telemetry/log/TaskLogCleanService.java:166-172 | under any two delete outcomes the same files are processed with the same decisions, differing only in whether a delete succeeded |
| LogClean.AgeEqualToKeepTimeIsRetained | seatunnel-engine/seatunnel-engine-server/src/main/java/org/apache/seatunnel/engine/server/telemetry/log/TaskLogCleanService.java:164-166 | a file whose age equals keepTime exactly is never deleted |
| LogClean.RetentionIsTrueAgeForEpochTimes | seatunnel-engine/seatunnel-engine-server/src/main/java/org/apache/seatunnel/engine/server/telemetry/log/TaskLogCleanService.java:144-166 | for non-negative timestamps the expiry test is the true age compared with keepTime, unchanged by the milliseconds conversion |
| LogClean.OverflowedAgeIsRetained | seatunnel-engine/seatunnel-engine-server/src/main/java/org/apache/seatunnel/engine/server/telemetry/log/TaskLogCleanService.java:164-166 | with a non-negative keepTime, a file whose true age overflows a long gets a negative wrapped age and is never deleted |
| LogClean.SkipIff | seatunnel-engine/seatunnel-engine-server/src/main/java/org/apache/seatunnel/engine/server/telemetry/log/TaskLogCleanService.java:154-160 | a file is skipped iff its name has an id whose job the history service knows to be ended |
| LogClean.RunningJobLogIsDeleted | seatunnel-engine/seatunnel-engine-server/src/main/java/org/apache/seatunnel/engine/server/telemetry/log/TaskLogCleanService.java:154-172 | the log of a known job that is not in an end state is deleted once it is old enough and the delete succeeds |
| CleanScheduler.ScheduleTask | seatunnel-engine/seatunnel-engine-server/src/main/java/org/apache/seatunnel/engine/server/telemetry/log/TaskLogCleanService.java:75-93 | an unparsable cron throws with no change; otherwise it schedules only when not running, always leaving running set; a missing next time or a shut-down executor schedules nothing |
| CleanScheduler.NewService | seatunnel-engine/seatunnel-engine-server/src/main/java/org/apache/seatunnel/engine/server/telemetry/log/TaskLogCleanService.java:48-73 | the constructor schedules exactly one execution iff the cron parses and has a next time |
| CleanScheduler.Shutdown | seatunnel-engine/seatunnel-engine-server/src/main/java/org/apache/seatunnel/engine/server/telemetry/log/TaskLogCleanService.java:127-130 | clears running and shuts the executor down, keeping executions already queued |
| CleanScheduler.ExecuteNext | seatunnel-engine/seatunnel-engine-server/src/main/java/org/apache/seatunnel/engine/server/telemetry/log/TaskLogCleanService.java:95-109 | an execution reschedules iff the clean runnable completes, a next time exists and the executor is live; a throwing task ends the chain |
| CleanScheduler.ApplyKeepsConsistent | seatunnel-engine/seatunnel-engine-server/src/main/java/org/apache/seatunnel/engine/server/telemetry/log/TaskLogCleanService.java:82-129 | every call, shutdown and execution keeps at most one execution queued, and none while stopped and not shut down |
| CleanScheduler.AtMostOneChain | seatunnel-engine/seatunnel-engine-server/src/main/java/org/apache/seatunnel/engine/server/telemetry/log/TaskLogCleanService.java:82-109 | from a consistent service, no sequence of events ever queues two executions |
| CleanScheduler.NewServiceIsConsistent | seatunnel-engine/seatunnel-engine-server/src/main/java/org/apache/seatunnel/engine/server/telemetry/log/TaskLogCleanService.java:61-72 | a freshly constructed service is consistent |
| CleanScheduler.SecondScheduleIsNoop | seatunnel-engine/seatunnel-engine-server/src/main/java/org/apache/seatunnel/engine/server/telemetry/log/TaskLogCleanService.java:82-92 | after one scheduleTask whose cron parsed, a second call before shutdown schedules nothing and changes nothing |
| CleanScheduler.ScheduleAfterShutdownIsRejected | seatunnel-engine/seatunnel-engine-server/src/main/java/org/apache/seatunnel/engine/server/telemetry/log/TaskLogCleanService.java:82-92 | shutdown resets running, but a later scheduleTask sets it again and is rejected by the shut-down executor |
| CleanScheduler.ThrowingTaskEndsChain | seatunnel-engine/seatunnel-engine-server/src/main/java/org/apache/seatunnel/engine/server/telemetry/log/TaskLogCleanService.java:96-108 | when the clean runnable throws, nothing is left queued, both while running and in the execution that still fires after shutdown |
| CleanScheduler.DeadChainStaysDead | seatunnel-engine/seatunnel-engine-server/src/main/java/org/apache/seatunnel/engine/server/telemetry/log/TaskLogCleanService.java:82-109 | once the chain has ended, no later calls or executions ever queue an execution again |
| SourceState.SetPendingTables | seatunnel-connectors-v2/connector-weaviate/src/main/java/org/apache/seatunnel/connectors/seatunnel/weaviate/source/WeaviateSourceState.java:12-16 | the setter replaces pendingTables and leaves pendingSplits unchanged |
| SourceState.SetPendingSplits | seatunnel-connectors-v2/connector-weaviate/src/main/java/org/apache/seatunnel/connectors/seatunnel/weaviate/source/WeaviateSourceState.java:12-16 | the setter replaces pendingSplits and leaves pendingTables unchanged |
| SourceState.ConstructorStoresVerbatim | seatunnel-connectors-v2/connector-weaviate/src/main/java/org/apache/seatunnel/connectors/seatunnel/weaviate/source/WeaviateSourceState.java:13-16 | the all-args constructor stores both arguments verbatim, and the getters return them |
| SourceState.SetterGetterLaws | seatunnel-connectors-v2/connector-weaviate/src/main/java/org/apache/seatunnel/connectors/seatunnel/weaviate/source/WeaviateSourceState.java:12-16 | setting a field to its own value changes nothing, a second set overrides the first, and the two setters commute |
| SourceState.EqualityIsFieldwise | seatunnel-connectors-v2/connector-weaviate/src/main/java/org/apache/seatunnel/connectors/seatunnel/weaviate/source/WeaviateSourceState.java:12-16 | two states are equal iff their table lists are equal element by element and their split maps have the same keys and lists |
| SplitEnumerator.KeyQueue | seatunnel-connectors-v2/connector-weaviate/src/main/java/org/apache/seatunnel/connectors/seatunnel/weaviate/source/WeaviateSourceSplitEnumertor.java:46 | the queue built from the key set lists every table key exactly once |
| SplitEnumerator.NewEnumerator | seatunnel-connectors-v2/connector-weaviate/src/main/java/org/apache/seatunnel/connectors/seatunnel/weaviate/source/WeaviateSourceSplitEnumertor.java:39-52 | a null state gives a queue of all table keys once each and an empty split map; a non-null state gives its list in order and its map exactly; null references it dereferences throw; tables and context are stored as given |
| SplitEnumerator.Open | seatunnel-connectors-v2/connector-weaviate/src/main/java/org/apache/seatunnel/connectors/seatunnel/weaviate/source/WeaviateSourceSplitEnumertor.java:54-55 | leaves the enumerator unchanged |
| SplitEnumerator.Run | seatunnel-connectors-v2/connector-weaviate/src/main/java/org/apache/seatunnel/connectors/seatunnel/weaviate/source/WeaviateSourceSplitEnumertor.java:57-58 | leaves the enumerator unchanged |
| SplitEnumerator.Close | seatunnel-connectors-v2/connector-weaviate/src/main/java/org/apache/seatunnel/connectors/seatunnel/weaviate/source/WeaviateSourceSplitEnumertor.java:60-61 | leaves the enumerator unchanged |
| SplitEnumerator.AddSplitsBack | seatunnel-connectors-v2/connector-weaviate/src/main/java/org/apache/seatunnel/connectors/seatunnel/weaviate/source/WeaviateSourceSplitEnumertor.java:63-64 | returned splits reach neither collection; the enumerator is unchanged |
| SplitEnumerator.CurrentUnassignedSplitSize | seatunnel-connectors-v2/connector-weaviate/src/main/java/org/apache/seatunnel/connectors/seatunnel/weaviate/source/WeaviateSourceSplitEnumertor.java:66-69 | returns 0 for every enumerator |
| SplitEnumerator.HandleSplitRequest | seatunnel-connectors-v2/connector-weaviate/src/main/java/org/apache/seatunnel/connectors/seatunnel/weaviate/source/WeaviateSourceSplitEnumertor.java:71-72 | assigns nothing; the enumerator is unchanged |
| SplitEnumerator.RegisterReader | seatunnel-connectors-v2/connector-weaviate/src/main/java/org/apache/seatunnel/connectors/seatunnel/weaviate/source/WeaviateSourceSplitEnumertor.java:74-75 | creates no entry; the enumerator is unchanged |
| SplitEnumerator.SnapshotState | seatunnel-connectors-v2/connector-weaviate/src/main/java/org/apache/seatunnel/connectors/seatunnel/weaviate/source/WeaviateSourceSplitEnumertor.java:77-80 | returns null for every checkpoint id |
| SplitEnumerator.NotifyCheckpointComplete | seatunnel-connectors-v2/connector-weaviate/src/main/java/org/apache/seatunnel/connectors/seatunnel/weaviate/source/WeaviateSourceSplitEnumertor.java:82-83 | leaves the enumerator unchanged |
| SplitEnumerator.UnassignedSizeIgnoresPendingWork | seatunnel-connectors-v2/connector-weaviate/src/main/java/org/apache/seatunnel/connectors/seatunnel/weaviate/source/WeaviateSourceSplitEnumertor.java:66-69 | the reported size is 0 even when a table is queued or some reader has a pending split, where pending work counts queued tables plus the splits of every reader |
| SplitEnumerator.CallbacksNeverChangeState | seatunnel-connectors-v2/connector-weaviate/src/main/java/org/apache/seatunnel/connectors/seatunnel/weaviate/source/WeaviateSourceSplitEnumertor.java:54-83 | any sequence of callbacks leaves tables, context, queue and split map exactly as constructed |
| SplitEnumerator.RestartFromSnapshot | seatunnel-connectors-v2/connector-weaviate/src/main/java/org/apache/seatunnel/connectors/seatunnel/weaviate/source/WeaviateSourceSplitEnumertor.java:39-80 | rebuilding from the enumerator's own snapshot is a fresh start: the queue holds the table keys once each and every pending split is lost |

## Left out

- Cron parsing, `ExecutionTime.nextExecution` and the delay arithmetic: they are calls into a third-party library plus wall-clock time. The model keeps only whether the cron parses and whether a next execution exists. Delay values, including negative ones, are not modelled.
- The `ScheduledExecutorService` and its thread: replaced by a count of queued executions and a shut-down flag. Only two executor behaviours are modelled: a schedule after `shutdown` is rejected, and a delayed task already queued still runs after `shutdown`.
- Concurrency: the `AtomicBoolean` is read and then written non-atomically, so two concurrent `scheduleTask` calls could both pass the guard. The enumerator's `stateLock` and `ConcurrentLinkedQueue` are also not modelled. Every event is modelled as atomic.
- File-system I/O: `exists`, `isDirectory`, `listFiles`, `lastModified` and `delete` are inputs, or a per-file oracle for the delete result.
- `JobHistoryService` and `JobStatus.isEndState`: modelled as an oracle from job id to "unknown" or "known, end state yes/no". An exception thrown by the service is not modelled.
- Logging.
- JobIdPattern.ExtractJobId: only ASCII letters, digits and `_` count as word characters for `\b`, and `java.util.regex` counts more. Two cases differ. First, every Java version counts a non-spacing combining mark (Unicode category Mn) that follows a letter or digit as a word character. Second, Java releases before 19 also count non-ASCII letters and digits. So the model can accept a digit run that Java rejects. It then finds an id where Java finds none (`123456789012345678\u0301.log`), or an earlier id than Java's. For example, for `e\u0301` + `000000000000000001` + `-` + `000000000000000002`, Java looks up job 2 and the model looks up job 1. The skip decision can therefore differ in either direction: the model may delete a log that Java skips, or skip one that Java age-tests. Unicode character classes are not modelled.
- JobIdPattern.FirstMatchFrom: rests on the same ASCII-only word-character test, so on names with a combining mark after a letter or digit, or (before Java 19) non-ASCII letters or digits next to the digits, it can return a position that `Matcher.find` rejects, and so a position earlier than Java's match or one where Java finds none.
- JobIdPattern.EmbeddedIdIsExtracted: its conditions on the head and tail use the same ASCII-only word-character test, so a head ending in a letter followed by a combining mark, or a tail starting with a combining mark, meets them although Java finds no match at the digits there.
- A `null` prefix: the filter then tests `name.startsWith("null-")` first, since `null + "-"` is `"null-"`, and `||` short-circuits when that holds. So an empty directory, or one holding only names that start with `"null-"`, is cleaned normally. Any other name makes `startsWith(null)` throw a `NullPointerException` inside `listFiles`, which ends `run()` before any file is examined. The model takes the prefix to be a non-null string.
- `null` entries in the restored table list: `new ConcurrentLinkedQueue<>(list)` throws on them. A `null` key in the table map throws only on the fresh path, when `keySet()` is copied into the queue; on the restore path the map is stored and never read. Table paths and splits are modelled as non-null values.
- SplitEnumerator.NewEnumerator: the enumerator is a value, so the model does not show Java's sharing by reference. `tables` is the caller's own map. The restored split map is a shallow `HashMap` copy, so its lists are the state record's lists. A later change to either object made through the caller or the state shows up in the enumerator in Java. Java also accepts values the model cannot represent: a `null` context, which is stored and never dereferenced, and `null` keys or `null` list values in the restored split map, which are copied as they are.
- The contents of `CatalogTable`, `WeaviateSourceSplit` and `Context`: modelled as opaque identities, and splits compare by value. `TablePath` is modelled only by its database, schema and table names.
- The `hashCode` and `toString` that Lombok generates for `WeaviateSourceState`.
- Split assignment, `addSplitsBack` de-duplication, and a snapshot that captures state: absent from the code, so not modelled.
