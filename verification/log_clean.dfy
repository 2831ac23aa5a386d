/** One pass of `TaskLogCleanService.TaskLogCleanThread.run`: which files of
    the log directory are examined, skipped, kept or deleted.

    The file system, the clock and the job-history service are inputs: the
    directory is a value (`LogDir`), the current time is `now`, the history
    service is an oracle from job id to `Some(isEndState)` (or `None` when the
    service knows no such job), and `File.delete` is an oracle telling whether
    deleting a given file succeeds. */
module LogClean {
  import opened Wrappers
  import opened JavaInts
  import opened JobIdPattern

  /** A directory entry: its name and `File.lastModified` in milliseconds. */
  datatype FileEntry = FileEntry(name: string, lastModified: Long)

  /** The configured log path. `NullPath` is a `null` path, on which
      `new File(path)` throws. `listing` is `None` when `File.listFiles`
      returns `null` (an I/O error while listing). */
  datatype LogDir =
    | NullPath
    | Missing
    | NotADirectory
    | Directory(listing: Option<seq<FileEntry>>)

  /** The service's `keepTime` (milliseconds) and file-name `prefix`. */
  datatype CleanConfig = CleanConfig(keepTime: Long, prefix: string)

  /** `JobHistoryService.getJobDetailState` followed by `isEndState`:
      `None` is a `null` state, `Some(e)` a known job whose status is an end
      state exactly when `e`. */
  type JobHistory = nat -> Option<bool>

  datatype Action = SkippedEndedJob | Retained | Deleted | DeleteFailed

  datatype FileOutcome = FileOutcome(file: FileEntry, action: Action)

  /** `InvalidDirectory` is the early return for a missing path or a path
      that is not a directory. `Aborted` is the `NullPointerException` that
      leaves `run()`; for the scheduler it is a task that threw, which ends
      the reschedule chain. */
  datatype CleanReport = Aborted | InvalidDirectory | Cleaned(outcomes: seq<FileOutcome>)

  predicate StartsWith(s: string, p: string) {
    |p| <= |s| && s[..|p|] == p
  }

  /** The `FilenameFilter` handed to `listFiles`. */
  predicate NameFilterAccepts(prefix: string, name: string) {
    StartsWith(name, prefix + "-") || StartsWith(name, prefix)
  }

  /** The `prefix + "-"` alternative adds nothing: the filter is a plain
      prefix test. */
  lemma NameFilterIsPrefixTest(prefix: string, name: string)
    ensures NameFilterAccepts(prefix, name) <==> StartsWith(name, prefix)
  {
  }

  /** The files `listFiles` returns under the name filter, in listing order. */
  function ListMatching(files: seq<FileEntry>, prefix: string): (r: seq<FileEntry>)
    ensures |r| <= |files|
    ensures forall f :: f in r <==> f in files && StartsWith(f.name, prefix)
  {
    if |files| == 0 then []
    else
      NameFilterIsPrefixTest(prefix, files[0].name);
      var rest := ListMatching(files[1..], prefix);
      if NameFilterAccepts(prefix, files[0].name) then [files[0]] + rest else rest
  }

  /** `checkTaskStatus`: true when the name embeds a job id AND the history
      service knows that job AND its status is an end state. Despite the
      caller naming the result `isTaskRunning`, it is true for ENDED jobs. */
  function CheckTaskStatus(history: JobHistory, name: string): (ended: bool)
    ensures ended <==> exists id :: ExtractJobId(name) == Some(id) && history(id) == Some(true)
    ensures (forall p :: !MatchesAt(name, p)) ==> !ended
  {
    match ExtractJobId(name)
    case None => false
    case Some(id) => history(id) == Some(true)
  }

  /** `TimeUnit.MILLISECONDS.toMillis`: `keepTime` is already in
      milliseconds, so the conversion is the identity. */
  function ToMillis(duration: Long): (millis: Long)
    ensures millis == duration
  {
    duration
  }

  /** `currentTimeMillis - lastModified > keepMillis` on Java longs, with
      `keepMillis = ToMillis(keepTime)`. */
  predicate RetentionExpired(now: Long, lastModified: Long, keepTime: Long) {
    LongSub(now, lastModified) > ToMillis(keepTime)
  }

  /** What the loop body does with one listed file. */
  function OutcomeOf(cfg: CleanConfig, now: Long, history: JobHistory,
                     deleteOk: FileEntry -> bool, f: FileEntry): (o: FileOutcome)
    ensures o.file == f
    ensures o.action == SkippedEndedJob <==> CheckTaskStatus(history, f.name)
    ensures o.action == Retained <==>
      !CheckTaskStatus(history, f.name) && !RetentionExpired(now, f.lastModified, cfg.keepTime)
    ensures o.action == Deleted <==>
      && !CheckTaskStatus(history, f.name)
      && RetentionExpired(now, f.lastModified, cfg.keepTime)
      && deleteOk(f)
  {
    if CheckTaskStatus(history, f.name) then FileOutcome(f, SkippedEndedJob)
    else if !RetentionExpired(now, f.lastModified, cfg.keepTime) then FileOutcome(f, Retained)
    else if deleteOk(f) then FileOutcome(f, Deleted)
    else FileOutcome(f, DeleteFailed)
  }

  /** The `for` loop over the listed files: every file gets its own outcome,
      whatever happened to the files before it. */
  function ProcessFiles(cfg: CleanConfig, now: Long, history: JobHistory,
                        deleteOk: FileEntry -> bool, files: seq<FileEntry>): (r: seq<FileOutcome>)
    ensures |r| == |files|
    ensures forall k :: 0 <= k < |files| ==> r[k] == OutcomeOf(cfg, now, history, deleteOk, files[k])
  {
    if |files| == 0 then []
    else [OutcomeOf(cfg, now, history, deleteOk, files[0])]
         + ProcessFiles(cfg, now, history, deleteOk, files[1..])
  }

  /** One run of the clean thread. */
  function Clean(dir: LogDir, cfg: CleanConfig, now: Long, history: JobHistory,
                 deleteOk: FileEntry -> bool): (r: CleanReport)
    ensures dir.NullPath? <==> r == Aborted
    ensures dir.Missing? || dir.NotADirectory? <==> r == InvalidDirectory
    ensures dir.Directory? && dir.listing.None? ==> r == Cleaned([])
    ensures dir.Directory? && dir.listing.Some? ==>
      r.Cleaned? && |r.outcomes| == |ListMatching(dir.listing.value, cfg.prefix)|
  {
    match dir
    case NullPath => Aborted
    case Missing => InvalidDirectory
    case NotADirectory => InvalidDirectory
    case Directory(None) => Cleaned([])
    case Directory(Some(files)) =>
      Cleaned(ProcessFiles(cfg, now, history, deleteOk, ListMatching(files, cfg.prefix)))
  }

  /** The files a report says were examined. */
  function Examined(r: CleanReport): set<FileEntry> {
    if !r.Cleaned? then {} else set o | o in r.outcomes :: o.file
  }

  /** The files a report says were deleted successfully. */
  function DeletedFiles(r: CleanReport): set<FileEntry> {
    if !r.Cleaned? then {} else set o | o in r.outcomes && o.action == Deleted :: o.file
  }

  /** The files on which `delete` was called, whatever it returned. */
  function AttemptedFiles(r: CleanReport): set<FileEntry> {
    if !r.Cleaned? then {}
    else set o | o in r.outcomes && (o.action == Deleted || o.action == DeleteFailed) :: o.file
  }

  /** A `null` path, an invalid path, or a listing that failed examines and
      deletes nothing. */
  lemma InvalidDirectoryTouchesNothing(dir: LogDir, cfg: CleanConfig, now: Long,
                                       history: JobHistory, deleteOk: FileEntry -> bool)
    requires !dir.Directory? || dir.listing.None?
    ensures Examined(Clean(dir, cfg, now, history, deleteOk)) == {}
    ensures DeletedFiles(Clean(dir, cfg, now, history, deleteOk)) == {}
  {
  }

  /** Exactly the listed files whose name starts with the prefix are examined. */
  lemma ExaminedAreThePrefixedFiles(files: seq<FileEntry>, cfg: CleanConfig, now: Long,
                                     history: JobHistory, deleteOk: FileEntry -> bool)
    ensures Examined(Clean(Directory(Some(files)), cfg, now, history, deleteOk))
         == set f | f in files && StartsWith(f.name, cfg.prefix)
  {
  }

  /** The deletion rule, both directions: a file is deleted exactly when it is
      listed under a valid directory, its name starts with the prefix, its job
      is not a known ended job, it is strictly older than the retention time
      and `delete` succeeds on it. */
  lemma DeletedIff(dir: LogDir, cfg: CleanConfig, now: Long, history: JobHistory,
                   deleteOk: FileEntry -> bool, f: FileEntry)
    ensures f in DeletedFiles(Clean(dir, cfg, now, history, deleteOk)) <==>
      && dir.Directory? && dir.listing.Some?
      && f in dir.listing.value
      && StartsWith(f.name, cfg.prefix)
      && !CheckTaskStatus(history, f.name)
      && RetentionExpired(now, f.lastModified, cfg.keepTime)
      && deleteOk(f)
  {
  }

  /** Every deleted file was examined, and `delete` was called on it. */
  lemma DeletedWereAttemptedAndExamined(dir: LogDir, cfg: CleanConfig, now: Long,
                                         history: JobHistory, deleteOk: FileEntry -> bool)
    ensures DeletedFiles(Clean(dir, cfg, now, history, deleteOk))
         <= AttemptedFiles(Clean(dir, cfg, now, history, deleteOk))
         <= Examined(Clean(dir, cfg, now, history, deleteOk))
  {
  }

  /** A failed delete stops nothing: with any two delete oracles, the same
      files are processed in the same order and receive the same decision,
      differing at most in whether the delete they were given succeeded. */
  lemma DeleteFailureDoesNotStopProcessing(
    cfg: CleanConfig, now: Long, history: JobHistory,
    deleteOk1: FileEntry -> bool, deleteOk2: FileEntry -> bool, files: seq<FileEntry>)
    ensures |ProcessFiles(cfg, now, history, deleteOk1, files)|
         == |ProcessFiles(cfg, now, history, deleteOk2, files)|
    ensures forall k :: 0 <= k < |files| ==>
      var a := ProcessFiles(cfg, now, history, deleteOk1, files)[k];
      var b := ProcessFiles(cfg, now, history, deleteOk2, files)[k];
      && a.file == b.file == files[k]
      && (a.action in {Deleted, DeleteFailed} <==> b.action in {Deleted, DeleteFailed})
      && (a.action !in {Deleted, DeleteFailed} ==> a.action == b.action)
  {
  }

  /** The comparison is strict: a file whose age equals `keepTime` exactly is
      never deleted. */
  lemma AgeEqualToKeepTimeIsRetained(cfg: CleanConfig, now: Long, history: JobHistory,
                                     deleteOk: FileEntry -> bool, f: FileEntry)
    requires now - f.lastModified == cfg.keepTime
    ensures OutcomeOf(cfg, now, history, deleteOk, f).action in {SkippedEndedJob, Retained}
  {
  }

  /** For timestamps at or after the epoch no wrap-around occurs, and the
      long comparison is the comparison of true ages. */
  lemma RetentionIsTrueAgeForEpochTimes(now: Long, lastModified: Long, keepTime: Long)
    requires 0 <= now && 0 <= lastModified
    ensures RetentionExpired(now, lastModified, keepTime) <==> now - lastModified > keepTime
  {
  }

  /** A file so old that its true age overflows a long gets a negative
      wrapped age, so with a non-negative `keepTime` it is never deleted. */
  lemma OverflowedAgeIsRetained(cfg: CleanConfig, now: Long, history: JobHistory,
                                deleteOk: FileEntry -> bool, f: FileEntry)
    requires cfg.keepTime >= 0
    requires now - f.lastModified > LONG_MAX
    ensures OutcomeOf(cfg, now, history, deleteOk, f).action in {SkippedEndedJob, Retained}
  {
  }

  /** The skip decision, both directions: a file is skipped exactly when its
      name embeds an id, the history service knows that job, and the job is in
      an end state. A file with no id, or an unknown job, goes on to the age
      test. */
  lemma SkipIff(cfg: CleanConfig, now: Long, history: JobHistory,
                deleteOk: FileEntry -> bool, f: FileEntry)
    ensures OutcomeOf(cfg, now, history, deleteOk, f).action == SkippedEndedJob <==>
      && (exists p :: MatchesAt(f.name, p))
      && history(ExtractJobId(f.name).value) == Some(true)
  {
  }

  /** The log of a job that is still RUNNING (known, not in an end state) is
      deleted once it is old enough: the status check protects only ended jobs. */
  lemma RunningJobLogIsDeleted(cfg: CleanConfig, now: Long, history: JobHistory,
                               deleteOk: FileEntry -> bool, f: FileEntry, id: nat)
    requires ExtractJobId(f.name) == Some(id) && history(id) == Some(false)
    requires RetentionExpired(now, f.lastModified, cfg.keepTime)
    requires deleteOk(f)
    ensures OutcomeOf(cfg, now, history, deleteOk, f).action == Deleted
  {
  }
}
