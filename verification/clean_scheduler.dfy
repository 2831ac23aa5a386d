/** The scheduling logic of `TaskLogCleanService`: the `running` guard of
    `scheduleTask`, `shutdown`, and the self-rescheduling chain of
    `executeTaskAtNextExecution`.

    The single-thread executor is reduced to the number of executions it has
    queued and whether it was shut down. Cron parsing and the delay arithmetic
    are inputs: whether the cron expression parses, and whether the cron has a
    next execution time when a delay is computed. The delays themselves are not
    modelled. */
module CleanScheduler {

  /** `running` is the service's flag, `pendingRuns` the executions queued in
      the executor, `executorShutdown` whether `scheduler.shutdown()` ran. */
  datatype Service = Service(running: bool, pendingRuns: nat, executorShutdown: bool)

  /** Why a schedule did not happen. `NoNextExecution` is the
      `RuntimeException` of `calculateInitialDelay`/`calculateNextDelay`;
      `RejectedByExecutor` is the `RejectedExecutionException` of a shut-down
      executor. */
  datatype Failure = InvalidCron | TaskThrew | NoNextExecution | RejectedByExecutor

  datatype ScheduleOutcome = Scheduled | AlreadyRunning | ScheduleFailed(failure: Failure)

  datatype ScheduleResult = ScheduleResult(service: Service, outcome: ScheduleOutcome)

  datatype RunOutcome = Rescheduled | ChainEnded(failure: Failure)

  datatype RunResult = RunResult(service: Service, outcome: RunOutcome)

  /** The fields as the constructor initialises them, before its call to
      `scheduleTask`. */
  const Fresh: Service := Service(false, 0, false)

  /** `scheduleTask(cron, task)`. The cron is parsed before the guard, so an
      unparsable cron throws whatever the flag says. `running` is set before
      the initial delay is computed, so a failure after the guard leaves the
      flag set with nothing queued. */
  function ScheduleTask(s: Service, cronParses: bool, hasNextExecution: bool): (r: ScheduleResult)
    ensures r.outcome == Scheduled <==>
      cronParses && !s.running && hasNextExecution && !s.executorShutdown
    ensures r.service.pendingRuns == s.pendingRuns + (if r.outcome == Scheduled then 1 else 0)
    ensures r.service.executorShutdown == s.executorShutdown
    ensures r.service.running <==> s.running || cronParses
    ensures !cronParses ==> r == ScheduleResult(s, ScheduleFailed(InvalidCron))
    ensures cronParses && s.running ==> r == ScheduleResult(s, AlreadyRunning)
  {
    if !cronParses then ScheduleResult(s, ScheduleFailed(InvalidCron))
    else if s.running then ScheduleResult(s, AlreadyRunning)
    else
      var flagged := s.(running := true);
      if !hasNextExecution then ScheduleResult(flagged, ScheduleFailed(NoNextExecution))
      else if s.executorShutdown then ScheduleResult(flagged, ScheduleFailed(RejectedByExecutor))
      else ScheduleResult(flagged.(pendingRuns := s.pendingRuns + 1), Scheduled)
  }

  /** The constructor: fields initialised, then `scheduleTask`. An exception
      of `scheduleTask` escapes the constructor. */
  function NewService(cronParses: bool, hasNextExecution: bool): (r: ScheduleResult)
    ensures r.outcome == Scheduled <==> cronParses && hasNextExecution
    ensures r.outcome == Scheduled ==> r.service == Service(true, 1, false)
  {
    ScheduleTask(Fresh, cronParses, hasNextExecution)
  }

  /** `shutdown()`: clears the flag and shuts the executor down. Executions
      already queued are not cancelled (the executor's default policy runs
      existing delayed tasks after shutdown). */
  function Shutdown(s: Service): (r: Service)
    ensures !r.running && r.executorShutdown
    ensures r.pendingRuns == s.pendingRuns
  {
    Service(false, s.pendingRuns, true)
  }

  /** The executor fires one queued `executeTaskAtNextExecution`: the runnable
      runs, then the next delay is computed, then the next execution is
      queued, all inside one `try`; any exception is caught and ends the chain.
      The flag is never consulted or changed here. */
  function ExecuteNext(s: Service, taskCompletes: bool, hasNextExecution: bool): (r: RunResult)
    requires s.pendingRuns > 0
    ensures r.outcome == Rescheduled <==> taskCompletes && hasNextExecution && !s.executorShutdown
    ensures r.service.pendingRuns == s.pendingRuns - 1 + (if r.outcome == Rescheduled then 1 else 0)
    ensures r.service.running == s.running && r.service.executorShutdown == s.executorShutdown
    ensures !taskCompletes ==> r.outcome == ChainEnded(TaskThrew)
  {
    var fired := s.(pendingRuns := s.pendingRuns - 1);
    if !taskCompletes then RunResult(fired, ChainEnded(TaskThrew))
    else if !hasNextExecution then RunResult(fired, ChainEnded(NoNextExecution))
    else if s.executorShutdown then RunResult(fired, ChainEnded(RejectedByExecutor))
    else RunResult(s, Rescheduled)
  }

  /** Anything that can happen to the service. `Fire` with nothing queued
      does nothing. */
  datatype Event =
    | CallScheduleTask(cronParses: bool, hasNextExecution: bool)
    | CallShutdown
    | Fire(taskCompletes: bool, hasNextExecution: bool)

  function Apply(s: Service, e: Event): Service {
    match e
    case CallScheduleTask(c, n) => ScheduleTask(s, c, n).service
    case CallShutdown => Shutdown(s)
    case Fire(t, n) => if s.pendingRuns > 0 then ExecuteNext(s, t, n).service else s
  }

  function Replay(s: Service, es: seq<Event>): Service
    decreases |es|
  {
    if |es| == 0 then s else Replay(Apply(s, es[0]), es[1..])
  }

  /** At most one execution is ever queued, and a service that is neither
      running nor shut down has none. */
  predicate Consistent(s: Service) {
    && s.pendingRuns <= 1
    && (!s.running && !s.executorShutdown ==> s.pendingRuns == 0)
  }

  lemma ApplyKeepsConsistent(s: Service, e: Event)
    requires Consistent(s)
    ensures Consistent(Apply(s, e))
  {
  }

  /** Whatever the calls, crons and task outcomes, the service never has two
      executions queued: the guard and the rejection after shutdown together
      prevent a second chain. */
  lemma {:induction false} AtMostOneChain(s: Service, es: seq<Event>)
    requires Consistent(s)
    ensures Consistent(Replay(s, es))
    decreases |es|
  {
    if |es| > 0 {
      ApplyKeepsConsistent(s, es[0]);
      AtMostOneChain(Apply(s, es[0]), es[1..]);
    }
  }

  /** A constructed service is consistent. */
  lemma NewServiceIsConsistent(cronParses: bool, hasNextExecution: bool)
    ensures Consistent(NewService(cronParses, hasNextExecution).service)
  {
  }

  /** After one `scheduleTask` whose cron parsed, a second call before
      `shutdown` queues nothing and changes nothing. */
  lemma SecondScheduleIsNoop(s: Service, c1: bool, n1: bool, c2: bool, n2: bool)
    requires c1
    ensures var first := ScheduleTask(s, c1, n1).service;
      && ScheduleTask(first, c2, n2).outcome != Scheduled
      && ScheduleTask(first, c2, n2).service == first
  {
  }

  /** `shutdown` clears the flag, but the executor is gone: a later
      `scheduleTask` sets the flag again and is rejected. */
  lemma ScheduleAfterShutdownIsRejected(s: Service, n: bool)
    requires n
    ensures ScheduleTask(Shutdown(s), true, n) ==
      ScheduleResult(Service(true, s.pendingRuns, true), ScheduleFailed(RejectedByExecutor))
  {
  }

  /** A dead chain: nothing queued, and either the flag is set (so the guard
      blocks `scheduleTask`) or the executor is shut down. */
  predicate ChainDead(s: Service) {
    s.pendingRuns == 0 && (s.running || s.executorShutdown)
  }

  /** A task that throws ends the chain: nothing is left queued, whether the
      service is running or this is the execution that fires after
      `shutdown`. */
  lemma ThrowingTaskEndsChain(s: Service, n: bool)
    requires Consistent(s) && s.pendingRuns > 0
    ensures ChainDead(ExecuteNext(s, false, n).service)
  {
  }

  /** A dead chain stays dead: no sequence of calls, crons or task outcomes
      queues an execution again on this service instance. */
  lemma {:induction false} DeadChainStaysDead(s: Service, es: seq<Event>)
    requires ChainDead(s)
    ensures ChainDead(Replay(s, es))
    decreases |es|
  {
    if |es| > 0 {
      assert ChainDead(Apply(s, es[0]));
      DeadChainStaysDead(Apply(s, es[0]), es[1..]);
    }
  }
}
