/** executor.py: SyncExecutor.execute and all its exits. */
module JobExecution {
  import opened Wrappers
  import opened Retry
  import opened Execution
  import opened TableRun
  import opened TableNames
  import opened IncrementalExecution
  import opened FullExecution

  datatype JobStatus = JobPending | JobRunning | JobCompleted | JobFailed | JobPaused

  datatype SyncType = FullType | IncrementalType | UnknownType

  datatype Raised = TableSyncError | ConnectionError | OtherError

  /** How the inner executor ends: it returns or raises, and has set the record's status itself. */
  datatype InnerEnd = Returns(status: ExecutionStatus) | Raises(error: Raised, status: ExecutionStatus)

  /** What happens to one call: creating the record, reaching the two servers, and the inner executor. */
  datatype CallScript = CallScript(created: bool, source: seq<bool>, target: seq<bool>, syncType: SyncType,
                                     inner: InnerEnd)

  const CONNECTOR_RETRIES := 3

  predicate Connects(s: CallScript) {
    Succeeds(s.source, CONNECTOR_RETRIES) && Succeeds(s.target, CONNECTOR_RETRIES)
  }

  /** The inner executor is called at all. */
  predicate RunsInner(s: CallScript) { s.created && Connects(s) && s.syncType != UnknownType }

  /** How the thread of a call ends. */
  datatype ThreadEnd = EndsCompleted | EndsFailed | EndsUnreachable | EscapedTableSync

  predicate Escapes(s: CallScript) { RunsInner(s) && s.inner.Raises? && s.inner.error.TableSyncError? }

  /** A connection error is handled apart from the other errors: nothing is raised and nothing rescheduled. */
  function EndOf(s: CallScript): ThreadEnd {
    if RunsInner(s) && s.inner.Returns? then EndsCompleted
    else if Escapes(s) then EscapedTableSync
    else if s.created && (!Connects(s) || (RunsInner(s) && s.inner.error.ConnectionError?)) then EndsUnreachable
    else EndsFailed
  }

  /** Both servers answer one of three attempts each, and the sync type is known: the inner executor is called. */
  predicate Called(s: CallScript) {
    s.created && !ThreeFail(s.source) && !ThreeFail(s.target) && s.syncType != UnknownType
  }

  /** One of the two servers does not answer in three attempts, or the inner executor meets a connection error. */
  predicate Unreachable(s: CallScript) {
    s.created &&
    (ThreeFail(s.source) || ThreeFail(s.target) ||
     (Called(s) && s.inner.Raises? && s.inner.error == ConnectionError))
  }

  /** Which calls end how, by what happens in them. */
  lemma EndOfCall(s: CallScript)
    ensures RunsInner(s) <==> Called(s)
    ensures EndOf(s) == EndsCompleted <==> Called(s) && s.inner.Returns?
    ensures EndOf(s) == EscapedTableSync <==> Called(s) && s.inner.Raises? && s.inner.error == TableSyncError
    ensures EndOf(s) == EndsUnreachable <==> Unreachable(s)
    ensures EndOf(s) == EndsFailed
            <==> !s.created ||
                 (!ThreeFail(s.source) && !ThreeFail(s.target) &&
                  (s.syncType == UnknownType || (s.inner.Raises? && s.inner.error == OtherError)))
  {
    SucceedsUnlessThreeFail(s.source);
    SucceedsUnlessThreeFail(s.target);
  }

  /** The job status a thread leaves behind. */
  function StatusAfter(end: ThreadEnd): JobStatus {
    match end
    case EndsCompleted => JobCompleted
    case EndsFailed => JobFailed
    case EndsUnreachable => JobFailed
    case EscapedTableSync => JobRunning
  }

  predicate Terminal(e: ExecutionStatus) { e == Done || e == Broken }

  class SyncExecutor {
    var jobStatus: JobStatus
    var execution: Option<ExecutionStatus>

    constructor (status: JobStatus)
      ensures jobStatus == status && execution == None
    {
      jobStatus, execution := status, None;
    }

    /** _handle_connection_error, and the last except clause of execute, which marks the same fields. */
    method MarkFailed()
      modifies this
      ensures jobStatus == JobFailed
      ensures execution == if old(execution).Some? then Some(Broken) else None
    {
      if execution.Some? {
        execution := Some(Broken);
      }
      jobStatus := JobFailed;
    }

    /**
     Every exit leaves the record terminal if there is one; the job stays running exactly when a TableSyncError
     escapes, and then the record is as the inner executor left it; a normal return of the inner executor is reported
     as completed whatever status it had set. An error is raised when there is no record, the type is unknown or the
     inner executor fails; not when a server does not answer.
     */
    method Execute(s: CallScript) returns (raised: bool)
      requires execution == None && Terminal(s.inner.status)
      modifies this
      ensures execution.Some? <==> s.created
      ensures execution.Some? ==> Terminal(execution.value)
      ensures jobStatus == JobRunning <==> Called(s) && s.inner.Raises? && s.inner.error == TableSyncError
      ensures jobStatus == JobRunning ==> execution == Some(s.inner.status) && !raised
      ensures jobStatus == JobCompleted <==> Called(s) && s.inner.Returns?
      ensures jobStatus == JobCompleted ==> execution == Some(Done)
      ensures jobStatus == JobFailed ==> execution == if s.created then Some(Broken) else None
      ensures jobStatus == StatusAfter(EndOf(s))
      ensures raised
              <==> !s.created ||
                   (!ThreeFail(s.source) && !ThreeFail(s.target) &&
                    (s.syncType == UnknownType || (s.inner.Raises? && s.inner.error == OtherError)))
    {
      EndOfCall(s);
      if !s.created {
        MarkFailed();
        return true;
      }
      execution := Some(Pending);
      jobStatus := JobRunning;
      var sourceOutcome, sourceWait := GetConnectorWithRetry(s.source, CONNECTOR_RETRIES);
      if sourceOutcome == Retry.Raised {
        MarkFailed();
        return false;
      }
      var targetOutcome, targetWait := GetConnectorWithRetry(s.target, CONNECTOR_RETRIES);
      if targetOutcome == Retry.Raised {
        MarkFailed();
        return false;
      }
      if s.syncType == UnknownType {
        MarkFailed();
        return true;
      }
      match s.inner
      case Returns(status) =>
        execution := Some(status);
        execution := Some(Done);
        jobStatus := JobCompleted;
        return false;
      case Raises(error, status) =>
        execution := Some(status);
        match error
        case TableSyncError =>
          return false;
        case ConnectionError =>
          MarkFailed();
          return false;
        case OtherError =>
          MarkFailed();
          return true;
    }
  }

  /** What SyncExecutor sees of an execution that does not die. */
  function InnerOf(r: ExecutionResult): InnerEnd
    requires r.exit != ProcessDied
  {
    if r.exit == RaisedTableSync then Raises(TableSyncError, r.status)
    else if r.exit == RaisedOther then Raises(OtherError, r.status)
    else Returns(r.status)
  }

  /**
   An incremental execution that returns is recorded as completed, which was its own status exactly when every
   enabled table completed. It leaves the job running exactly when a column is missing or a database does not answer,
   and then its record is failed.
   */
  method RunIncrementalJob(executor: SyncExecutor, w: World, env: Environment, r: Request, s: CallScript)
    returns (raised: bool)
    requires executor.execution == None && w.logs == [] && w.totalRows == 0
    requires IncrementalExecution.Execute(w, env, r).exit != ProcessDied
    requires Called(s) && s.syncType == IncrementalType &&
             s.inner == InnerOf(IncrementalExecution.Execute(w, env, r))
    modifies executor
    ensures executor.jobStatus == JobRunning <==> r.tasks != [] && (r.columnMissing || !r.sourceUp || !r.targetUp)
    ensures executor.jobStatus == JobRunning ==> executor.execution == Some(Broken)
    ensures !raised
    ensures executor.jobStatus != JobRunning ==>
              executor.jobStatus == JobCompleted && executor.execution == Some(Done) &&
              (executor.execution.value == IncrementalExecution.Execute(w, env, r).status
               <==> AllCompleted(w, env, r.tasks))
  {
    var inner := IncrementalExecution.Execute(w, env, r);
    raised := executor.Execute(s);
    if inner.exit == ReturnedNormally {
      DoneIffAllCompleted(w, env, r);
    }
  }

  /**
   A full execution that returns is recorded as completed too, which was its own status exactly when some table
   completed and none failed; it never leaves the job running.
   */
  method RunFullJob(executor: SyncExecutor, w: World, servers: Servers, tasks: seq<FullTask>, connects: bool,
                    s: CallScript)
    returns (raised: bool)
    requires executor.execution == None && w.logs == [] && w.totalRows == 0 && tasks != []
    requires FullExecution.Execute(w, servers, tasks, connects).exit != ProcessDied
    requires Called(s) && s.syncType == FullType &&
             s.inner == InnerOf(FullExecution.Execute(w, servers, tasks, connects))
    modifies executor
    ensures executor.jobStatus == if connects then JobCompleted else JobFailed
    ensures executor.execution == if connects then Some(Done) else Some(Broken)
    ensures raised <==> !connects
    ensures connects ==>
              (FullExecution.Execute(w, servers, tasks, connects).status == Done
               <==> Ended(Completed) in FullEnds(w, servers, tasks) && Ended(Failed) !in FullEnds(w, servers, tasks))
  {
    if connects {
      FullExecutionDoneIff(w, servers, tasks, connects);
    }
    raised := executor.Execute(s);
  }
}
