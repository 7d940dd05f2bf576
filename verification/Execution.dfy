/**
 What the two executors share: the databases they see, the logs of one execution,
 and the counters and status that are computed from the logs.
 */
module Execution {
  import opened Checkpoints
  import opened Paging
  import opened TableRun
  import opened TableNames

  /** The source and target tables, the stored checkpoints, this execution's logs and its two counters. */
  datatype World = World(sources: map<QualifiedName, seq<Row>>, targets: map<QualifiedName, seq<Row>>, entries: Entries,
                         logs: seq<Log>, completedTables: nat, totalRows: nat)

  datatype ExecutionStatus = Pending | InProgress | Done | Broken

  /** The rows of a table; a table that is not there has none. */
  function Rows(m: map<QualifiedName, seq<Row>>, n: QualifiedName): seq<Row> { if n in m then m[n] else [] }

  function Count(logs: seq<Log>, status: LogStatus): nat {
    if logs == [] then 0 else Count(logs[..|logs| - 1], status) + (if logs[|logs| - 1].status == status then 1 else 0)
  }

  /** Sum('rows_inserted') over the logs */
  function Inserted(logs: seq<Log>): nat {
    if logs == [] then 0 else Inserted(logs[..|logs| - 1]) + logs[|logs| - 1].rowsInserted
  }

  lemma LastLog(logs: seq<Log>, log: Log, status: LogStatus)
    ensures Count(logs + [log], status) == Count(logs, status) + (if log.status == status then 1 else 0)
    ensures Inserted(logs + [log]) == Inserted(logs) + log.rowsInserted
  {
  }

  lemma JoinLogs(a: seq<Log>, b: seq<Log>, c: seq<Log>)
    ensures (a + b) + c == a + (b + c)
  {
  }

  /** How one table of an execution ends; without a log the execution's counts do not see it. */
  datatype Ending = NoLog | Ended(status: LogStatus)

  function EndingCount(ends: seq<Ending>, e: Ending): nat {
    if ends == [] then 0 else (if ends[0] == e then 1 else 0) + EndingCount(ends[1..], e)
  }

  lemma {:induction false} AllOfOne(ends: seq<Ending>, e: Ending)
    ensures EndingCount(ends, e) <= |ends|
    ensures EndingCount(ends, e) == |ends| <==> forall i :: 0 <= i < |ends| ==> ends[i] == e
    ensures EndingCount(ends, e) == 0 <==> e !in ends
  {
    if ends != [] {
      AllOfOne(ends[1..], e);
      assert forall i :: 0 <= i < |ends[1..]| ==> ends[1..][i] == ends[i + 1];
      assert ends == [ends[0]] + ends[1..];
    }
  }

  lemma {:induction false} TwoKinds(ends: seq<Ending>, d: Ending, e: Ending)
    requires d != e
    ensures EndingCount(ends, d) + EndingCount(ends, e) <= |ends|
  {
    if ends != [] { TwoKinds(ends[1..], d, e); }
  }

  /** The end of IncrementalSyncExecutor.execute: counts against the number of enabled tables. */
  function IncrementalStatus(total: nat, completed: nat, failed: nat): ExecutionStatus {
    if failed == total && total > 0 then Broken
    else if failed > 0 then Broken
    else if completed == total && total > 0 then Done
    else Broken
  }

  /** The end of FullSyncExecutor.execute: counts against the number of finished logs. */
  function FullStatus(completed: nat, failed: nat): ExecutionStatus {
    var total := completed + failed;
    if failed == total && total > 0 then Broken
    else if failed > 0 then Broken
    else if completed == total && total > 0 then Done
    else Broken
  }

  /** The incremental executor reports success exactly when every table completed, also when a table never got a log. */
  lemma IncrementalDoneIff(ends: seq<Ending>)
    requires ends != []
    ensures IncrementalStatus(|ends|, EndingCount(ends, Ended(Completed)), EndingCount(ends, Ended(Failed))) == Done
            <==> forall i :: 0 <= i < |ends| ==> ends[i] == Ended(Completed)
  {
    AllOfOne(ends, Ended(Completed));
    TwoKinds(ends, Ended(Completed), Ended(Failed));
  }

  /**
   The full executor reports success exactly when some table completed and none failed: a table without a log is not
   missed.
   */
  lemma FullDoneIff(ends: seq<Ending>)
    ensures FullStatus(EndingCount(ends, Ended(Completed)), EndingCount(ends, Ended(Failed))) == Done
            <==> Ended(Completed) in ends && Ended(Failed) !in ends
  {
    AllOfOne(ends, Ended(Completed));
    AllOfOne(ends, Ended(Failed));
  }

  /** What the caller of an executor sees. */
  datatype Exit = ReturnedNormally | RaisedTableSync | RaisedOther | ProcessDied

  datatype ExecutionResult = ExecutionResult(world: World, status: ExecutionStatus, exit: Exit)

  // ---------------------------------------------------------------- completed_tables

  /** How far the counter is behind the completed logs. */
  function Behind(w: World): int { Count(w.logs, Completed) - w.completedTables }

  /** A table as the counters see it: how it ends, and whether it committed a batch on the way. */
  datatype Visit = Visit(ending: Ending, wrote: bool)

  predicate SomeWrote(visits: seq<Visit>) { exists i :: 0 <= i < |visits| && visits[i].wrote }

  /** The completed tables behind which no table commits a batch: the counter is not refreshed after they end. */
  function Unseen(visits: seq<Visit>): nat {
    if visits == [] then 0
    else (if visits[0].ending == Ended(Completed) && !SomeWrote(visits[1..]) then 1 else 0) + Unseen(visits[1..])
  }

  lemma {:induction false} UnseenZeroIff(visits: seq<Visit>)
    ensures Unseen(visits) == 0
            <==> forall i :: 0 <= i < |visits| && visits[i].ending == Ended(Completed) ==> SomeWrote(visits[i + 1..])
  {
    if visits != [] {
      var rest := visits[1..];
      UnseenZeroIff(rest);
      forall i | 0 <= i < |rest| ensures rest[i] == visits[i + 1] && rest[i + 1..] == visits[i + 2..] {}
      if forall i :: 0 <= i < |rest| && rest[i].ending == Ended(Completed) ==> SomeWrote(rest[i + 1..]) {
        forall i | 0 < i < |visits| && visits[i].ending == Ended(Completed) ensures SomeWrote(visits[i + 1..]) {
          assert rest[i - 1] == visits[i] && rest[i - 1 + 1..] == visits[i + 1..];
        }
      }
    }
  }

  lemma SomeWroteFirst(visits: seq<Visit>)
    requires visits != []
    ensures SomeWrote(visits) <==> visits[0].wrote || SomeWrote(visits[1..])
  {
  }

  lemma NoVisitNoWrite()
    ensures !SomeWrote([])
  {
  }
}
