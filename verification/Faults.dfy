/**
 What a fault does, pass by pass and table by table: which faults end a run, how its log ends, and which stop the
 tables behind it (incremental_sync.py:129-143, 340-447).
 */
module Faults {
  import opened Values
  import opened SqlText
  import opened Paging
  import opened Retry
  import opened TableRun
  import opened TableNames
  import opened Checkpoints
  import opened Execution
  import opened IncrementalExecution

  // ---------------------------------------------------------------- one run

  /** The loop's state when a run comes to its i-th pass. */
  function StateAt(t: TableState, cfg: TableConfig, s: Script, i: nat): Copy
    requires Loops(t, cfg, s) && i <= |s.events|
  {
    CopyPages(QueryOf(t, cfg), StartCopy(t.source), ResolveAll(s.events)[..i])
  }

  /** The rows that the query of the i-th pass finds behind the offset. */
  function LeftAt(t: TableState, cfg: TableConfig, s: Script, i: nat): int
    requires Loops(t, cfg, s) && i < |s.events|
  {
    var c := StateAt(t, cfg, s, i);
    |Select(RunOrder(cfg), BoundOf(t, cfg), c.source + s.events[i].arrivals)| - c.offset
  }

  /** The run comes to its i-th pass; there three fetches fail, or three inserts of rows that are left. */
  predicate FailsAt(t: TableState, cfg: TableConfig, s: Script, i: nat)
    requires Loops(t, cfg, s) && i < |s.events|
  {
    StateAt(t, cfg, s, i).phase == Fetching &&
    (ThreeFail(s.events[i].fetch) || (ThreeFail(s.events[i].insert) && LeftAt(t, cfg, s, i) > 0))
  }

  /** The run comes to its i-th pass; there it finds nothing, or inserts less than a page. */
  predicate DrainsAt(t: TableState, cfg: TableConfig, s: Script, i: nat)
    requires Loops(t, cfg, s) && i < |s.events|
  {
    StateAt(t, cfg, s, i).phase == Fetching && !ThreeFail(s.events[i].fetch) &&
    (LeftAt(t, cfg, s, i) <= 0 || (!ThreeFail(s.events[i].insert) && LeftAt(t, cfg, s, i) < cfg.size))
  }

  lemma PassOf(t: TableState, cfg: TableConfig, s: Script, i: nat)
    requires Loops(t, cfg, s) && i < |s.events|
    ensures var q, events := QueryOf(t, cfg), ResolveAll(s.events);
            (Comes(q, StartCopy(t.source), events, i) && PassFails(q, StateAt(t, cfg, s, i), events[i])
             <==> FailsAt(t, cfg, s, i)) &&
            (Comes(q, StartCopy(t.source), events, i) && PassDrains(q, StateAt(t, cfg, s, i), events[i])
             <==> DrainsAt(t, cfg, s, i))
  {
    SucceedsUnlessThreeFail(s.events[i].fetch);
    SucceedsUnlessThreeFail(s.events[i].insert);
    hide CopyPages, Select, BoundOf;
  }

  /**
   A run that has entered its loop is aborted exactly when some pass it comes to fails, and drained exactly when one it
   comes to drains it; otherwise its events end, and its process dies, while it is still fetching.
   */
  lemma RunEndsIff(t: TableState, cfg: TableConfig, s: Script)
    requires Loops(t, cfg, s)
    ensures CopyOf(t, cfg, s).phase == Aborted <==> exists i :: 0 <= i < |s.events| && FailsAt(t, cfg, s, i)
    ensures CopyOf(t, cfg, s).phase == Drained <==> exists i :: 0 <= i < |s.events| && DrainsAt(t, cfg, s, i)
  {
    var q, c, events := QueryOf(t, cfg), StartCopy(t.source), ResolveAll(s.events);
    LoopEndsIff(q, c, events);
    forall i | 0 <= i < |s.events|
      ensures Comes(q, c, events, i) && PassFails(q, CopyPages(q, c, events[..i]), events[i]) <==> FailsAt(t, cfg, s, i)
      ensures Comes(q, c, events, i) && PassDrains(q, CopyPages(q, c, events[..i]), events[i])
              <==> DrainsAt(t, cfg, s, i)
    {
      PassOf(t, cfg, s, i);
    }
    hide CopyPages, FailsAt, DrainsAt, PassFails, PassDrains, Comes, BoundOf;
  }

  /** The pass that aborts a run commits nothing: the target keeps what the passes before it brought. */
  lemma FailedPassCommitsNothing(t: TableState, cfg: TableConfig, s: Script, i: nat)
    requires Loops(t, cfg, s) && i < |s.events| && FailsAt(t, cfg, s, i)
    ensures CopyOf(t, cfg, s).phase == Aborted && Delivered(t, cfg, s) == StateAt(t, cfg, s, i).copied
    ensures CopyOf(t, cfg, s).batches == StateAt(t, cfg, s, i).batches
  {
    PassOf(t, cfg, s, i);
    LoopAbortsAtIff(QueryOf(t, cfg), StartCopy(t.source), ResolveAll(s.events), i);
    hide PassFails, FailsAt;
  }

  // ---------------------------------------------------------------- one table

  /** The process stops: while the loop is fetching, or behind it before the log has its final status. */
  predicate ProcessStops(w: World, env: Environment, t: Task) {
    var phase := CopyFor(w, env, t).phase;
    t.script.setup == Ready &&
    (phase == Fetching || (phase == Drained && (t.script.save == Died || t.script.save == SavedThenDied)))
  }

  /** The table fails: its preparation does, or its loop is aborted, as it is when the database rejects the query. */
  predicate TableFails(w: World, env: Environment, t: Task) {
    t.script.setup == SetupFailed || (t.script.setup == Ready && CopyFor(w, env, t).phase == Aborted)
  }

  /**
   A table stops the ones behind it exactly when the process stops in it. Otherwise its log ends failed exactly when
   the table fails, and completed when not; only a column that is not there leaves no log.
   */
  lemma TableEnds(w: World, env: Environment, t: Task)
    ensures Dies(w, env, t) <==> ProcessStops(w, env, t)
    ensures EndingOf(w, env, t) == NoLog <==> t.script.setup == InvalidColumn
    ensures EndingOf(w, env, t) == Ended(Failed) <==> TableFails(w, env, t)
    ensures EndingOf(w, env, t) == Ended(Completed)
            <==> t.script.setup != InvalidColumn && !TableFails(w, env, t) && !ProcessStops(w, env, t)
  {
    hide CopyPages, BoundOf;
  }

  /** The log of a table says which table it was, how it ended, and how many rows its target grew by, in whole pages. */
  lemma LogSays(w: World, env: Environment, t: Task)
    requires t.script.setup != InvalidColumn
    ensures var u, n := SyncOne(w, env, t), TargetOf(env, t);
            var log := u.logs[|u.logs| - 1];
            |u.logs| == |w.logs| + 1 && u.logs[..|w.logs|] == w.logs &&
            log.schemaName == t.table.schemaName && log.tableName == t.table.tableName &&
            (log.status == Running <==> ProcessStops(w, env, t)) && (log.status == Failed <==> TableFails(w, env, t)) &&
            log.rowsFetched == log.rowsInserted == |Rows(u.targets, n)| - |Rows(w.targets, n)| &&
            log.rowsInserted <= log.batchNumber * t.config.size &&
            (log.batchNumber > 0 ==> log.rowsInserted > (log.batchNumber - 1) * t.config.size)
  {
    var v := ViewOf(w, env, t);
    TableEnds(w, env, t);
    OneLeavesOthers(w, env, t, t, TargetOf(env, t));
    if Loops(v, t.config, t.script) {
      BatchesAreFull(QueryOf(v, t.config), StartCopy(v.source), ResolveAll(t.script.events));
    }
    hide CopyPages, BoundOf, SavesMark, TargetName, Count, Inserted, MarkAtEnd;
  }

  // ---------------------------------------------------------------- all tables

  /** Whether a process stops in a table does not depend on the tables before it. */
  lemma {:induction false} StopsAlone(w: World, env: Environment, tasks: seq<Task>)
    requires DistinctTables(tasks)
    ensures SomeTaskDies(w, env, tasks) <==> exists i :: 0 <= i < |tasks| && Dies(w, env, tasks[i])
    decreases |tasks|
  {
    if tasks != [] {
      var u, rest := SyncOne(w, env, tasks[0]), tasks[1..];
      RestSide(w, env, tasks);
      hide SyncOne, Dies, SameSide, DistinctTables;
      StopsAlone(u, env, rest);
      if i :| 0 <= i < |rest| && Dies(u, env, rest[i]) { assert Dies(w, env, tasks[i + 1]); }
      if i :| 0 <= i < |tasks| && Dies(w, env, tasks[i]) {
        if i > 0 { assert Dies(u, env, rest[i - 1]); }
      }
    }
  }

  /** Without tables nothing is to do, and without a column or a database nothing is done. */
  lemma NothingDone(w: World, env: Environment, r: Request)
    ensures r.tasks == [] ==> Execute(w, env, r) == ExecutionResult(w, Done, ReturnedNormally)
    ensures r.tasks != [] && (r.columnMissing || !r.sourceUp || !r.targetUp) ==>
              Execute(w, env, r) == ExecutionResult(w, Broken, RaisedTableSync)
  {
  }

  /**
   An execution whose columns and databases are there returns if and only if no process stops in a table of it. Then
   every table is reached, whichever of the others fail, and leaves the log it would leave alone.
   */
  lemma ReturnsIffNoneStops(w: World, env: Environment, r: Request)
    requires r.tasks != [] && DistinctTables(r.tasks) && !r.columnMissing && r.sourceUp && r.targetUp
    ensures var e := Execute(w, env, r);
            (e.exit == ReturnedNormally <==> forall i :: 0 <= i < |r.tasks| ==> !ProcessStops(w, env, r.tasks[i])) &&
            (e.exit != ReturnedNormally ==> e.exit == ProcessDied && e.status == InProgress) &&
            (e.exit == ReturnedNormally ==>
               Reached(w, env, r.tasks, |r.tasks|) && |Ends(w, env, r.tasks)| == |r.tasks| &&
               e.world.logs == w.logs + AllLogs(w, env, r.tasks))
  {
    StopsAlone(w, env, r.tasks);
    forall i | 0 <= i < |r.tasks| ensures Dies(w, env, r.tasks[i]) <==> ProcessStops(w, env, r.tasks[i]) {
      TableEnds(w, env, r.tasks[i]);
    }
    hide Dies, ProcessStops, SyncAll, Ends, DistinctTables;
    EndsOfLiving(w, env, r.tasks);
    IsolationOfLogs(w, env, r.tasks);
    if Execute(w, env, r).exit == ReturnedNormally { AllLogsAlone(w, env, r.tasks); }
  }

  /** The logs of all tables, one after the other. */
  function AllLogs(w: World, env: Environment, tasks: seq<Task>): seq<Log>
    decreases |tasks|
  {
    if tasks == [] then [] else LogFor(w, env, tasks[0]) + AllLogs(w, env, tasks[1..])
  }

  lemma {:induction false} AllLogsAlone(w: World, env: Environment, tasks: seq<Task>)
    requires forall i :: 0 <= i < |tasks| ==> !Dies(w, env, tasks[i])
    ensures AloneLogs(w, env, tasks) == AllLogs(w, env, tasks)
    decreases |tasks|
  {
    if tasks != [] {
      hide Dies, LogFor;
      assert forall i :: 0 <= i < |tasks[1..]| ==> tasks[1..][i] == tasks[i + 1];
      AllLogsAlone(w, env, tasks[1..]);
    }
  }
}
