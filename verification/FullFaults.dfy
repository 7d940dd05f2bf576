/** What a fault does in a full sync, pass by pass and table by table (full_sync.py:109-123, 215-361). */
module FullFaults {
  import opened SqlText
  import opened Paging
  import opened TableRun
  import opened TableNames
  import opened Execution
  import opened FullExecution

  // ---------------------------------------------------------------- one table

  /** The loop's state when it comes to the i-th pass. */
  function StateAt(rows: seq<Row>, s: Servers, t: FullTask, i: nat): Copy
    requires i <= |t.events|
  {
    CopyPages(FullQuery(s), StartCopy(rows), t.events[..i])
  }

  /** The rows that the i-th query finds behind the offset; without a WHERE clause it selects them all. */
  function LeftAt(rows: seq<Row>, s: Servers, t: FullTask, i: nat): int
    requires i < |t.events|
  {
    var c := StateAt(rows, s, t, i);
    |c.source + t.events[i].arrivals| - c.offset
  }

  /** The loop comes to its i-th pass; there the one fetch fails, or the one insert of rows that are left. */
  predicate FailsAt(rows: seq<Row>, s: Servers, t: FullTask, i: nat)
    requires i < |t.events|
  {
    StateAt(rows, s, t, i).phase == Fetching &&
    (!t.events[i].fetched || (!t.events[i].inserted && LeftAt(rows, s, t, i) > 0))
  }

  lemma {:induction false} InsertLength(o: Order, r: Row, rows: seq<Row>)
    ensures |Insert(o, r, rows)| == |rows| + 1
    decreases |rows|
  {
    if rows != [] && !Before(o, r, rows[0]) { InsertLength(o, r, rows[1..]); }
  }

  lemma {:induction false} SortLength(o: Order, rows: seq<Row>)
    ensures |Sort(o, rows)| == |rows|
    decreases |rows|
  {
    if rows != [] {
      SortLength(o, rows[1..]);
      InsertLength(o, rows[0], Sort(o, rows[1..]));
    }
  }

  lemma AllSelected(o: Order, rows: seq<Row>)
    ensures |Select(o, All, rows)| == |rows|
  {
    FilterAll(rows);
    SortLength(o, rows);
  }

  /** The copy of a prepared table is aborted exactly when some pass it comes to fails. */
  lemma FullAbortsIff(rows: seq<Row>, s: Servers, t: FullTask)
    requires t.setup == Prepared
    ensures FullCopy(rows, s, t).phase == Aborted <==> exists i :: 0 <= i < |t.events| && FailsAt(rows, s, t, i)
  {
    var q, c := FullQuery(s), StartCopy(rows);
    LoopEndsIff(q, c, t.events);
    forall i | 0 <= i < |t.events|
      ensures Comes(q, c, t.events, i) && PassFails(q, CopyPages(q, c, t.events[..i]), t.events[i])
              <==> FailsAt(rows, s, t, i)
    {
      AllSelected(ByKey, StateAt(rows, s, t, i).source + t.events[i].arrivals);
      hide CopyPages, Select, OptimizeBatchSize;
    }
    hide CopyPages, FailsAt, PassFails, PassDrains, Comes, OptimizeBatchSize;
  }

  /** The pass that aborts a copy commits nothing. */
  lemma FailedPassCommitsNothing(rows: seq<Row>, s: Servers, t: FullTask, i: nat)
    requires t.setup == Prepared && i < |t.events| && FailsAt(rows, s, t, i)
    ensures var c := FullCopy(rows, s, t);
            c.phase == Aborted && c.copied == StateAt(rows, s, t, i).copied &&
            c.batches == StateAt(rows, s, t, i).batches
  {
    AllSelected(ByKey, StateAt(rows, s, t, i).source + t.events[i].arrivals);
    LoopAbortsAtIff(FullQuery(s), StartCopy(rows), t.events, i);
    hide Select, OptimizeBatchSize, CopyPages;
  }

  /** The process stops: while the loop is fetching, or behind it before the log has its final status. */
  predicate ProcessStops(w: World, s: Servers, t: FullTask) {
    var phase := FullCopyFor(w, s, t).phase;
    t.setup == Prepared && (phase == Fetching || (phase == Drained && t.diesAtEnd))
  }

  /** The table fails: a step of its preparation does, or its loop is aborted. */
  predicate FullTableFails(w: World, s: Servers, t: FullTask) {
    t.setup == TableFails || t.setup == TruncateFails || t.setup == ColumnsFail ||
    (t.setup == Prepared && FullCopyFor(w, s, t).phase == Aborted)
  }

  /**
   A table stops the ones behind it exactly when the process stops in it, and its log ends failed exactly when it fails.
   */
  lemma FullTableEnds(w: World, s: Servers, t: FullTask)
    ensures FullDies(w, s, t) <==> ProcessStops(w, s, t)
    ensures FullEnding(w, s, t) == NoLog <==> t.setup == LogFails
    ensures FullEnding(w, s, t) == Ended(Failed) <==> FullTableFails(w, s, t)
    ensures FullEnding(w, s, t) == Ended(Completed)
            <==> t.setup == Prepared && !FullTableFails(w, s, t) && !ProcessStops(w, s, t)
  {
    hide CopyPages, OptimizeBatchSize;
  }

  /**
   How far the preparation comes decides what is left of the target: nothing is touched before the truncate, nothing is
   there behind it, and behind the loop what the loop copied. The log says so in rows and whole pages.
   */
  lemma FullLogSays(w: World, s: Servers, t: FullTask)
    ensures t.setup == LogFails ==> SyncFull(w, s, t) == w
    ensures t.setup == TableFails || t.setup == TruncateFails ==> SyncFull(w, s, t).targets == w.targets
    ensures t.setup == ColumnsFail ==> SyncFull(w, s, t).targets == w.targets[TargetName(s, t.table) := []]
    ensures t.setup == Prepared ==>
              SyncFull(w, s, t).targets == w.targets[TargetName(s, t.table) := FullCopyFor(w, s, t).copied]
    ensures t.setup != LogFails ==>
              var u := SyncFull(w, s, t);
              var log := u.logs[|u.logs| - 1];
              |u.logs| == |w.logs| + 1 && u.logs[..|w.logs|] == w.logs &&
              log.schemaName == t.table.schemaName && log.tableName == t.table.tableName &&
              (log.status == Running <==> ProcessStops(w, s, t)) &&
              (log.status == Failed <==> FullTableFails(w, s, t)) &&
              log.rowsFetched == log.rowsInserted <= log.batchNumber * OptimizeBatchSize(s) &&
              log.rowsInserted == (if t.setup == Prepared then |FullCopyFor(w, s, t).copied| else 0) &&
              (log.batchNumber > 0 ==> log.rowsInserted > (log.batchNumber - 1) * OptimizeBatchSize(s))
  {
    FullTableEnds(w, s, t);
    if t.setup == Prepared {
      BatchesAreFull(FullQuery(s), StartCopy(Rows(w.sources, t.table)), t.events);
    }
    hide CopyPages, OptimizeBatchSize, TargetName, Count, Inserted;
  }

  // ---------------------------------------------------------------- all tables

  /** Whether a process stops in a table does not depend on the tables before it. */
  lemma {:induction false} FullStopsAlone(w: World, s: Servers, tasks: seq<FullTask>)
    requires DistinctTables(tasks)
    ensures SomeFullDies(w, s, tasks) <==> exists i :: 0 <= i < |tasks| && FullDies(w, s, tasks[i])
    decreases |tasks|
  {
    if tasks != [] {
      var u, rest := SyncFull(w, s, tasks[0]), tasks[1..];
      RestSources(w, s, tasks);
      forall i | 0 <= i < |rest| ensures rest[i] == tasks[i + 1] && FullDies(u, s, rest[i]) == FullDies(w, s, rest[i]) {
        SourceDecides(w, u, s, rest[i]);
      }
      hide SyncFull, FullDies, SameSources, DistinctTables;
      FullStopsAlone(u, s, rest);
      if i :| 0 <= i < |rest| && FullDies(u, s, rest[i]) { assert FullDies(w, s, tasks[i + 1]); }
      if i :| 0 <= i < |tasks| && FullDies(w, s, tasks[i]) {
        if i > 0 { assert FullDies(u, s, rest[i - 1]); }
      }
    }
  }

  /**
   An execution with both databases there returns if and only if no process stops in a table, and then reaches them all.
   */
  lemma FullReturnsIffNoneStops(w: World, s: Servers, tasks: seq<FullTask>)
    requires tasks != [] && DistinctTables(tasks)
    ensures var e := Execute(w, s, tasks, true);
            (e.exit == ReturnedNormally <==> forall i :: 0 <= i < |tasks| ==> !ProcessStops(w, s, tasks[i])) &&
            (e.exit != ReturnedNormally ==> e.exit == ProcessDied && e.status == InProgress) &&
            (e.exit == ReturnedNormally ==> FullReached(w, s, tasks, |tasks|) && |FullEnds(w, s, tasks)| == |tasks|)
    ensures Execute(w, s, tasks, false) == ExecutionResult(w, Broken, RaisedOther)
    ensures Execute(w, s, [], true) == Execute(w, s, [], false) == ExecutionResult(w, Done, ReturnedNormally)
  {
    FullStopsAlone(w, s, tasks);
    forall i | 0 <= i < |tasks| ensures FullDies(w, s, tasks[i]) <==> ProcessStops(w, s, tasks[i]) {
      FullTableEnds(w, s, tasks[i]);
    }
    hide FullDies, ProcessStops, SyncAllFull, FullEnds, DistinctTables;
    FullEndsOfLiving(w, s, tasks);
  }
}
