/** full_sync.py: the executor object, proved against the functions of FullExecution. */
module FullSync {
  import opened SqlText
  import opened Paging
  import opened TableRun
  import opened TableNames
  import opened Execution
  import opened Session
  import opened FullExecution

  class FullSyncExecutor {
    const servers: Servers
    const session: SyncSession
    const batchSize: nat

    constructor (servers: Servers, session: SyncSession)
      ensures this.servers == servers && this.session == session && Valid()
    {
      this.servers, this.session := servers, session;
      this.batchSize := OptimizeBatchSize(servers);
    }

    predicate Valid() { batchSize == OptimizeBatchSize(servers) }

    /** The world around this executor; it does not see the checkpoints. */
    function Contents(): World
      reads session
    {
      World(session.sources, session.targets, map[], session.logs, session.completedTables, session.totalRows)
    }

    predicate LogIsOpen(t: FullTask)
      reads session
    {
      |session.logs| > 0 &&
      session.logs[|session.logs| - 1] == Log(t.table.schemaName, t.table.tableName, Running, 0, 0, 0)
    }

    /** The world w, with its last log under way and its target truncated, after the loop has come to state c. */
    ghost predicate Mirrors(w: World, t: FullTask, c: Copy)
      requires |w.logs| > 0
      reads session
    {
      var last := |w.logs| - 1;
      session.sources == w.sources[t.table := c.source] &&
      session.targets == w.targets[TargetName(servers, t.table) := c.copied] &&
      session.logs == w.logs[..last] +
                      [w.logs[last].(rowsFetched := |c.copied|, rowsInserted := |c.copied|,
                                     batchNumber := c.batches)] &&
      session.completedTables == (if c.batches > 0 then Count(w.logs[..last], Completed) else w.completedTables) &&
      session.totalRows == (if c.batches > 0 then Inserted(w.logs[..last]) + |c.copied| else w.totalRows)
    }

    /** One pass of the loop; counters are the offset, the batch number and the row count. */
    method CopyPage(t: FullTask, e: PageEvent, offset: nat, batchNumber: nat, total: nat, ghost w: World, ghost c: Copy)
      returns (phase: Phase, newOffset: nat, newBatchNumber: nat, newTotal: nat)
      requires Valid() && |w.logs| > 0 && w.logs[|w.logs| - 1].status == Running
      requires Mirrors(w, t, c) && c.phase.Fetching? && offset == c.offset && batchNumber == c.batches &&
               total == |c.copied|
      modifies session`sources, session`targets, session`logs, session`completedTables, session`totalRows
      ensures var d := NextPage(FullQuery(servers), c, e);
              Mirrors(w, t, d) && phase == d.phase && newOffset == d.offset && newBatchNumber == d.batches &&
              newTotal == |d.copied|
    {
      hide Select, Page, Count, Inserted, TargetName, OptimizeBatchSize;
      var target := TargetName(servers, t.table);
      newOffset, newBatchNumber, newTotal := offset, batchNumber, total;
      session.Receive(t.table, e.arrivals);
      if !e.fetched {
        return Aborted, newOffset, newBatchNumber, newTotal;
      }
      var batch := Page(Select(ByKey, All, session.sources[t.table]), offset, batchSize);
      if batch == [] {
        return Drained, newOffset, newBatchNumber, newTotal;
      }
      var ok := session.BulkInsert(target, batch, e.inserted);
      if !ok {
        return Aborted, newOffset, newBatchNumber, newTotal;
      }
      newBatchNumber, newTotal := batchNumber + 1, total + |batch|;
      session.UpdateLog(newBatchNumber, newTotal, newTotal);
      newOffset := offset + batchSize;
      phase := if |batch| < batchSize then Drained else Fetching;
    }

    /** The loop and the final status of the log, on a table that has just been truncated. */
    method CopyAll(t: FullTask) returns (died: bool)
      requires Valid() && LogIsOpen(t) && t.table in session.sources
      requires TargetName(servers, t.table) in session.targets && session.targets[TargetName(servers, t.table)] == []
      modifies session`sources, session`targets, session`logs, session`completedTables, session`totalRows
      ensures var w := old(Contents()); var last := |w.logs| - 1;
              var c := CopyPages(FullQuery(servers), StartCopy(w.sources[t.table]), t.events);
              died == FullStatusOf(c, t).Running? &&
              Contents() == World(
                  w.sources[t.table := c.source],
                  w.targets[TargetName(servers, t.table) := c.copied],
                  w.entries,
                  w.logs[..last] + [Log(t.table.schemaName, t.table.tableName, FullStatusOf(c, t),
                                        |c.copied|, |c.copied|, c.batches)],
                  if c.batches > 0 then Count(w.logs[..last], Completed) else w.completedTables,
                  if c.batches > 0 then Inserted(w.logs[..last]) + |c.copied| else w.totalRows)
    {
      hide Count, Inserted, TargetName, OptimizeBatchSize;
      ghost var w, q := Contents(), FullQuery(servers);
      ghost var start := StartCopy(session.sources[t.table]);
      ghost var c := start;
      var phase, offset, batchNumber, total := Fetching, 0, 0, 0;
      assert w.logs == w.logs[..|w.logs| - 1] + [w.logs[|w.logs| - 1]];
      assert Mirrors(w, t, c);
      assert t.events[0..] == t.events;
      var i := 0;
      while i < |t.events| && phase == Fetching
        invariant 0 <= i <= |t.events|
        invariant phase == c.phase && offset == c.offset && batchNumber == c.batches && total == |c.copied|
        invariant Mirrors(w, t, c)
        invariant CopyPages(q, c, t.events[i..]) == CopyPages(q, start, t.events)
      {
        hide Mirrors, NextPage, CopyPages;
        CopyUnroll(q, c, t.events, i);
        phase, offset, batchNumber, total := CopyPage(t, t.events[i], offset, batchNumber, total, w, c);
        c := NextPage(q, c, t.events[i]);
        i := i + 1;
      }
      CopyStops(q, c, t.events[i..]);
      hide NextPage, CopyPages;
      if phase == Fetching || (phase == Drained && t.diesAtEnd) {
        return true;
      }
      session.FinishLog(if phase == Drained then Completed else Failed);
      return false;
    }

    /** sync_table: true when the process died; an exception is an ending other than completed. */
    method SyncTable(t: FullTask) returns (died: bool)
      requires Valid() && t.table in session.sources
      modifies session`sources, session`targets, session`logs, session`completedTables, session`totalRows
      ensures Contents() == SyncFull(old(Contents()), servers, t)
      ensures died == FullDies(old(Contents()), servers, t)
    {
      hide CopyPages, Count, Inserted, TargetName, OptimizeBatchSize;
      ghost var w := Contents();
      if t.setup.LogFails? {
        return false;
      }
      session.OpenLog(t.table);
      assert session.logs[..|session.logs| - 1] == w.logs;
      if t.setup.TableFails? || t.setup.TruncateFails? {
        session.FinishLog(Failed);
        return false;
      }
      session.Truncate(TargetName(servers, t.table));
      if t.setup.ColumnsFail? {
        session.FinishLog(Failed);
        return false;
      }
      died := CopyAll(t);
    }

    /** execute: every enabled table in turn, then the status from the logs. */
    method Execute(tasks: seq<FullTask>, connects: bool) returns (exit: Exit)
      requires Valid() && forall i :: 0 <= i < |tasks| ==> tasks[i].table in session.sources
      modifies session
      ensures var spec := FullExecution.Execute(old(Contents()), servers, tasks, connects);
              Contents() == spec.world && session.status == spec.status && exit == spec.exit
    {
      hide SyncFull, FullDies, Count;
      ghost var w := Contents();
      session.status := InProgress;
      if tasks == [] {
        session.status := Done;
        return ReturnedNormally;
      }
      if !connects {
        session.status := Broken;
        return RaisedOther;
      }
      assert tasks[0..] == tasks;
      for i := 0 to |tasks|
        invariant session.status == InProgress
        invariant SyncAllFull(Contents(), servers, tasks[i..]) == SyncAllFull(w, servers, tasks)
        invariant SomeFullDies(Contents(), servers, tasks[i..]) == SomeFullDies(w, servers, tasks)
        invariant session.sources.Keys >= w.sources.Keys
      {
        assert tasks[i..][0] == tasks[i] && tasks[i..][1..] == tasks[i + 1..];
        SourcesStay(Contents(), servers, tasks[i]);
        var died := SyncTable(tasks[i]);
        if died {
          return ProcessDied;
        }
      }
      var completed, failed := Count(session.logs, Completed), Count(session.logs, Failed);
      var total := completed + failed;
      if failed == total && total > 0 {
        session.status := Broken;
      } else if failed > 0 {
        session.status := Broken;
      } else if completed == total && total > 0 {
        session.status := Done;
      } else {
        session.status := Broken;
      }
      return ReturnedNormally;
    }

    lemma SourcesStay(w: World, s: Servers, t: FullTask)
      ensures SyncFull(w, s, t).sources.Keys >= w.sources.Keys
    {
    }
  }
}
