/** incremental_sync.py: the executor object. Each method is proved against the function that specifies it. */
module IncrementalSync {
  import opened Wrappers
  import opened Values
  import opened SqlText
  import opened Checkpoints
  import opened Paging
  import opened Retry
  import opened TableRun
  import opened TableNames
  import opened Execution
  import opened Session
  import opened IncrementalExecution

  lemma ValsJoin(a: seq<Row>, b: seq<Row>)
    ensures Vals(a + b) == Vals(a) + Vals(b)
  {
  }

  /** The local variables of the loop in sync_table. */
  datatype Progress = Progress(offset: nat, batchNumber: nat, fetched: nat, inserted: nat, maxValue: Mark, phase: Phase)

  function ProgressOf(c: Copy, mark: Mark): Progress {
    Progress(c.offset, c.batches, |c.copied|, |c.copied|, Fold(mark, Vals(c.copied)), c.phase)
  }

  class IncrementalSyncExecutor {
    const env: Environment
    const checkpoints: CheckpointManager
    const session: SyncSession

    constructor (env: Environment, checkpoints: CheckpointManager, session: SyncSession)
      requires checkpoints.job == env.job
      ensures this.env == env && this.checkpoints == checkpoints && this.session == session && Valid()
    {
      this.env, this.checkpoints, this.session := env, checkpoints, session;
    }

    predicate Valid() { checkpoints.job == env.job }

    function Contents(): World
      reads session, checkpoints.db
    {
      World(session.sources, session.targets, checkpoints.db.entries, session.logs, session.completedTables,
            session.totalRows)
    }

    /** _get_max_incremental_value */
    method GetMaxIncrementalValue(batch: seq<Row>, currentMax: Mark) returns (maxValue: Mark)
      ensures maxValue == Fold(currentMax, Vals(batch))
    {
      maxValue := currentMax;
      for i := 0 to |batch|
        invariant Fold(maxValue, Vals(batch)[i..]) == Fold(currentMax, Vals(batch))
      {
        var rowValue := batch[i].val;
        assert Vals(batch)[i..][0] == rowValue && Vals(batch)[i..][1..] == Vals(batch)[i + 1..];
        if rowValue != Null {
          if maxValue == NoMark || Greater(rowValue, maxValue) {
            maxValue := Typed(rowValue);
          }
        }
      }
    }

    /** _insert_batch_with_retry: the batch lands once, or after three failures not at all. */
    method InsertBatchWithRetry(table: QualifiedName, rows: seq<Row>, attempts: seq<bool>)
      returns (ok: bool, slept: real)
      modifies session`targets
      ensures ok == !ThreeFail(attempts) && slept == PauseOf(attempts)
      ensures session.targets
              == if ok then old(session.targets)[table := Rows(old(session.targets), table) + rows]
                 else old(session.targets)
    {
      var retries := 0;
      var currentDelay := 1.0;
      slept := 0.0;
      while retries < MAX_RETRIES
        invariant 0 <= retries < MAX_RETRIES
        invariant forall j: nat :: j < retries && j < |attempts| ==> !attempts[j]
        invariant currentDelay == (if retries == 0 then 1.0 else if retries == 1 then 2.0 else 4.0)
        invariant slept == if retries == 0 then 0.0 else if retries == 1 then 1.0 else 3.0
        invariant session.targets == old(session.targets)
      {
        ok := session.BulkInsert(table, rows, Works(attempts, retries));
        if ok {
          return;
        }
        retries := retries + 1;
        if retries >= MAX_RETRIES {
          return;
        }
        slept := slept + currentDelay;
        currentDelay := currentDelay * 2.0;
      }
    }

    /** _fetch_batch_with_retry: a page of the query as it is when an attempt gets through. */
    method FetchBatchWithRetry(table: QualifiedName, q: PagedQuery, offset: nat, attempts: seq<bool>)
      returns (batch: Option<seq<Row>>, slept: real)
      ensures batch == if ThreeFail(attempts) then None
                       else Some(Page(Select(q.order, q.bound, Rows(session.sources, table)), offset, q.size))
      ensures slept == PauseOf(attempts)
    {
      SucceedsUnlessThreeFail(attempts);
      PausesDouble();
      var outcome, tried;
      outcome, tried, slept := RetryOnError(attempts, MAX_RETRIES, 1.0, 2.0);
      if outcome == Returned {
        batch := Some(Page(Select(q.order, q.bound, Rows(session.sources, table)), offset, q.size));
      } else {
        batch := None;
      }
    }

    /** The last log is the fresh log of task t. */
    predicate LogIsOpen(t: Task)
      reads session
    {
      |session.logs| > 0 && session.logs[|session.logs| - 1] == OpenedLog(t)
    }

    /** The world w, with its last log under way, after the loop of task t has come to state c. */
    ghost predicate Mirrors(w: World, t: Task, c: Copy)
      requires |w.logs| > 0
      reads session
    {
      var last := |w.logs| - 1;
      session.sources == w.sources[t.table := c.source] &&
      session.targets == w.targets[TargetOf(env, t) := Rows(w.targets, TargetOf(env, t)) + c.copied] &&
      session.logs == w.logs[..last] +
              [w.logs[last].(rowsFetched := |c.copied|, rowsInserted := |c.copied|, batchNumber := c.batches)] &&
      session.completedTables == (if c.batches > 0 then Count(w.logs[..last], Completed) else w.completedTables) &&
      session.totalRows == (if c.batches > 0 then Inserted(w.logs[..last]) + |c.copied| else w.totalRows)
    }

    /** The rest of a pass, on a batch that was fetched and is not empty. */
    method StoreBatch(t: Task, q: PagedQuery, e: RunEvent, p: Progress, rows: seq<Row>,
                      ghost mark: Mark, ghost w: World, ghost c: Copy)
      returns (r: Progress)
      requires |w.logs| > 0 && w.logs[|w.logs| - 1].status == Running
      requires Mirrors(w, t, c) && p == ProgressOf(c, mark)
      modifies session`targets, session`logs, session`completedTables, session`totalRows
      ensures var d := if Succeeds(e.insert, MAX_RETRIES)
                       then Copy(c.source, c.copied + rows, c.offset + q.size, c.batches + 1,
                                 if |rows| < q.size then Drained else Fetching)
                       else c.(phase := Aborted);
              r == ProgressOf(d, mark) && Mirrors(w, t, d)
    {
      hide Fold, Count, Inserted, TargetName, Vals, Succeeds;
      var target := TargetOf(env, t);
      var maxValue := GetMaxIncrementalValue(rows, p.maxValue);
      SucceedsUnlessThreeFail(e.insert);
      var ok, slept := InsertBatchWithRetry(target, rows, e.insert);
      if !ok {
        return p.(phase := Aborted);
      }
      r := Progress(p.offset + q.size, p.batchNumber + 1, p.fetched + |rows|, p.inserted + |rows|, maxValue,
                    if |rows| < q.size then Drained else Fetching);
      session.UpdateLog(r.batchNumber, r.fetched, r.inserted);
      ValsJoin(c.copied, rows);
      FoldBatches(mark, Vals(c.copied), Vals(rows));
      JoinRows(Rows(w.targets, target), c.copied, rows);
    }

    /** One pass of the loop. */
    method CopyPage(t: Task, q: PagedQuery, e: RunEvent, p: Progress, ghost mark: Mark, ghost w: World, ghost c: Copy)
      returns (r: Progress)
      requires |w.logs| > 0 && w.logs[|w.logs| - 1].status == Running
      requires Mirrors(w, t, c) && p == ProgressOf(c, mark) && p.phase == Fetching
      modifies session`sources, session`targets, session`logs, session`completedTables, session`totalRows
      ensures r == ProgressOf(NextPage(q, c, Resolve(e)), mark) && Mirrors(w, t, NextPage(q, c, Resolve(e)))
    {
      hide Select, Page, Fold, Count, Inserted, TargetName, Vals, Succeeds;
      session.Receive(t.table, e.arrivals);
      SucceedsUnlessThreeFail(e.fetch);
      var batch, slept := FetchBatchWithRetry(t.table, q, p.offset, e.fetch);
      if batch.None? {
        return p.(phase := Aborted);
      }
      var rows := batch.value;
      if rows == [] {
        return p.(phase := Drained);
      }
      r := StoreBatch(t, q, e, p, rows, mark, w, c.(source := c.source + e.arrivals));
    }

    /** The fetch-and-insert loop of sync_table, on the log created last. */
    method CopyBatches(t: Task, q: PagedQuery, mark: Mark) returns (p: Progress)
      requires LogIsOpen(t)
      requires t.table in session.sources && TargetOf(env, t) in session.targets
      modifies session`sources, session`targets, session`logs, session`completedTables, session`totalRows
      ensures var c := CopyPages(q, StartCopy(old(session.sources)[t.table]), ResolveAll(t.script.events));
              p == ProgressOf(c, mark) && Mirrors(old(Contents()), t, c)
    {
      var events := t.script.events;
      ghost var w, pages := Contents(), ResolveAll(events);
      ghost var start := StartCopy(session.sources[t.table]);
      ghost var c := start;
      p := Progress(0, 0, 0, 0, mark, Fetching);
      StartMirrors(w, t);
      assert pages[0..] == pages;
      var i := 0;
      while i < |events| && p.phase == Fetching
        invariant 0 <= i <= |events|
        invariant p == ProgressOf(c, mark) && Mirrors(w, t, c)
        invariant CopyPages(q, c, pages[i..]) == CopyPages(q, start, pages)
      {
        hide Mirrors, NextPage, CopyPages, Fold;
        CopyUnroll(q, c, pages, i);
        p := CopyPage(t, q, events[i], p, mark, w, c);
        c := NextPage(q, c, pages[i]);
        i := i + 1;
      }
      CopyStops(q, c, pages[i..]);
    }

    lemma StartMirrors(w: World, t: Task)
      requires w == Contents() && |w.logs| > 0
      requires w.logs[|w.logs| - 1] == OpenedLog(t)
      requires t.table in w.sources && TargetOf(env, t) in w.targets
      ensures Mirrors(w, t, StartCopy(w.sources[t.table]))
    {
      var rows := w.targets[TargetOf(env, t)];
      assert rows + [] == rows;
      assert w.logs == w.logs[..|w.logs| - 1] + [w.logs[|w.logs| - 1]];
    }

    /** The loop of sync_table, the checkpoint and the final log status. */
    method CopyAndSave(t: Task, q: PagedQuery, mark: Mark) returns (died: bool)
      requires Valid() && LogIsOpen(t)
      requires t.table in session.sources && TargetOf(env, t) in session.targets
      modifies session`sources, session`targets, session`logs, session`completedTables, session`totalRows,
               checkpoints.db
      ensures var c := CopyPages(q, StartCopy(old(session.sources)[t.table]), ResolveAll(t.script.events));
              died == StatusOf(c, t.script.save).Running? &&
              Contents() == Closed(old(Contents()), env, t, mark, c)
    {
      hide CopyPages, Fold, Count, Inserted, MarkText, TargetName;
      var p := CopyBatches(t, q, mark);
      if p.phase == Fetching {
        return true;
      }
      if p.phase == Aborted {
        session.FinishLog(Failed);
        return false;
      }
      if p.maxValue != NoMark && p.maxValue != mark {
        var saved := checkpoints.CreateOrUpdate(t.table.schemaName, t.table.tableName, Some(MarkText(p.maxValue)),
                                                t.script.save.Writes());
      }
      if t.script.save.Dies() {
        return true;
      }
      session.FinishLog(Completed);
      return false;
    }

    /** The part of sync_table after the checkpoint is read. */
    method SyncPrepared(t: Task, mark: Mark) returns (died: bool)
      requires Valid() && t.table in session.sources && TargetOf(env, t) in session.targets && LogIsOpen(t)
      modifies session`sources, session`targets, session`logs, session`completedTables, session`totalRows,
               checkpoints.db
      ensures var c := CopyFrom(old(session.sources)[t.table], t, mark);
              died == StatusOf(c, t.script.save).Running? &&
              Contents() == Closed(old(Contents()), env, t, mark, c)
    {
      hide CopyPages, Fold, WhereBound, Count, Inserted, MarkText, TargetName;
      var bound := WhereBound(mark, t.config.dialect, t.config.column.kind, t.config.session, t.config.orderBy);
      if bound.Invalid? {
        // The database rejects the query on every attempt.
        ghost var rows := session.targets[TargetOf(env, t)];
        assert rows + [] == rows;
        session.FinishLog(Failed);
        return false;
      }
      died := CopyAndSave(t, Query(RunOrder(t.config), bound, t.config.size), mark);
    }

    /** sync_table: true when the process died; an exception is an ending other than completed. */
    method SyncTable(t: Task) returns (died: bool)
      requires Valid() && t.table in session.sources
      modifies session`sources, session`targets, session`logs, session`completedTables, session`totalRows,
               checkpoints.db
      ensures Contents() == SyncOne(old(Contents()), env, t)
      ensures died == Dies(old(Contents()), env, t)
    {
      if t.script.setup.InvalidColumn? {
        return false;
      }
      ghost var w := Contents();
      session.OpenLog(t.table);
      if t.script.setup.SetupFailed? {
        session.FinishLog(Failed);
        assert session.logs == w.logs + LogFor(w, env, t);
        return false;
      }
      OpenCopyClose(w, env, t);
      hide CopyFrom, Closed, SyncOne, CopyOf, WhereBound, StartMark, TargetName;
      session.CreateTable(TargetOf(env, t));
      assert Contents() == Opened(w, env, t);
      var read := checkpoints.GetValue(t.table.schemaName, t.table.tableName, true);
      died := SyncPrepared(t, StartMark(read.value, t.config.column));
    }

    /** execute: every enabled table in turn, then the status from the logs. */
    method Execute(r: Request) returns (exit: Exit)
      requires Valid() && forall i :: 0 <= i < |r.tasks| ==> r.tasks[i].table in session.sources
      modifies session, checkpoints.db
      ensures var spec := IncrementalExecution.Execute(old(Contents()), env, r);
              Contents() == spec.world && session.status == spec.status && exit == spec.exit
    {
      hide SyncOne, Dies, Count;
      ghost var w := Contents();
      session.status := InProgress;
      if r.tasks == [] {
        session.status := Done;
        return ReturnedNormally;
      }
      if r.columnMissing || !r.sourceUp || !r.targetUp {
        session.status := Broken;
        return RaisedTableSync;
      }
      assert r.tasks[0..] == r.tasks;
      for i := 0 to |r.tasks|
        invariant session.status == InProgress
        invariant SyncAll(Contents(), env, r.tasks[i..]) == SyncAll(w, env, r.tasks)
        invariant SomeTaskDies(Contents(), env, r.tasks[i..]) == SomeTaskDies(w, env, r.tasks)
        invariant session.sources.Keys >= w.sources.Keys
      {
        assert r.tasks[i..][0] == r.tasks[i] && r.tasks[i..][1..] == r.tasks[i + 1..];
        OneLogs(Contents(), env, r.tasks[i]);
        var died := SyncTable(r.tasks[i]);
        if died {
          return ProcessDied;
        }
      }
      var completed, failed := Count(session.logs, Completed), Count(session.logs, Failed);
      if failed == |r.tasks| {
        session.status := Broken;
      } else if failed > 0 {
        session.status := Broken;
      } else if completed == |r.tasks| {
        session.status := Done;
      } else {
        session.status := Broken;
      }
      return ReturnedNormally;
    }
  }
}
