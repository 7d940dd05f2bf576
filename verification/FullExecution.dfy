/** FullSyncExecutor over one table and over several, as functions on the world (full_sync.py:81-361). */
module FullExecution {
  import opened Wrappers
  import opened SqlText
  import opened Paging
  import opened TableRun
  import opened TableNames
  import opened Execution

  const DEFAULT_BATCH_SIZE := 5000
  const MAX_BATCH_SIZE := 10000

  function Min(a: nat, b: nat): nat { if a < b then a else b }

  /** _optimize_batch_size, for the three known databases */
  function OptimizeBatchSize(s: Servers): (size: nat)
    ensures 0 < size <= MAX_BATCH_SIZE
    ensures size == 10000 <==> s.source == Postgres && s.target == Postgres
    ensures size == 3000 <==> s.source == MySql || s.target == MySql
    ensures size == 2000 <==> (s.source == SqlServer || s.target == SqlServer) && s.source != MySql && s.target != MySql
  {
    if s.source.Postgres? && s.target.Postgres? then Min(MAX_BATCH_SIZE, DEFAULT_BATCH_SIZE * 2)
    else if s.source.MySql? || s.target.MySql? then Min(DEFAULT_BATCH_SIZE, 3000)
    else Min(DEFAULT_BATCH_SIZE, 2000)
  }

  /** How far sync_table comes before its loop. */
  datatype FullSetup = LogFails | TableFails | TruncateFails | ColumnsFail | Prepared

  /** The events have no retries here. The process may also die between the loop and the last save of the log. */
  datatype FullTask = FullTask(table: TableName, setup: FullSetup, events: seq<PageEvent>, diesAtEnd: bool)

  predicate Truncates(t: FullTask) { t.setup.ColumnsFail? || t.setup.Prepared? }

  function FullQuery(s: Servers): PagedQuery { Query(ByKey, All, OptimizeBatchSize(s)) }

  function FullCopy(rows: seq<Row>, s: Servers, t: FullTask): Copy {
    if t.setup.Prepared? then CopyPages(FullQuery(s), StartCopy(rows), t.events)
    else StartCopy(rows).(phase := Aborted)
  }

  function FullStatusOf(c: Copy, t: FullTask): LogStatus {
    StatusOf(c, if t.diesAtEnd then Died else Saved)
  }

  function FullEnding(w: World, s: Servers, t: FullTask): Ending {
    if t.setup.LogFails? then NoLog else Ended(FullStatusOf(FullCopy(Rows(w.sources, t.table), s, t), t))
  }

  function SyncFull(w: World, s: Servers, t: FullTask): World {
    var c := FullCopy(Rows(w.sources, t.table), s, t);
    if t.setup.LogFails? then w
    else World(
        if t.setup.Prepared? then w.sources[t.table := c.source] else w.sources,
        if Truncates(t) then w.targets[TargetName(s, t.table) := c.copied] else w.targets,
        w.entries,
        w.logs + [Log(t.table.schemaName, t.table.tableName, FullStatusOf(c, t), |c.copied|, |c.copied|, c.batches)],
        if c.batches > 0 then Count(w.logs, Completed) else w.completedTables,
        if c.batches > 0 then Inserted(w.logs) + |c.copied| else w.totalRows)
  }

  predicate FullDies(w: World, s: Servers, t: FullTask) { FullEnding(w, s, t) == Ended(Running) }

  function SyncAllFull(w: World, s: Servers, tasks: seq<FullTask>): World
    decreases |tasks|
  {
    if tasks == [] then w
    else if FullDies(w, s, tasks[0]) then SyncFull(w, s, tasks[0])
    else SyncAllFull(SyncFull(w, s, tasks[0]), s, tasks[1..])
  }

  predicate SomeFullDies(w: World, s: Servers, tasks: seq<FullTask>)
    decreases |tasks|
  {
    tasks != [] && (FullDies(w, s, tasks[0]) || SomeFullDies(SyncFull(w, s, tasks[0]), s, tasks[1..]))
  }

  // ---------------------------------------------------------------- convergence

  /** Keys stay distinct while the table is copied, and no new row sorts before the last one copied. */
  predicate FullAdmissible(rows: seq<Row>, s: Servers, t: FullTask) {
    DistinctKeys(rows) && Keyed(FullQuery(s), StartCopy(rows), t.events) &&
    Undisturbed(FullQuery(s), StartCopy(rows), t.events)
  }

  lemma FullCopyKeeps(rows: seq<Row>, s: Servers, t: FullTask)
    requires FullAdmissible(rows, s, t) && t.setup.Prepared?
    ensures CopyInv(FullQuery(s), FullCopy(rows, s, t))
  {
    StartInv(FullQuery(s), rows);
    CopyKeeps(FullQuery(s), StartCopy(rows), t.events);
  }

  /**
   A full sync that completes makes the target the source as of its last query, as a multiset, whatever the target
   held before; the log counts all its rows as fetched and as inserted.
   */
  lemma FullSyncConverges(w: World, s: Servers, t: FullTask)
    requires FullAdmissible(Rows(w.sources, t.table), s, t)
    requires FullEnding(w, s, t) == Ended(Completed)
    ensures var u := SyncFull(w, s, t); var log := u.logs[|w.logs|];
            var source := Rows(u.sources, t.table); var target := Rows(u.targets, TargetName(s, t.table));
            multiset(target) == multiset(source) && Sorted(ByKey, target) &&
            log.rowsFetched == log.rowsInserted == |source| &&
            log.batchNumber == BatchesFor(|source|, OptimizeBatchSize(s))
  {
    var rows := Rows(w.sources, t.table);
    FullCopyKeeps(rows, s, t);
    hide OptimizeBatchSize, FullCopy, Select, TargetName;
    var c := FullCopy(rows, s, t);
    DrainedBatches(FullQuery(s), c);
    AllRowsSelected(c.source);
  }

  /** The rule for arrivals is exact: a completed full sync equals its source if and only if nothing disturbed it. */
  lemma FullSyncConvergesIff(w: World, s: Servers, t: FullTask)
    requires DistinctKeys(Rows(w.sources, t.table))
    requires Keyed(FullQuery(s), StartCopy(Rows(w.sources, t.table)), t.events)
    requires FullEnding(w, s, t) == Ended(Completed)
    ensures var u := SyncFull(w, s, t);
            multiset(Rows(u.targets, TargetName(s, t.table))) == multiset(Rows(u.sources, t.table))
            <==> Undisturbed(FullQuery(s), StartCopy(Rows(w.sources, t.table)), t.events)
  {
    var rows := Rows(w.sources, t.table);
    var c := FullCopy(rows, s, t);
    if Undisturbed(FullQuery(s), StartCopy(rows), t.events) {
      FullSyncConverges(w, s, t);
    } else {
      DrainedDeliversIff(FullQuery(s), rows, t.events);
      var r :| r in c.source && r !in c.copied;
      assert r in multiset(c.source) && r !in multiset(c.copied);
    }
  }

  /**
   A full sync that ends after the truncate in any other way leaves the first batches of the ordered source, all of them
   counted.
   */
  lemma FullSyncLeavesWholeBatches(w: World, s: Servers, t: FullTask)
    requires FullAdmissible(Rows(w.sources, t.table), s, t)
    requires Truncates(t) && !FullCopy(Rows(w.sources, t.table), s, t).phase.Drained?
    ensures var u := SyncFull(w, s, t); var log := u.logs[|w.logs|];
            var source := Rows(u.sources, t.table); var target := Rows(u.targets, TargetName(s, t.table));
            var k := log.batchNumber * OptimizeBatchSize(s);
            k <= |Select(ByKey, All, source)| && target == Select(ByKey, All, source)[..k] &&
            log.rowsInserted == |target|
  {
    hide CopyPages, Select, Count, Inserted, OptimizeBatchSize, TargetName;
    if t.setup.Prepared? {
      FullCopyKeeps(Rows(w.sources, t.table), s, t);
    }
  }

  /** Without faults, over a source at rest, the sync completes as soon as it may ask for more rows than there are. */
  lemma FullSyncCompletes(w: World, s: Servers, t: FullTask)
    requires DistinctKeys(Rows(w.sources, t.table)) && t.setup.Prepared? && Quiet(t.events) && !t.diesAtEnd
    requires |t.events| * OptimizeBatchSize(s) > |Rows(w.sources, t.table)|
    ensures FullEnding(w, s, t) == Ended(Completed)
    ensures multiset(Rows(SyncFull(w, s, t).targets, TargetName(s, t.table))) == multiset(Rows(w.sources, t.table))
  {
    hide OptimizeBatchSize, CopyPages, NextPage, Select, TargetName;
    var rows := Rows(w.sources, t.table);
    StartInv(FullQuery(s), rows);
    QuietCopy(FullQuery(s), StartCopy(rows), t.events);
    AllRowsSelected(rows);
    WholeIsPrefix(Select(ByKey, All, rows));
  }

  lemma WholeIsPrefix(s: seq<Row>)
    ensures s[..|s|] == s
  {
  }

  /** Without a WHERE clause the ordered result is the table. */
  lemma AllRowsSelected(rows: seq<Row>)
    requires DistinctKeys(rows)
    ensures var all := Select(ByKey, All, rows);
            multiset(all) == multiset(rows) && |all| == |rows| && Sorted(ByKey, all)
  {
    SelectSpec(ByKey, All, rows);
    FilterAll(rows);
    var all := Select(ByKey, All, rows);
    assert |multiset(all)| == |all| && |multiset(rows)| == |rows|;
  }

  // ---------------------------------------------------------------- several tables

  predicate DistinctTables(tasks: seq<FullTask>) {
    forall i, j :: 0 <= i < j < |tasks| ==> tasks[i].table != tasks[j].table
  }

  /** What one table's sync does to all the others' sources, to any target, and to the logs. */
  lemma OneFullStep(w: World, s: Servers, t: FullTask, n: QualifiedName)
    ensures SyncFull(w, s, t).logs == w.logs + FullLogFor(w, s, t)
    ensures forall m: TableName :: m != t.table ==> Rows(SyncFull(w, s, t).sources, m) == Rows(w.sources, m)
    ensures Rows(SyncFull(w, s, t).sources, t.table) == FullCopyFor(w, s, t).source
    ensures Rows(SyncFull(w, s, t).targets, n)
            == if Truncates(t) && TargetName(s, t.table) == n then FullCopyFor(w, s, t).copied else Rows(w.targets, n)
  {
    hide CopyPages, Count, Inserted, TargetName, OptimizeBatchSize;
  }

  function FullCopyFor(w: World, s: Servers, t: FullTask): Copy { FullCopy(Rows(w.sources, t.table), s, t) }

  function FullLogFor(w: World, s: Servers, t: FullTask): seq<Log> {
    var c := FullCopyFor(w, s, t);
    if t.setup.LogFails? then []
    else [Log(t.table.schemaName, t.table.tableName, FullStatusOf(c, t), |c.copied|, |c.copied|, c.batches)]
  }

  predicate SameSources(w: World, u: World, tasks: seq<FullTask>) {
    forall i :: 0 <= i < |tasks| ==> Rows(u.sources, tasks[i].table) == Rows(w.sources, tasks[i].table)
  }

  lemma SourceDecides(w: World, u: World, s: Servers, t: FullTask)
    requires Rows(u.sources, t.table) == Rows(w.sources, t.table)
    ensures FullCopyFor(u, s, t) == FullCopyFor(w, s, t) && FullEnding(u, s, t) == FullEnding(w, s, t)
    ensures FullLogFor(u, s, t) == FullLogFor(w, s, t)
  {
  }

  /** What the first table leaves to the rest. */
  lemma RestSources(w: World, s: Servers, tasks: seq<FullTask>)
    requires tasks != [] && DistinctTables(tasks)
    ensures DistinctTables(tasks[1..]) && SameSources(w, SyncFull(w, s, tasks[0]), tasks[1..])
  {
    OneFullStep(w, s, tasks[0], tasks[0].table);
    hide SyncFull, Rows;
    var rest := tasks[1..];
    assert forall i :: 0 <= i < |rest| ==> rest[i] == tasks[i + 1];
  }

  lemma SameRest(w: World, u: World, tasks: seq<FullTask>)
    requires tasks != [] && SameSources(w, u, tasks)
    ensures Rows(u.sources, tasks[0].table) == Rows(w.sources, tasks[0].table) && SameSources(w, u, tasks[1..])
  {
  }

  /** The last table that is reached, maps to target n and truncates it. */
  function LastTruncating(w: World, s: Servers, tasks: seq<FullTask>, n: QualifiedName): Option<FullTask>
    decreases |tasks|
  {
    if tasks == [] then None
    else
      var later := if FullDies(w, s, tasks[0]) then None else LastTruncating(w, s, tasks[1..], n);
      if later.None? && Truncates(tasks[0]) && TargetName(s, tasks[0].table) == n then Some(tasks[0]) else later
  }

  lemma {:induction false} LastFrame(w: World, u: World, s: Servers, tasks: seq<FullTask>, n: QualifiedName)
    requires SameSources(w, u, tasks)
    ensures LastTruncating(u, s, tasks, n) == LastTruncating(w, s, tasks, n)
    ensures var l := LastTruncating(w, s, tasks, n);
            l.Some? ==> FullCopyFor(u, s, l.value) == FullCopyFor(w, s, l.value)
    decreases |tasks|
  {
    if tasks != [] {
      SameRest(w, u, tasks);
      SourceDecides(w, u, s, tasks[0]);
      hide FullEnding, FullCopyFor, SameSources, Truncates, TargetName;
      LastFrame(w, u, s, tasks[1..], n);
    }
  }

  /**
   A target ends with the copy of the last reached table that is mapped to it and truncates it, and is untouched
   without one: of several tables with one target all but the last are erased, whatever they report.
   */
  lemma {:induction false} TargetIsLastCopy(w: World, s: Servers, tasks: seq<FullTask>, n: QualifiedName)
    requires DistinctTables(tasks)
    ensures var last := LastTruncating(w, s, tasks, n);
            Rows(SyncAllFull(w, s, tasks).targets, n)
            == if last.Some? then FullCopyFor(w, s, last.value).copied else Rows(w.targets, n)
    decreases |tasks|
  {
    if tasks != [] {
      var u, rest := SyncFull(w, s, tasks[0]), tasks[1..];
      OneFullStep(w, s, tasks[0], n);
      RestSources(w, s, tasks);
      hide SyncFull, FullEnding, FullCopyFor, SameSources, DistinctTables, Truncates, TargetName, Rows;
      if !FullDies(w, s, tasks[0]) {
        TargetIsLastCopy(u, s, rest, n);
        LastFrame(w, u, s, rest, n);
      }
    }
  }

  predicate FullApart(s: Servers, a: FullTask, b: FullTask) {
    a.table != b.table && TargetName(s, a.table) != TargetName(s, b.table)
  }

  predicate AllFullApart(s: Servers, tasks: seq<FullTask>) {
    forall i, j :: 0 <= i < j < |tasks| ==> FullApart(s, tasks[i], tasks[j])
  }

  predicate FullReached(w: World, s: Servers, tasks: seq<FullTask>, i: nat)
    requires i <= |tasks|
  {
    forall j :: 0 <= j < i ==> !FullDies(w, s, tasks[j])
  }

  lemma RestApart(s: Servers, tasks: seq<FullTask>)
    requires tasks != [] && AllFullApart(s, tasks)
    ensures AllFullApart(s, tasks[1..]) && DistinctTables(tasks)
    ensures forall j :: 0 <= j < |tasks[1..]| ==> TargetName(s, tasks[1..][j].table) != TargetName(s, tasks[0].table)
  {
  }

  lemma {:induction false} NoneTruncates(w: World, s: Servers, tasks: seq<FullTask>, n: QualifiedName)
    requires forall j :: 0 <= j < |tasks| ==> TargetName(s, tasks[j].table) != n
    ensures LastTruncating(w, s, tasks, n) == None
    decreases |tasks|
  {
    if tasks != [] {
      hide TargetName, FullDies;
      assert forall j :: 0 <= j < |tasks[1..]| ==> tasks[1..][j] == tasks[j + 1];
      NoneTruncates(w, s, tasks[1..], n);
    }
  }

  /** With targets of their own, the last copy into a table's target is its own. */
  lemma {:induction false} LastIsOwn(w: World, s: Servers, tasks: seq<FullTask>, i: nat)
    requires AllFullApart(s, tasks) && i < |tasks| && FullReached(w, s, tasks, i)
    ensures LastTruncating(w, s, tasks, TargetName(s, tasks[i].table))
            == if Truncates(tasks[i]) then Some(tasks[i]) else None
    decreases |tasks|
  {
    RestApart(s, tasks);
    hide TargetName, FullDies, Truncates, AllFullApart;
    if i == 0 {
      NoneTruncates(w, s, tasks[1..], TargetName(s, tasks[0].table));
    } else {
      assert tasks[1..][i - 1] == tasks[i];
      assert forall j :: 0 <= j < |tasks[1..]| ==> tasks[1..][j] == tasks[j + 1];
      LastIsOwn(w, s, tasks[1..], i - 1);
    }
  }

  /** Each table's source ends as it would alone. */
  lemma {:induction false} SourcesAlone(w: World, s: Servers, tasks: seq<FullTask>, i: nat)
    requires DistinctTables(tasks) && i < |tasks| && FullReached(w, s, tasks, i)
    ensures Rows(SyncAllFull(w, s, tasks).sources, tasks[i].table) == FullCopyFor(w, s, tasks[i]).source
    decreases |tasks|
  {
    var u, rest := SyncFull(w, s, tasks[0]), tasks[1..];
    OneFullStep(w, s, tasks[0], tasks[0].table);
    RestSources(w, s, tasks);
    hide SyncFull, FullEnding, FullCopyFor, Rows;
    assert forall j :: 0 <= j < |rest| ==> rest[j] == tasks[j + 1];
    if i == 0 {
      if !FullDies(w, s, tasks[0]) { SourceUntouched(u, s, rest, tasks[0].table); }
    } else {
      forall j | 0 <= j < |rest| ensures FullDies(u, s, rest[j]) == FullDies(w, s, rest[j]) {
        SourceDecides(w, u, s, rest[j]);
      }
      forall j | 0 <= j < i - 1 ensures !FullDies(u, s, rest[j]) {
        assert !FullDies(w, s, tasks[j + 1]);
      }
      SourcesAlone(u, s, rest, i - 1);
      SourceDecides(w, u, s, rest[i - 1]);
    }
  }

  lemma {:induction false} SourceUntouched(w: World, s: Servers, tasks: seq<FullTask>, m: TableName)
    requires forall i :: 0 <= i < |tasks| ==> tasks[i].table != m
    ensures Rows(SyncAllFull(w, s, tasks).sources, m) == Rows(w.sources, m)
    decreases |tasks|
  {
    if tasks != [] {
      OneFullStep(w, s, tasks[0], m);
      hide SyncFull, FullDies, Rows;
      assert forall i :: 0 <= i < |tasks[1..]| ==> tasks[1..][i] == tasks[i + 1];
      SourceUntouched(SyncFull(w, s, tasks[0]), s, tasks[1..], m);
    }
  }

  /** Tables with targets of their own do not disturb each other: each one that is reached ends as it would alone. */
  lemma FullIsolation(w: World, s: Servers, tasks: seq<FullTask>, i: nat)
    requires AllFullApart(s, tasks) && i < |tasks| && FullReached(w, s, tasks, i)
    ensures var t := tasks[i]; var alone := SyncFull(w, s, t); var u := SyncAllFull(w, s, tasks);
            Rows(u.targets, TargetName(s, t.table)) == Rows(alone.targets, TargetName(s, t.table)) &&
            Rows(u.sources, t.table) == Rows(alone.sources, t.table)
  {
    var n := TargetName(s, tasks[i].table);
    RestApart(s, tasks);
    LastIsOwn(w, s, tasks, i);
    TargetIsLastCopy(w, s, tasks, n);
    SourcesAlone(w, s, tasks, i);
    OneFullStep(w, s, tasks[i], n);
    hide SyncFull, SyncAllFull, FullCopyFor, TargetName, LastTruncating, Rows;
  }

  /** The logs the tables would write if each were copied alone in this world. */
  function AloneFullLogs(w: World, s: Servers, tasks: seq<FullTask>): seq<Log>
    decreases |tasks|
  {
    if tasks == [] then []
    else FullLogFor(w, s, tasks[0]) + if FullDies(w, s, tasks[0]) then [] else AloneFullLogs(w, s, tasks[1..])
  }

  lemma {:induction false} AloneFullLogsFrame(w: World, u: World, s: Servers, tasks: seq<FullTask>)
    requires SameSources(w, u, tasks)
    ensures AloneFullLogs(u, s, tasks) == AloneFullLogs(w, s, tasks)
    decreases |tasks|
  {
    if tasks != [] {
      SameRest(w, u, tasks);
      SourceDecides(w, u, s, tasks[0]);
      hide FullLogFor, FullEnding, SameSources;
      AloneFullLogsFrame(w, u, s, tasks[1..]);
    }
  }

  /** Each table's log, too, is the one it would have alone, even where targets are shared. */
  lemma {:induction false} FullIsolationOfLogs(w: World, s: Servers, tasks: seq<FullTask>)
    requires DistinctTables(tasks)
    ensures SyncAllFull(w, s, tasks).logs == w.logs + AloneFullLogs(w, s, tasks)
    decreases |tasks|
  {
    if tasks == [] {
      assert w.logs + [] == w.logs;
    } else {
      var u, head, rest := SyncFull(w, s, tasks[0]), FullLogFor(w, s, tasks[0]), tasks[1..];
      OneFullStep(w, s, tasks[0], tasks[0].table);
      RestSources(w, s, tasks);
      hide SyncFull, FullDies, FullLogFor, Rows, SameSources, DistinctTables;
      if FullDies(w, s, tasks[0]) {
        assert head + [] == head;
      } else {
        FullIsolationOfLogs(u, s, rest);
        AloneFullLogsFrame(w, u, s, rest);
        JoinLogs(w.logs, head, AloneFullLogs(w, s, rest));
      }
    }
  }

  /** How the tables end, and the rows they commit. */
  function FullEnds(w: World, s: Servers, tasks: seq<FullTask>): seq<Ending>
    decreases |tasks|
  {
    if tasks == [] then []
    else [FullEnding(w, s, tasks[0])] +
         if FullDies(w, s, tasks[0]) then [] else FullEnds(SyncFull(w, s, tasks[0]), s, tasks[1..])
  }

  function FullCommitted(w: World, s: Servers, tasks: seq<FullTask>): nat
    decreases |tasks|
  {
    if tasks == [] then 0
    else (if tasks[0].setup.LogFails? then 0 else |FullCopy(Rows(w.sources, tasks[0].table), s, tasks[0]).copied|) +
         if FullDies(w, s, tasks[0]) then 0 else FullCommitted(SyncFull(w, s, tasks[0]), s, tasks[1..])
  }

  lemma FullOneCounts(w: World, s: Servers, t: FullTask)
    requires w.totalRows == Inserted(w.logs)
    ensures var u := SyncFull(w, s, t); var e := FullEnding(w, s, t);
            u.totalRows == Inserted(u.logs) ==
              w.totalRows + (if t.setup.LogFails? then 0 else |FullCopy(Rows(w.sources, t.table), s, t).copied|) &&
            Count(u.logs, Completed) == Count(w.logs, Completed) + (if e == Ended(Completed) then 1 else 0) &&
            Count(u.logs, Failed) == Count(w.logs, Failed) + (if e == Ended(Failed) then 1 else 0)
  {
    hide CopyPages, TargetName, Count, Inserted, OptimizeBatchSize;
    var rows := Rows(w.sources, t.table);
    if t.setup.Prepared? { RowsComeInBatches(FullQuery(s), StartCopy(rows), t.events); }
    if !t.setup.LogFails? {
      var log := SyncFull(w, s, t).logs[|w.logs|];
      LastLog(w.logs, log, Completed);
      LastLog(w.logs, log, Failed);
    }
  }

  /** The row total, the logs and the rows committed agree for the full executor too, and its logs count the endings. */
  lemma {:induction false} FullConservation(w: World, s: Servers, tasks: seq<FullTask>)
    requires w.totalRows == Inserted(w.logs)
    ensures var u := SyncAllFull(w, s, tasks);
            u.totalRows == Inserted(u.logs) == w.totalRows + FullCommitted(w, s, tasks) &&
            Count(u.logs, Completed)
            == Count(w.logs, Completed) + EndingCount(FullEnds(w, s, tasks), Ended(Completed)) &&
            Count(u.logs, Failed) == Count(w.logs, Failed) + EndingCount(FullEnds(w, s, tasks), Ended(Failed))
    decreases |tasks|
  {
    if tasks != [] {
      FullOneCounts(w, s, tasks[0]);
      hide SyncFull, FullEnding, FullCopy, Count, Inserted, FullDies;
      var e := FullEnding(w, s, tasks[0]);
      var ends := FullEnds(w, s, tasks);
      if FullDies(w, s, tasks[0]) {
        assert ends == [e] && ends[1..] == [];
      } else {
        var u := SyncFull(w, s, tasks[0]);
        FullConservation(u, s, tasks[1..]);
        assert ends[1..] == FullEnds(u, s, tasks[1..]);
      }
    }
  }

  // ---------------------------------------------------------------- completed_tables

  function FullVisits(w: World, s: Servers, tasks: seq<FullTask>): seq<Visit>
    decreases |tasks|
  {
    if tasks == [] then []
    else [Visit(FullEnding(w, s, tasks[0]), FullCopyFor(w, s, tasks[0]).batches > 0)] +
         if FullDies(w, s, tasks[0]) then [] else FullVisits(SyncFull(w, s, tasks[0]), s, tasks[1..])
  }

  lemma OneFullVisit(w: World, s: Servers, t: FullTask)
    ensures Behind(SyncFull(w, s, t))
            == (if FullEnding(w, s, t) == Ended(Completed) then 1 else 0)
               + (if FullCopyFor(w, s, t).batches > 0 then 0 else Behind(w))
  {
    hide CopyPages, TargetName, Count, Inserted, OptimizeBatchSize;
    if !t.setup.LogFails? {
      LastLog(w.logs, SyncFull(w, s, t).logs[|w.logs|], Completed);
    }
  }

  lemma {:induction false} FullBehindAfter(w: World, s: Servers, tasks: seq<FullTask>)
    ensures Behind(SyncAllFull(w, s, tasks))
            == Unseen(FullVisits(w, s, tasks)) + (if SomeWrote(FullVisits(w, s, tasks)) then 0 else Behind(w))
    decreases |tasks|
  {
    if tasks != [] {
      var visits, u := FullVisits(w, s, tasks), SyncFull(w, s, tasks[0]);
      OneFullVisit(w, s, tasks[0]);
      hide SyncFull, FullEnding, FullCopyFor, FullDies, Behind, SomeWrote;
      SomeWroteFirst(visits);
      if FullDies(w, s, tasks[0]) {
        assert visits[1..] == [] && !SomeWrote([]) by { NoVisitNoWrite(); }
        assert Unseen([]) == 0;
      } else {
        assert visits[1..] == FullVisits(u, s, tasks[1..]);
        FullBehindAfter(u, s, tasks[1..]);
      }
    }
  }

  /** The counter of the full executor falls short in the same way. */
  lemma FullCompletedTablesFallShort(w: World, s: Servers, tasks: seq<FullTask>)
    requires w.logs == [] && w.completedTables == 0
    ensures var u := SyncAllFull(w, s, tasks); var visits := FullVisits(w, s, tasks);
            Count(u.logs, Completed) - u.completedTables == Unseen(visits) &&
            (u.completedTables == Count(u.logs, Completed)
             <==> forall i :: 0 <= i < |visits| && visits[i].ending == Ended(Completed) ==> SomeWrote(visits[i + 1..]))
  {
    FullBehindAfter(w, s, tasks);
    UnseenZeroIff(FullVisits(w, s, tasks));
    hide SyncAllFull, FullVisits, SomeWrote, Unseen;
  }

  // ---------------------------------------------------------------- the whole execution

  function Execute(w: World, s: Servers, tasks: seq<FullTask>, connects: bool): ExecutionResult {
    if tasks == [] then ExecutionResult(w, Done, ReturnedNormally)
    else if !connects then ExecutionResult(w, Broken, RaisedOther)
    else
      var u := SyncAllFull(w, s, tasks);
      if SomeFullDies(w, s, tasks) then ExecutionResult(u, InProgress, ProcessDied)
      else ExecutionResult(u, FullStatus(Count(u.logs, Completed), Count(u.logs, Failed)), ReturnedNormally)
  }

  /** An execution that returns has status completed exactly when some table completed and no table has a failed log. */
  lemma FullExecutionDoneIff(w: World, s: Servers, tasks: seq<FullTask>, connects: bool)
    requires w.logs == [] && w.totalRows == 0 && tasks != []
    requires Execute(w, s, tasks, connects).exit == ReturnedNormally
    ensures Execute(w, s, tasks, connects).status == Done
            <==> Ended(Completed) in FullEnds(w, s, tasks) && Ended(Failed) !in FullEnds(w, s, tasks)
  {
    FullConservation(w, s, tasks);
    FullDoneIff(FullEnds(w, s, tasks));
  }

  lemma {:induction false} FullEndsAlone(w: World, s: Servers, tasks: seq<FullTask>, i: nat)
    requires DistinctTables(tasks) && i < |FullEnds(w, s, tasks)|
    ensures i < |tasks| && FullEnds(w, s, tasks)[i] == FullEnding(w, s, tasks[i])
    decreases |tasks|
  {
    if i > 0 {
      var u, rest := SyncFull(w, s, tasks[0]), tasks[1..];
      RestSources(w, s, tasks);
      hide SyncFull, FullEnding, FullDies, DistinctTables;
      FullEndsAlone(u, s, rest, i - 1);
      SourceDecides(w, u, s, rest[i - 1]);
    }
  }

  lemma {:induction false} FullEndsOfLiving(w: World, s: Servers, tasks: seq<FullTask>)
    ensures |FullEnds(w, s, tasks)| <= |tasks|
    ensures !SomeFullDies(w, s, tasks) ==> |FullEnds(w, s, tasks)| == |tasks|
    decreases |tasks|
  {
    if tasks != [] {
      hide SyncFull, FullEnding, FullDies;
      FullEndsOfLiving(SyncFull(w, s, tasks[0]), s, tasks[1..]);
    }
  }

  /** Status completed means that every table whose log could be created completed. */
  lemma FullDoneEndings(w: World, s: Servers, tasks: seq<FullTask>, connects: bool, i: nat)
    requires w.logs == [] && w.totalRows == 0 && DistinctTables(tasks) && i < |tasks|
    requires Execute(w, s, tasks, connects).exit == ReturnedNormally && Execute(w, s, tasks, connects).status == Done
    ensures FullReached(w, s, tasks, i) &&
            FullEnding(w, s, tasks[i]) == if tasks[i].setup.LogFails? then NoLog else Ended(Completed)
  {
    FullExecutionDoneIff(w, s, tasks, connects);
    FullEndsOfLiving(w, s, tasks);
    var ends := FullEnds(w, s, tasks);
    forall j | 0 <= j <= i ensures ends[j] == FullEnding(w, s, tasks[j]) && !FullDies(w, s, tasks[j]) {
      FullEndsAlone(w, s, tasks, j);
      NotRunning(w, s, tasks, j);
    }
    assert ends[i] in ends;
  }

  lemma {:induction false} NotRunning(w: World, s: Servers, tasks: seq<FullTask>, i: nat)
    requires !SomeFullDies(w, s, tasks) && i < |FullEnds(w, s, tasks)|
    ensures FullEnds(w, s, tasks)[i] != Ended(Running)
    decreases |tasks|
  {
    if i > 0 {
      hide SyncFull, FullEnding;
      NotRunning(SyncFull(w, s, tasks[0]), s, tasks[1..], i - 1);
    }
  }

  /**
   When the full executor reports completed, every table whose log could be created has a target equal to its source as
   multisets. Without its log a table is left as it was: completed covers all tables exactly when every log was created.
   */
  lemma FullDoneMeansEqual(w: World, s: Servers, tasks: seq<FullTask>, connects: bool, i: nat)
    requires w.logs == [] && w.totalRows == 0 && AllFullApart(s, tasks) && i < |tasks|
    requires FullAdmissible(Rows(w.sources, tasks[i].table), s, tasks[i])
    requires Execute(w, s, tasks, connects).exit == ReturnedNormally && Execute(w, s, tasks, connects).status == Done
    ensures var u := Execute(w, s, tasks, connects).world; var n := TargetName(s, tasks[i].table);
            if tasks[i].setup.LogFails?
            then Rows(u.targets, n) == Rows(w.targets, n) &&
                 Rows(u.sources, tasks[i].table) == Rows(w.sources, tasks[i].table)
            else multiset(Rows(u.targets, n)) == multiset(Rows(u.sources, tasks[i].table))
  {
    RestApart(s, tasks);
    FullDoneEndings(w, s, tasks, connects, i);
    FullIsolation(w, s, tasks, i);
    if !tasks[i].setup.LogFails? {
      FullSyncConverges(w, s, tasks[i]);
    }
  }
}
