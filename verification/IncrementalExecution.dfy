/** IncrementalSyncExecutor.execute over several tables, as a function on the world (incremental_sync.py:69-196). */
module IncrementalExecution {
  import opened Wrappers
  import opened Values
  import opened SqlText
  import opened Checkpoints
  import opened Paging
  import opened TableRun
  import opened TableNames
  import opened Execution

  datatype Environment = Environment(job: string, servers: Servers)

  /** An enabled table of the job, with what happens while it is synchronised. */
  datatype Task = Task(table: TableName, config: TableConfig, script: Script)

  function KeyFor(env: Environment, t: Task): EntryKey { EntryKey(env.job, t.table.schemaName, t.table.tableName) }

  function TargetOf(env: Environment, t: Task): QualifiedName { TargetName(env.servers, t.table) }

  /** A task's part of the world. */
  function ViewOf(w: World, env: Environment, t: Task): TableState {
    TableState(Rows(w.sources, t.table), Rows(w.targets, TargetOf(env, t)), Stored(w.entries, KeyFor(env, t)))
  }

  function CopyFor(w: World, env: Environment, t: Task): Copy { CopyOf(ViewOf(w, env, t), t.config, t.script) }

  function EndingOf(w: World, env: Environment, t: Task): Ending {
    if t.script.setup.InvalidColumn? then NoLog else Ended(StatusOf(CopyFor(w, env, t), t.script.save))
  }

  /** The process dies while this table is under way. */
  predicate Dies(w: World, env: Environment, t: Task) { EndingOf(w, env, t) == Ended(Running) }

  function LogFor(w: World, env: Environment, t: Task): seq<Log> {
    var c := CopyFor(w, env, t);
    if t.script.setup.InvalidColumn? then []
    else [Log(t.table.schemaName, t.table.tableName, StatusOf(c, t.script.save), |c.copied|, |c.copied|, c.batches)]
  }

  /** The world after one table: its source, target, checkpoint and log, and the counters its batches refreshed. */
  function SyncOne(w: World, env: Environment, t: Task): World {
    var c := CopyFor(w, env, t);
    if t.script.setup.InvalidColumn? then w
    else World(
        if t.script.setup.Ready? then w.sources[t.table := c.source] else w.sources,
        if t.script.setup.Ready? then w.targets[TargetOf(env, t) := ViewOf(w, env, t).target + c.copied] else w.targets,
        if SavesMark(ViewOf(w, env, t), t.config, t.script)
        then w.entries[KeyFor(env, t) := Some(MarkText(MarkAtEnd(ViewOf(w, env, t), t.config, t.script)))]
        else w.entries,
        w.logs + LogFor(w, env, t),
        if c.batches > 0 then Count(w.logs, Completed) else w.completedTables,
        if c.batches > 0 then Inserted(w.logs) + |c.copied| else w.totalRows)
  }

  // ---------------------------------------------------------------- one table from its open log on

  function OpenedLog(t: Task): Log { Log(t.table.schemaName, t.table.tableName, Running, 0, 0, 0) }

  /** The log of t is open and its target table is there. */
  function Opened(w: World, env: Environment, t: Task): World {
    w.(logs := w.logs + [OpenedLog(t)], targets := w.targets[TargetOf(env, t) := Rows(w.targets, TargetOf(env, t))])
  }

  /** What the loop does from a checkpoint that has been read. */
  function CopyFrom(rows: seq<Row>, t: Task, mark: Mark): Copy {
    var bound := WhereBound(mark, t.config.dialect, t.config.column.kind, t.config.session, t.config.orderBy);
    if bound.Invalid? then StartCopy(rows).(phase := Aborted)
    else CopyPages(Query(RunOrder(t.config), bound, t.config.size), StartCopy(rows), ResolveAll(t.script.events))
  }

  /**
   The opened world w after a loop that ended as c: the checkpoint is saved, and the last log gets its counts and
   status.
   */
  function Closed(w: World, env: Environment, t: Task, mark: Mark, c: Copy): World
    requires |w.logs| > 0
  {
    var before := w.logs[..|w.logs| - 1];
    var end := Fold(mark, Vals(c.copied));
    World(w.sources[t.table := c.source],
          w.targets[TargetOf(env, t) := Rows(w.targets, TargetOf(env, t)) + c.copied],
          if c.phase.Drained? && t.script.save.Writes() && end != NoMark && end != mark
          then w.entries[KeyFor(env, t) := Some(MarkText(end))] else w.entries,
          before + [Log(t.table.schemaName, t.table.tableName, StatusOf(c, t.script.save),
                        |c.copied|, |c.copied|, c.batches)],
          if c.batches > 0 then Count(before, Completed) else w.completedTables,
          if c.batches > 0 then Inserted(before) + |c.copied| else w.totalRows)
  }

  /** Opening, copying and closing is what SyncOne says of a prepared table. */
  lemma OpenCopyClose(w: World, env: Environment, t: Task)
    requires t.script.setup.Ready? && t.table in w.sources
    ensures var m := MarkAtStart(ViewOf(w, env, t), t.config);
            CopyFrom(w.sources[t.table], t, m) == CopyFor(w, env, t) &&
            Closed(Opened(w, env, t), env, t, m, CopyFor(w, env, t)) == SyncOne(w, env, t)
  {
    hide CopyPages, Fold, WhereBound, StartMark, Count, Inserted, MarkText, TargetOf, KeyFor;
    var o := Opened(w, env, t);
    assert o.logs[..|o.logs| - 1] == w.logs;
  }

  /** The tables in order; a failed table does not stop the next one, a dead process does. */
  function SyncAll(w: World, env: Environment, tasks: seq<Task>): World
    decreases |tasks|
  {
    if tasks == [] then w
    else if Dies(w, env, tasks[0]) then SyncOne(w, env, tasks[0])
    else SyncAll(SyncOne(w, env, tasks[0]), env, tasks[1..])
  }

  predicate SomeTaskDies(w: World, env: Environment, tasks: seq<Task>)
    decreases |tasks|
  {
    tasks != [] && (Dies(w, env, tasks[0]) || SomeTaskDies(SyncOne(w, env, tasks[0]), env, tasks[1..]))
  }

  // ---------------------------------------------------------------- isolation

  predicate DistinctTables(tasks: seq<Task>) {
    forall i, j :: 0 <= i < j < |tasks| ==> tasks[i].table != tasks[j].table
  }

  /** What a run depends on, the source and the checkpoint of its table, is the same in both worlds. */
  predicate SameSide(w: World, u: World, env: Environment, t: Task) {
    Rows(u.sources, t.table) == Rows(w.sources, t.table) &&
    Stored(u.entries, KeyFor(env, t)) == Stored(w.entries, KeyFor(env, t))
  }

  lemma SideDecides(w: World, u: World, env: Environment, t: Task)
    requires SameSide(w, u, env, t)
    ensures CopyFor(u, env, t) == CopyFor(w, env, t) && LogFor(u, env, t) == LogFor(w, env, t)
    ensures EndingOf(u, env, t) == EndingOf(w, env, t)
    ensures AfterRun(ViewOf(u, env, t), t.config, t.script).source
            == AfterRun(ViewOf(w, env, t), t.config, t.script).source
    ensures AfterRun(ViewOf(u, env, t), t.config, t.script).stored
            == AfterRun(ViewOf(w, env, t), t.config, t.script).stored
  {
    hide CopyPages, WhereBound, StartMark, Fold;
  }

  lemma StrNotEmpty(v: Value)
    ensures Str(v) != ""
  {
  }

  /** A table's part of the world changes as its own run says. */
  lemma OneDoesItsRun(w: World, env: Environment, t: Task)
    ensures ViewOf(SyncOne(w, env, t), env, t) == AfterRun(ViewOf(w, env, t), t.config, t.script)
  {
    var v := ViewOf(w, env, t);
    if SavesMark(v, t.config, t.script) {
      FoldProvenance(MarkAtStart(v, t.config), Vals(CopyFor(w, env, t).copied));
      StrNotEmpty(MarkAtEnd(v, t.config, t.script).v);
    }
    assert v.target + [] == v.target;
  }

  /** What one table leaves to the others: their sources and checkpoints, and every target but its own. */
  lemma OneLeavesOthers(w: World, env: Environment, a: Task, b: Task, n: QualifiedName)
    ensures a.table != b.table ==> SameSide(w, SyncOne(w, env, a), env, b)
    ensures Rows(SyncOne(w, env, a).targets, n)
            == Rows(w.targets, n) + if TargetOf(env, a) == n then CopyFor(w, env, a).copied else []
  {
    hide CopyOf, SavesMark, MarkAtEnd, TargetName;
    var rows := Rows(w.targets, n);
    assert rows + [] == rows;
    if !a.script.setup.Ready? { assert CopyFor(w, env, a).copied == [] by { NothingCopied(w, env, a); } }
    assert a.table != b.table ==> KeyFor(env, a) != KeyFor(env, b);
  }

  /** A table writes no checkpoint but its own: those of other tables and of other jobs stay. */
  lemma {:induction false} OnlyOwnEntries(w: World, env: Environment, tasks: seq<Task>, key: EntryKey)
    requires forall i :: 0 <= i < |tasks| ==> KeyFor(env, tasks[i]) != key
    ensures var u := SyncAll(w, env, tasks);
            (key in u.entries <==> key in w.entries) && (key in w.entries ==> u.entries[key] == w.entries[key])
    decreases |tasks|
  {
    if tasks != [] {
      var u := SyncOne(w, env, tasks[0]);
      assert (key in u.entries <==> key in w.entries) && (key in w.entries ==> u.entries[key] == w.entries[key]);
      hide SyncOne, Dies;
      assert forall i :: 0 <= i < |tasks[1..]| ==> tasks[1..][i] == tasks[i + 1];
      OnlyOwnEntries(u, env, tasks[1..], key);
    }
  }

  lemma NothingCopied(w: World, env: Environment, t: Task)
    requires !t.script.setup.Ready?
    ensures CopyFor(w, env, t).copied == []
  {
  }

  /** No table before the i-th dies. */
  predicate Reached(w: World, env: Environment, tasks: seq<Task>, i: nat)
    requires i <= |tasks|
  {
    forall j :: 0 <= j < i ==> !Dies(w, env, tasks[j])
  }

  /** What the first table leaves to the rest. */
  lemma RestSide(w: World, env: Environment, tasks: seq<Task>)
    requires tasks != [] && DistinctTables(tasks)
    ensures DistinctTables(tasks[1..])
    ensures var u, rest := SyncOne(w, env, tasks[0]), tasks[1..];
            forall i :: 0 <= i < |rest| ==>
              rest[i] == tasks[i + 1] && SameSide(w, u, env, rest[i]) && Dies(u, env, rest[i]) == Dies(w, env, rest[i])
  {
    var u, rest := SyncOne(w, env, tasks[0]), tasks[1..];
    hide SyncOne, CopyOf, SameSide, LogFor;
    forall i | 0 <= i < |rest|
      ensures rest[i] == tasks[i + 1] && SameSide(w, u, env, rest[i]) && Dies(u, env, rest[i]) == Dies(w, env, rest[i])
    {
      OneLeavesOthers(w, env, tasks[0], rest[i], tasks[0].table);
      SideDecides(w, u, env, rest[i]);
    }
  }

  lemma {:induction false} SideUntouched(w: World, env: Environment, tasks: seq<Task>, t: Task)
    requires forall i :: 0 <= i < |tasks| ==> tasks[i].table != t.table
    ensures SameSide(w, SyncAll(w, env, tasks), env, t)
    decreases |tasks|
  {
    if tasks != [] {
      OneLeavesOthers(w, env, tasks[0], t, t.table);
      hide SyncOne, Dies;
      assert forall i :: 0 <= i < |tasks[1..]| ==> tasks[1..][i] == tasks[i + 1];
      SideUntouched(SyncOne(w, env, tasks[0]), env, tasks[1..], t);
    }
  }

  /**
   Under any pattern of failures a table that is reached ends with the source and the checkpoint it would have alone.
   */
  lemma {:induction false} SideIsolation(w: World, env: Environment, tasks: seq<Task>, i: nat)
    requires DistinctTables(tasks) && i < |tasks|
    ensures var t := tasks[i]; var v := ViewOf(SyncAll(w, env, tasks), env, t);
            if Reached(w, env, tasks, i)
            then v.source == AfterRun(ViewOf(w, env, t), t.config, t.script).source &&
                 v.stored == AfterRun(ViewOf(w, env, t), t.config, t.script).stored
            else SameSide(w, SyncAll(w, env, tasks), env, t)
    decreases |tasks|
  {
    var u, rest := SyncOne(w, env, tasks[0]), tasks[1..];
    RestSide(w, env, tasks);
    OneDoesItsRun(w, env, tasks[0]);
    hide SyncOne, AfterRun, Dies, DistinctTables;
    if i == 0 {
      assert forall j :: 0 <= j < |rest| ==> rest[j].table != tasks[0].table by { NotAgain(tasks); }
      SideUntouched(u, env, rest, tasks[0]);
    } else {
      assert rest[i - 1] == tasks[i];
      if !Dies(w, env, tasks[0]) {
        SideIsolation(u, env, rest, i - 1);
        ReachedShift(w, u, env, tasks, i);
        SideDecides(w, u, env, tasks[i]);
      } else {
        assert !Reached(w, env, tasks, i);
      }
    }
  }

  lemma NotAgain(tasks: seq<Task>)
    requires tasks != [] && DistinctTables(tasks)
    ensures forall j :: 0 <= j < |tasks[1..]| ==> tasks[1..][j].table != tasks[0].table
  {
  }

  lemma ReachedShift(w: World, u: World, env: Environment, tasks: seq<Task>, i: nat)
    requires 0 < i < |tasks| && !Dies(w, env, tasks[0])
    requires var rest := tasks[1..]; forall j :: 0 <= j < |rest| ==> Dies(u, env, rest[j]) == Dies(w, env, rest[j])
    ensures Reached(u, env, tasks[1..], i - 1) == Reached(w, env, tasks, i)
  {
    hide Dies;
    var rest := tasks[1..];
    if Reached(u, env, rest, i - 1) {
      forall j | 0 <= j < i ensures !Dies(w, env, tasks[j]) {
        if j > 0 {
          assert tasks[j] == rest[j - 1];
          assert !Dies(u, env, rest[j - 1]);
        }
      }
    }
    if Reached(w, env, tasks, i) {
      forall j | 0 <= j < i - 1 ensures !Dies(u, env, rest[j]) {
        assert rest[j] == tasks[j + 1];
        assert !Dies(w, env, tasks[j + 1]);
      }
    }
  }

  // ---------------------------------------------------------------- shared targets

  /** What the tables mapped to target n commit to it, in order, if each runs alone in this world. */
  function Contribution(w: World, env: Environment, tasks: seq<Task>, n: QualifiedName): seq<Row>
    decreases |tasks|
  {
    if tasks == [] then []
    else OwnRows(w, env, tasks[0], n) +
         if Dies(w, env, tasks[0]) then [] else Contribution(w, env, tasks[1..], n)
  }

  lemma {:induction false} ContributionFrame(w: World, u: World, env: Environment, tasks: seq<Task>, n: QualifiedName)
    requires forall i :: 0 <= i < |tasks| ==> SameSide(w, u, env, tasks[i])
    ensures Contribution(u, env, tasks, n) == Contribution(w, env, tasks, n)
    decreases |tasks|
  {
    if tasks != [] {
      SideDecides(w, u, env, tasks[0]);
      hide CopyFor, SameSide, TargetOf;
      assert forall i :: 0 <= i < |tasks[1..]| ==> tasks[1..][i] == tasks[i + 1];
      ContributionFrame(w, u, env, tasks[1..], n);
    }
  }

  /** A target gets the rows of every table that is mapped to it, whether one or several. */
  lemma {:induction false} SharedTargetAccumulates(w: World, env: Environment, tasks: seq<Task>, n: QualifiedName)
    requires DistinctTables(tasks)
    ensures Rows(SyncAll(w, env, tasks).targets, n) == Rows(w.targets, n) + Contribution(w, env, tasks, n)
    decreases |tasks|
  {
    var before := Rows(w.targets, n);
    if tasks == [] {
      assert before + [] == before;
    } else {
      var u, rest := SyncOne(w, env, tasks[0]), tasks[1..];
      OneLeavesOthers(w, env, tasks[0], tasks[0], n);
      RestSide(w, env, tasks);
      hide SyncOne, CopyFor, Dies, Rows, TargetOf, SameSide;
      var first := if TargetOf(env, tasks[0]) == n then CopyFor(w, env, tasks[0]).copied else [];
      if Dies(w, env, tasks[0]) {
        assert first + [] == first;
      } else {
        SharedTargetAccumulates(u, env, rest, n);
        ContributionFrame(w, u, env, rest, n);
        JoinRows(before, first, Contribution(w, env, rest, n));
      }
    }
  }

  lemma {:induction false} ContributionSplit(w: World, env: Environment, tasks: seq<Task>, n: QualifiedName, i: nat)
    requires i < |tasks| && Reached(w, env, tasks, i)
    ensures Contribution(w, env, tasks, n) == Contribution(w, env, tasks[..i], n) + Contribution(w, env, tasks[i..], n)
    decreases i
  {
    hide CopyFor, TargetOf, Dies, Contribution;
    if i == 0 {
      assert tasks[0..] == tasks && tasks[..0] == [];
      EmptyContribution(w, env, n);
    } else {
      assert !Dies(w, env, tasks[0]);
      var rest := tasks[1..];
      assert forall j :: 0 <= j < i - 1 ==> rest[j] == tasks[j + 1];
      ContributionSplit(w, env, rest, n, i - 1);
      assert rest[..i - 1] == tasks[..i][1..] && rest[i - 1..] == tasks[i..];
      FirstContribution(w, env, tasks, n);
      FirstContribution(w, env, tasks[..i], n);
      JoinRows(OwnRows(w, env, tasks[0], n), Contribution(w, env, rest[..i - 1], n),
               Contribution(w, env, tasks[i..], n));
    }
  }

  function OwnRows(w: World, env: Environment, t: Task, n: QualifiedName): seq<Row> {
    if TargetOf(env, t) == n then CopyFor(w, env, t).copied else []
  }

  lemma EmptyContribution(w: World, env: Environment, n: QualifiedName)
    ensures Contribution(w, env, [], n) == []
  {
  }

  lemma FirstContribution(w: World, env: Environment, tasks: seq<Task>, n: QualifiedName)
    requires tasks != [] && !Dies(w, env, tasks[0])
    ensures Contribution(w, env, tasks, n) == OwnRows(w, env, tasks[0], n) + Contribution(w, env, tasks[1..], n)
  {
  }

  /** What the other tables that are reached commit to the target of the i-th. */
  function OthersRows(w: World, env: Environment, tasks: seq<Task>, i: nat): nat
    requires i < |tasks|
  {
    |Contribution(w, env, tasks[..i], TargetOf(env, tasks[i]))| +
    if Dies(w, env, tasks[i]) then 0 else |Contribution(w, env, tasks[i + 1..], TargetOf(env, tasks[i]))|
  }

  /**
   Isolation, exactly: a table that is reached ends with the target it would have alone if and only if no other table
   commits a row to that target. Source and checkpoint are its own in any case.
   */
  lemma IsolationIff(w: World, env: Environment, tasks: seq<Task>, i: nat)
    requires DistinctTables(tasks) && i < |tasks| && Reached(w, env, tasks, i)
    ensures ViewOf(SyncAll(w, env, tasks), env, tasks[i])
            == AfterRun(ViewOf(w, env, tasks[i]), tasks[i].config, tasks[i].script)
            <==> OthersRows(w, env, tasks, i) == 0
  {
    var t, n := tasks[i], TargetOf(env, tasks[i]);
    SideIsolation(w, env, tasks, i);
    SharedTargetAccumulates(w, env, tasks, n);
    ContributionSplit(w, env, tasks, n, i);
    assert tasks[i..][0] == t && tasks[i..][1..] == tasks[i + 1..];
    hide SyncAll, CopyOf, Dies, SavesMark, MarkAtEnd, TargetOf, SameSide, Reached, DistinctTables;
    var first, own, last := Contribution(w, env, tasks[..i], n), CopyFor(w, env, t).copied,
                            if Dies(w, env, t) then [] else Contribution(w, env, tasks[i + 1..], n);
    var rows := Rows(w.targets, n);
    assert Rows(SyncAll(w, env, tasks).targets, n) == rows + (first + (own + last));
    if |first| + |last| == 0 {
      assert first + (own + last) == own;
    } else {
      assert |rows + (first + (own + last))| != |rows + own|;
    }
  }

  predicate Apart(env: Environment, a: Task, b: Task) {
    a.table != b.table && TargetOf(env, a) != TargetOf(env, b)
  }

  predicate AllApart(env: Environment, tasks: seq<Task>) {
    forall i, j :: 0 <= i < j < |tasks| ==> Apart(env, tasks[i], tasks[j])
  }

  lemma {:induction false} NoContribution(w: World, env: Environment, tasks: seq<Task>, n: QualifiedName)
    requires forall i :: 0 <= i < |tasks| ==> TargetOf(env, tasks[i]) != n
    ensures Contribution(w, env, tasks, n) == []
    decreases |tasks|
  {
    if tasks != [] {
      assert forall i :: 0 <= i < |tasks[1..]| ==> tasks[1..][i] == tasks[i + 1];
      NoContribution(w, env, tasks[1..], n);
    }
  }

  /** Tables that are apart from all that run keep their part of the world. */
  lemma OthersUntouched(w: World, env: Environment, tasks: seq<Task>, t: Task)
    requires DistinctTables(tasks) && forall i :: 0 <= i < |tasks| ==> Apart(env, tasks[i], t)
    ensures ViewOf(SyncAll(w, env, tasks), env, t) == ViewOf(w, env, t)
  {
    SideUntouched(w, env, tasks, t);
    SharedTargetAccumulates(w, env, tasks, TargetOf(env, t));
    NoContribution(w, env, tasks, TargetOf(env, t));
  }

  /**
   So tables with targets of their own are isolated: one that is reached ends with the target and the checkpoint
   it would have if it ran alone, and one behind a dead process is untouched.
   */
  lemma Isolation(w: World, env: Environment, tasks: seq<Task>, i: nat)
    requires AllApart(env, tasks) && i < |tasks|
    ensures ViewOf(SyncAll(w, env, tasks), env, tasks[i])
            == if Reached(w, env, tasks, i) then AfterRun(ViewOf(w, env, tasks[i]), tasks[i].config, tasks[i].script)
               else ViewOf(w, env, tasks[i])
  {
    var n := TargetOf(env, tasks[i]);
    assert forall j, k :: 0 <= j < k < |tasks| ==> Apart(env, tasks[j], tasks[k]);
    hide TargetOf, Dies, SyncAll, AfterRun, CopyOf;
    NoContribution(w, env, tasks[..i], n);
    var later := tasks[i + 1..];
    forall j | 0 <= j < |later| ensures TargetOf(env, later[j]) != n {
      assert later[j] == tasks[i + 1 + j] && Apart(env, tasks[i], tasks[i + 1 + j]);
    }
    NoContribution(w, env, later, n);
    if Reached(w, env, tasks, i) {
      IsolationIff(w, env, tasks, i);
    } else {
      SideIsolation(w, env, tasks, i);
      SharedTargetAccumulates(w, env, tasks, n);
      UnreachedContributesNothing(w, env, tasks, i);
    }
  }

  /** Behind a dead process nothing is committed. */
  lemma {:induction false} UnreachedContributesNothing(w: World, env: Environment, tasks: seq<Task>, i: nat)
    requires i < |tasks| && !Reached(w, env, tasks, i)
    requires forall j :: 0 <= j < i ==> TargetOf(env, tasks[j]) != TargetOf(env, tasks[i])
    ensures Contribution(w, env, tasks, TargetOf(env, tasks[i])) == []
    decreases |tasks|
  {
    hide CopyFor, TargetOf, Dies;
    if !Dies(w, env, tasks[0]) {
      var j :| 0 <= j < i && Dies(w, env, tasks[j]);
      assert forall k :: 0 <= k < |tasks[1..]| ==> tasks[1..][k] == tasks[k + 1];
      assert tasks[1..][j - 1] == tasks[j];
      UnreachedContributesNothing(w, env, tasks[1..], i - 1);
    }
  }

  // ---------------------------------------------------------------- logs

  /** The logs the tables would write if each ran alone in this world. */
  function AloneLogs(w: World, env: Environment, tasks: seq<Task>): seq<Log>
    decreases |tasks|
  {
    if tasks == [] then []
    else LogFor(w, env, tasks[0]) + if Dies(w, env, tasks[0]) then [] else AloneLogs(w, env, tasks[1..])
  }

  lemma {:induction false} AloneLogsFrame(w: World, u: World, env: Environment, tasks: seq<Task>)
    requires forall i :: 0 <= i < |tasks| ==> SameSide(w, u, env, tasks[i])
    ensures AloneLogs(u, env, tasks) == AloneLogs(w, env, tasks)
    decreases |tasks|
  {
    if tasks != [] {
      SideDecides(w, u, env, tasks[0]);
      hide LogFor, SameSide;
      assert forall i :: 0 <= i < |tasks[1..]| ==> tasks[1..][i] == tasks[i + 1];
      AloneLogsFrame(w, u, env, tasks[1..]);
    }
  }

  lemma OneLogs(w: World, env: Environment, t: Task)
    ensures SyncOne(w, env, t).logs == w.logs + LogFor(w, env, t)
    ensures SyncOne(w, env, t).sources.Keys >= w.sources.Keys
  {
    assert w.logs + [] == w.logs;
  }

  /** The logs are those of the tables run alone, even where targets are shared. */
  lemma {:induction false} IsolationOfLogs(w: World, env: Environment, tasks: seq<Task>)
    requires DistinctTables(tasks)
    ensures SyncAll(w, env, tasks).logs == w.logs + AloneLogs(w, env, tasks)
    decreases |tasks|
  {
    if tasks == [] {
      assert w.logs + [] == w.logs;
    } else {
      var u, head := SyncOne(w, env, tasks[0]), LogFor(w, env, tasks[0]);
      OneLogs(w, env, tasks[0]);
      RestSide(w, env, tasks);
      hide SyncOne, SameSide, Dies, LogFor, DistinctTables;
      if Dies(w, env, tasks[0]) {
        assert head + [] == head;
      } else {
        IsolationOfLogs(u, env, tasks[1..]);
        AloneLogsFrame(w, u, env, tasks[1..]);
        JoinLogs(w.logs, head, AloneLogs(w, env, tasks[1..]));
      }
    }
  }

  // ---------------------------------------------------------------- counters and status

  /** How the tables end, one after the other. */
  function Ends(w: World, env: Environment, tasks: seq<Task>): seq<Ending>
    decreases |tasks|
  {
    if tasks == [] then []
    else [EndingOf(w, env, tasks[0])] +
         if Dies(w, env, tasks[0]) then [] else Ends(SyncOne(w, env, tasks[0]), env, tasks[1..])
  }

  /** The rows the tables commit to their targets. */
  function Committed(w: World, env: Environment, tasks: seq<Task>): nat
    decreases |tasks|
  {
    if tasks == [] then 0
    else |CopyFor(w, env, tasks[0]).copied| +
         if Dies(w, env, tasks[0]) then 0 else Committed(SyncOne(w, env, tasks[0]), env, tasks[1..])
  }

  lemma OneCounts(w: World, env: Environment, t: Task)
    requires w.totalRows == Inserted(w.logs)
    ensures var u := SyncOne(w, env, t); var c := CopyFor(w, env, t);
            u.totalRows == Inserted(u.logs) == w.totalRows + |c.copied| &&
            Count(u.logs, Completed)
            == Count(w.logs, Completed) + EndingCount([EndingOf(w, env, t)], Ended(Completed)) &&
            Count(u.logs, Failed) == Count(w.logs, Failed) + EndingCount([EndingOf(w, env, t)], Ended(Failed))
  {
    var c := CopyFor(w, env, t);
    NoBatchNoRows(ViewOf(w, env, t), t.config, t.script);
    if !t.script.setup.InvalidColumn? {
      var log := LogFor(w, env, t)[0];
      LastLog(w.logs, log, Completed);
      LastLog(w.logs, log, Failed);
      assert SyncOne(w, env, t).logs == w.logs + [log];
    }
  }

  lemma NoBatchNoRows(v: TableState, cfg: TableConfig, s: Script)
    ensures CopyOf(v, cfg, s).batches == 0 ==> CopyOf(v, cfg, s).copied == []
  {
    if s.setup.Ready? && !BoundOf(v, cfg).Invalid? {
      RowsComeInBatches(Query(RunOrder(cfg), BoundOf(v, cfg), cfg.size), StartCopy(v.source), ResolveAll(s.events));
    }
  }

  lemma {:induction false} CountJoin(e: Ending, ends: seq<Ending>, d: Ending)
    ensures EndingCount([e] + ends, d) == EndingCount([e], d) + EndingCount(ends, d)
  {
  }

  /**
   Conservation: the execution's row total, the sum of its logs and the rows committed to the targets are the same
   number, and the logs count the endings.
   */
  lemma {:induction false} Conservation(w: World, env: Environment, tasks: seq<Task>)
    requires w.totalRows == Inserted(w.logs)
    ensures var u := SyncAll(w, env, tasks);
            u.totalRows == Inserted(u.logs) == w.totalRows + Committed(w, env, tasks) &&
            Count(u.logs, Completed) == Count(w.logs, Completed) + EndingCount(Ends(w, env, tasks), Ended(Completed)) &&
            Count(u.logs, Failed) == Count(w.logs, Failed) + EndingCount(Ends(w, env, tasks), Ended(Failed))
    decreases |tasks|
  {
    if tasks != [] {
      OneCounts(w, env, tasks[0]);
      hide SyncOne, EndingOf, CopyFor, Count, Inserted, Dies;
      var e := EndingOf(w, env, tasks[0]);
      if Dies(w, env, tasks[0]) {
        assert [e] + [] == [e];
      } else {
        var u := SyncOne(w, env, tasks[0]);
        Conservation(u, env, tasks[1..]);
        CountJoin(e, Ends(u, env, tasks[1..]), Ended(Completed));
        CountJoin(e, Ends(u, env, tasks[1..]), Ended(Failed));
      }
    }
  }

  lemma {:induction false} EndsOfLiving(w: World, env: Environment, tasks: seq<Task>)
    ensures |Ends(w, env, tasks)| <= |tasks|
    ensures !SomeTaskDies(w, env, tasks) ==> |Ends(w, env, tasks)| == |tasks|
    decreases |tasks|
  {
    if tasks != [] {
      hide SyncOne, EndingOf, Dies;
      EndsOfLiving(SyncOne(w, env, tasks[0]), env, tasks[1..]);
    }
  }

  // ---------------------------------------------------------------- the whole execution

  /** The enabled tables, whether one of them lacks its incremental column, and whether the two databases answer. */
  datatype Request = Request(tasks: seq<Task>, columnMissing: bool, sourceUp: bool, targetUp: bool)

  function Execute(w: World, env: Environment, r: Request): ExecutionResult {
    if r.tasks == [] then ExecutionResult(w, Done, ReturnedNormally)
    else if r.columnMissing || !r.sourceUp || !r.targetUp then ExecutionResult(w, Broken, RaisedTableSync)
    else
      var u := SyncAll(w, env, r.tasks);
      if SomeTaskDies(w, env, r.tasks) then ExecutionResult(u, InProgress, ProcessDied)
      else ExecutionResult(u, IncrementalStatus(|r.tasks|, Count(u.logs, Completed), Count(u.logs, Failed)),
                           ReturnedNormally)
  }

  /** Every enabled table was reached and has a completed log. */
  predicate AllCompleted(w: World, env: Environment, tasks: seq<Task>) {
    var ends := Ends(w, env, tasks);
    |ends| == |tasks| && forall i :: 0 <= i < |ends| ==> ends[i] == Ended(Completed)
  }

  /** An execution that returns has status completed exactly when every enabled table completed. */
  lemma DoneIffAllCompleted(w: World, env: Environment, r: Request)
    requires w.logs == [] && w.totalRows == 0
    requires Execute(w, env, r).exit == ReturnedNormally
    ensures Execute(w, env, r).status == Done <==> AllCompleted(w, env, r.tasks)
  {
    if r.tasks != [] {
      Conservation(w, env, r.tasks);
      EndsOfLiving(w, env, r.tasks);
      IncrementalDoneIff(Ends(w, env, r.tasks));
    }
  }

  // ---------------------------------------------------------------- completed_tables

  function VisitOf(w: World, env: Environment, t: Task): Visit {
    Visit(EndingOf(w, env, t), CopyFor(w, env, t).batches > 0)
  }

  function Visits(w: World, env: Environment, tasks: seq<Task>): seq<Visit>
    decreases |tasks|
  {
    if tasks == [] then []
    else [VisitOf(w, env, tasks[0])] +
         if Dies(w, env, tasks[0]) then [] else Visits(SyncOne(w, env, tasks[0]), env, tasks[1..])
  }

  lemma OneVisit(w: World, env: Environment, t: Task)
    ensures Behind(SyncOne(w, env, t))
            == (if VisitOf(w, env, t).ending == Ended(Completed) then 1 else 0)
               + (if VisitOf(w, env, t).wrote then 0 else Behind(w))
  {
    if !t.script.setup.InvalidColumn? {
      LastLog(w.logs, LogFor(w, env, t)[0], Completed);
    }
    hide CopyPages, SavesMark, MarkAtEnd, Count, Inserted;
  }

  lemma {:induction false} BehindAfter(w: World, env: Environment, tasks: seq<Task>)
    ensures Behind(SyncAll(w, env, tasks))
            == Unseen(Visits(w, env, tasks)) + (if SomeWrote(Visits(w, env, tasks)) then 0 else Behind(w))
    decreases |tasks|
  {
    if tasks != [] {
      var visits, u := Visits(w, env, tasks), SyncOne(w, env, tasks[0]);
      OneVisit(w, env, tasks[0]);
      hide SyncOne, VisitOf, Dies, Behind, SomeWrote;
      SomeWroteFirst(visits);
      if Dies(w, env, tasks[0]) {
        assert visits[1..] == [] && !SomeWrote([]) by { NoVisitNoWrite(); }
        assert Unseen([]) == 0;
      } else {
        assert visits[1..] == Visits(u, env, tasks[1..]);
        BehindAfter(u, env, tasks[1..]);
      }
    }
  }

  /**
   completed_tables is refreshed only when a batch commits. At the end of an execution it is short of the completed
   logs by exactly the tables that completed with no later table committing a batch, so it is right if and only if
   there is none; the last table is never counted.
   */
  lemma CompletedTablesFallShort(w: World, env: Environment, tasks: seq<Task>)
    requires w.logs == [] && w.completedTables == 0
    ensures var u := SyncAll(w, env, tasks); var visits := Visits(w, env, tasks);
            Count(u.logs, Completed) - u.completedTables == Unseen(visits) &&
            (u.completedTables == Count(u.logs, Completed)
             <==> forall i :: 0 <= i < |visits| && visits[i].ending == Ended(Completed) ==> SomeWrote(visits[i + 1..]))
  {
    BehindAfter(w, env, tasks);
    UnseenZeroIff(Visits(w, env, tasks));
    hide SyncAll, Visits, SomeWrote, Unseen;
  }
}
