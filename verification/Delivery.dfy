/**
 What the executions of an incremental job mean for its tables: the history of a job is, for each of its tables,
 a history of that table, so what holds over histories of a table holds over histories of a job.
 */
module Delivery {
  import opened Checkpoints
  import opened Paging
  import opened TableRun
  import opened TableNames
  import opened Execution
  import opened IncrementalExecution
  import opened History

  /** The tables end as they would from the world at the start. */
  lemma {:induction false} EndsAlone(w: World, env: Environment, tasks: seq<Task>, i: nat)
    requires DistinctTables(tasks) && i < |Ends(w, env, tasks)|
    ensures i < |tasks| && Ends(w, env, tasks)[i] == EndingOf(w, env, tasks[i])
    decreases |tasks|
  {
    hide SyncOne, EndingOf, Dies, SameSide, DistinctTables;
    if i > 0 {
      var u, rest := SyncOne(w, env, tasks[0]), tasks[1..];
      RestSide(w, env, tasks);
      EndsAlone(u, env, rest, i - 1);
      SideDecides(w, u, env, rest[i - 1]);
    }
  }

  /** Where every table completed, none died, and each ended completed from the world at the start. */
  lemma CompletedAlone(w: World, env: Environment, tasks: seq<Task>, i: nat)
    requires DistinctTables(tasks) && AllCompleted(w, env, tasks) && i < |tasks|
    ensures Reached(w, env, tasks, i) && EndingOf(w, env, tasks[i]) == Ended(Completed)
  {
    hide EndingOf, DistinctTables;
    forall j | 0 <= j <= i ensures EndingOf(w, env, tasks[j]) == Ended(Completed) {
      EndsAlone(w, env, tasks, j);
    }
  }

  /** When the incremental executor reports completed, every enabled table had its own run, and that run completed. */
  lemma DoneMeansCompleted(w: World, env: Environment, r: Request, i: nat)
    requires AllApart(env, r.tasks) && i < |r.tasks| && w.logs == [] && w.totalRows == 0
    requires IncrementalExecution.Execute(w, env, r).exit == ReturnedNormally
    requires IncrementalExecution.Execute(w, env, r).status == Done
    ensures var t := r.tasks[i]; var v := ViewOf(w, env, t);
            ViewOf(IncrementalExecution.Execute(w, env, r).world, env, t) == AfterRun(v, t.config, t.script) &&
            Completes(v, t.config, t.script)
  {
    DoneIffAllCompleted(w, env, r);
    CompletedAlone(w, env, r.tasks, i);
    Isolation(w, env, r.tasks, i);
  }

  /**
   So every row of the source is in the target, but for late rows: for each table whose run was not disturbed, whatever
   happened to the others. SyncExecutor's own completed says no such thing: it overwrites this status.
   */
  lemma DoneMeansDelivered(w: World, env: Environment, r: Request, i: nat, late: set<Row>)
    requires AllApart(env, r.tasks) && i < |r.tasks| && w.logs == [] && w.totalRows == 0
    requires IncrementalExecution.Execute(w, env, r).exit == ReturnedNormally
    requires IncrementalExecution.Execute(w, env, r).status == Done
    requires var t := r.tasks[i]; var v := ViewOf(w, env, t);
             Accounts(v, t.config, late) && RunAdmissible(v, t.config, t.script)
    ensures var t := r.tasks[i]; var v := ViewOf(w, env, t);
            ViewOf(IncrementalExecution.Execute(w, env, r).world, env, t) == AfterRun(v, t.config, t.script) &&
            Caught(v, t.config, t.script, late)
  {
    DoneMeansCompleted(w, env, r, i);
    CompletedRunDelivers(ViewOf(w, env, r.tasks[i]), r.tasks[i].config, r.tasks[i].script, late);
  }

  // ---------------------------------------------------------------- histories of a job

  /** A table of the job with its configuration. */
  datatype JobTable = JobTable(table: TableName, config: TableConfig)

  /** What happens to a job: an execution, rows that arrive in a source table, and the two ways to reset checkpoints. */
  datatype JobStep =
    | Executes(request: Request)
    | Arrives(table: TableName, rows: seq<Row>)
    | ResetOne(table: TableName)
    | ResetAll

  function TaskFor(j: JobTable): Task { Task(j.table, j.config, Script(Ready, [], Saved)) }

  function TableView(w: World, env: Environment, j: JobTable): TableState { ViewOf(w, env, TaskFor(j)) }

  /** An execution starts with no logs and its counters at zero. */
  function Fresh(w: World): World { w.(logs := [], completedTables := 0, totalRows := 0) }

  function ApplyJob(w: World, env: Environment, s: JobStep): World {
    match s
    case Executes(r) => IncrementalExecution.Execute(Fresh(w), env, r).world
    case Arrives(n, rows) => w.(sources := w.sources[n := Rows(w.sources, n) + rows])
    case ResetOne(n) => w.(entries := w.entries - {EntryKey(env.job, n.schemaName, n.tableName)})
    case ResetAll => w.(entries := map k | k in w.entries && k.job != env.job :: w.entries[k])
  }

  function AfterJob(w: World, env: Environment, steps: seq<JobStep>): World
    decreases |steps|
  {
    if steps == [] then w else AfterJob(ApplyJob(w, env, steps[0]), env, steps[1..])
  }

  /** The job's tables differ, and so do their targets. */
  predicate WellFormed(env: Environment, job: seq<JobTable>) {
    forall i, j :: 0 <= i < |job| && 0 <= j < |job| && i != j ==> Apart(env, TaskFor(job[i]), TaskFor(job[j]))
  }

  /** An execution runs tables of the job, each at most once. */
  predicate Draws(job: seq<JobTable>, s: JobStep) {
    s.Executes? ==>
      DistinctTables(s.request.tasks) &&
      forall i :: 0 <= i < |s.request.tasks| ==> JobTable(s.request.tasks[i].table, s.request.tasks[i].config) in job
  }

  predicate DrawsAll(job: seq<JobTable>, steps: seq<JobStep>) {
    forall i :: 0 <= i < |steps| ==> Draws(job, steps[i])
  }

  // ---------------------------------------------------------------- the history of one table

  /** What an execution does with a table: nothing, or its run. */
  function RunsOf(w: World, env: Environment, tasks: seq<Task>, n: TableName): seq<HistoryStep>
    decreases |tasks|
  {
    if tasks == [] then []
    else if tasks[0].table == n then [Run(tasks[0].script)]
    else if Dies(w, env, tasks[0]) then []
    else RunsOf(w, env, tasks[1..], n)
  }

  function TableSteps(w: World, env: Environment, j: JobTable, s: JobStep): seq<HistoryStep> {
    match s
    case Executes(r) =>
      if r.columnMissing || !r.sourceUp || !r.targetUp then [] else RunsOf(Fresh(w), env, r.tasks, j.table)
    case Arrives(n, rows) => if n == j.table then [Append(rows)] else []
    case ResetOne(n) => if n == j.table then [Reset] else []
    case ResetAll => [Reset]
  }

  function TableHistory(w: World, env: Environment, j: JobTable, steps: seq<JobStep>): seq<HistoryStep>
    decreases |steps|
  {
    if steps == [] then []
    else TableSteps(w, env, j, steps[0]) + TableHistory(ApplyJob(w, env, steps[0]), env, j, steps[1..])
  }

  lemma {:induction false} RunsOfTable(w: World, env: Environment, tasks: seq<Task>, n: TableName, i: nat)
    requires DistinctTables(tasks) && i < |tasks| && tasks[i].table == n
    ensures RunsOf(w, env, tasks, n) == if Reached(w, env, tasks, i) then [Run(tasks[i].script)] else []
    decreases |tasks|
  {
    hide Dies;
    if i > 0 {
      var rest := tasks[1..];
      forall k | 0 <= k < |rest| ensures rest[k] == tasks[k + 1] {}
      RunsOfTable(w, env, rest, n, i - 1);
      if !Dies(w, env, tasks[0]) {
        ReachedShift(w, w, env, tasks, i);
      } else {
        assert !Reached(w, env, tasks, i);
      }
    }
  }

  lemma {:induction false} RunsOfNone(w: World, env: Environment, tasks: seq<Task>, n: TableName)
    requires forall i :: 0 <= i < |tasks| ==> tasks[i].table != n
    ensures RunsOf(w, env, tasks, n) == []
    decreases |tasks|
  {
    if tasks != [] {
      assert forall k :: 0 <= k < |tasks[1..]| ==> tasks[1..][k] == tasks[k + 1];
      RunsOfNone(w, env, tasks[1..], n);
    }
  }

  lemma SameTable(env: Environment, job: seq<JobTable>, a: JobTable, b: JobTable)
    requires WellFormed(env, job) && a in job && b in job
    ensures a == b || Apart(env, TaskFor(a), TaskFor(b))
  {
  }

  lemma RequestApart(env: Environment, job: seq<JobTable>, r: Request)
    requires WellFormed(env, job) && Draws(job, Executes(r))
    ensures AllApart(env, r.tasks)
  {
    hide WellFormed;
    forall i, j | 0 <= i < j < |r.tasks| ensures Apart(env, r.tasks[i], r.tasks[j]) {
      SameTable(env, job, JobTable(r.tasks[i].table, r.tasks[i].config), JobTable(r.tasks[j].table, r.tasks[j].config));
    }
  }

  lemma OneStep(t: TableState, cfg: TableConfig, s: HistoryStep)
    ensures After(t, cfg, [s]) == Apply(t, cfg, s)
  {
    assert After(Apply(t, cfg, s), cfg, []) == Apply(t, cfg, s);
  }

  /** The tables run: each table of the job sees nothing, or its own run. */
  lemma LoopProjects(w: World, env: Environment, job: seq<JobTable>, r: Request, j: JobTable)
    requires WellFormed(env, job) && Draws(job, Executes(r)) && j in job
    ensures TableView(SyncAll(w, env, r.tasks), env, j)
            == After(TableView(w, env, j), j.config, RunsOf(w, env, r.tasks, j.table))
  {
    RequestApart(env, job, r);
    hide SyncAll, WellFormed, AllApart, AfterRun, TargetOf, Stored, RunsOf, Reached;
    if i :| 0 <= i < |r.tasks| && r.tasks[i].table == j.table {
      SameTable(env, job, JobTable(r.tasks[i].table, r.tasks[i].config), j);
      assert ViewOf(w, env, r.tasks[i]) == TableView(w, env, j);
      RunsOfTable(w, env, r.tasks, j.table, i);
      Isolation(w, env, r.tasks, i);
      OneStep(TableView(w, env, j), j.config, Run(r.tasks[i].script));
    } else {
      RunsOfNone(w, env, r.tasks, j.table);
      forall i | 0 <= i < |r.tasks| ensures Apart(env, r.tasks[i], TaskFor(j)) {
        SameTable(env, job, JobTable(r.tasks[i].table, r.tasks[i].config), j);
      }
      OthersUntouched(w, env, r.tasks, TaskFor(j));
    }
  }

  lemma StepProjects(w: World, env: Environment, job: seq<JobTable>, s: JobStep, j: JobTable)
    requires WellFormed(env, job) && Draws(job, s) && j in job
    ensures TableView(ApplyJob(w, env, s), env, j) == After(TableView(w, env, j), j.config, TableSteps(w, env, j, s))
  {
    var v := TableView(w, env, j);
    match s
    case Executes(r) =>
      LoopProjects(Fresh(w), env, job, r, j);
      assert TableView(Fresh(w), env, j) == v;
      hide SyncAll, RunsOf, SomeTaskDies, TargetOf, Stored, After;
      EmptyHistory(v, j.config);
    case Arrives(n, rows) => OneStep(v, j.config, Append(rows));
    case ResetOne(n) => OneStep(v, j.config, Reset);
    case ResetAll => OneStep(v, j.config, Reset);
  }

  lemma EmptyHistory(t: TableState, cfg: TableConfig)
    ensures After(t, cfg, []) == t
  {
  }

  lemma {:induction false} AfterJoin(t: TableState, cfg: TableConfig, a: seq<HistoryStep>, b: seq<HistoryStep>)
    ensures After(t, cfg, a + b) == After(After(t, cfg, a), cfg, b)
    decreases |a|
  {
    hide Apply;
    if a == [] {
      assert a + b == b;
    } else {
      AfterJoin(Apply(t, cfg, a[0]), cfg, a[1..], b);
      assert (a + b)[1..] == a[1..] + b;
    }
  }

  /** The history of a job is a history of each of its tables. */
  lemma {:induction false} JobProjects(w: World, env: Environment, job: seq<JobTable>, steps: seq<JobStep>, j: JobTable)
    requires WellFormed(env, job) && DrawsAll(job, steps) && j in job
    ensures TableView(AfterJob(w, env, steps), env, j)
            == After(TableView(w, env, j), j.config, TableHistory(w, env, j, steps))
    decreases |steps|
  {
    if steps != [] {
      var u := ApplyJob(w, env, steps[0]);
      assert Draws(job, steps[0]);
      assert forall i :: 0 <= i < |steps[1..]| ==> steps[1..][i] == steps[i + 1];
      StepProjects(w, env, job, steps[0], j);
      hide ApplyJob, TableView, TableSteps, After, WellFormed, Draws;
      JobProjects(u, env, job, steps[1..], j);
      AfterJoin(TableView(w, env, j), j.config, TableSteps(w, env, j, steps[0]), TableHistory(u, env, j, steps[1..]));
    } else {
      hide TableView;
    }
  }

  // ---------------------------------------------------------------- what holds over the history of a job

  /**
   Over any history of executions, arrivals and resets, a table of the job loses no row but its late ones: for each
   table whose own runs were not disturbed, whatever happens to the others.
   */
  lemma JobLosesNoRow(w: World, env: Environment, job: seq<JobTable>, steps: seq<JobStep>, j: JobTable, late: set<Row>)
    requires WellFormed(env, job) && DrawsAll(job, steps) && j in job && Accounts(TableView(w, env, j), j.config, late)
    requires FitsAll(TableView(w, env, j), j.config, TableHistory(w, env, j, steps))
    requires AdmissibleAll(TableView(w, env, j), j.config, TableHistory(w, env, j, steps))
    ensures Accounts(TableView(AfterJob(w, env, steps), env, j), j.config,
                     LateRows(TableView(w, env, j), j.config, TableHistory(w, env, j, steps), late))
  {
    JobProjects(w, env, job, steps, j);
    NoRowLost(TableView(w, env, j), j.config, TableHistory(w, env, j, steps), late);
  }

  /**
   The checkpoint of a table never goes back but by a reset, wherever rows arrive and whatever happens to the others.
   */
  lemma JobCheckpointNeverDecreases(w: World, env: Environment, job: seq<JobTable>, steps: seq<JobStep>, j: JobTable)
    requires WellFormed(env, job) && DrawsAll(job, steps) && j in job && Consistent(TableView(w, env, j), j.config)
    requires FitsAll(TableView(w, env, j), j.config, TableHistory(w, env, j, steps))
    requires Reset !in TableHistory(w, env, j, steps)
    ensures var t, u := TableView(w, env, j), TableView(AfterJob(w, env, steps), env, j);
            Consistent(u, j.config) &&
            (t.stored.Some? ==>
               u.stored.Some? && StoredKey(u, j.config.column.kind) >= StoredKey(t, j.config.column.kind))
  {
    JobProjects(w, env, job, steps, j);
    CheckpointNeverDecreases(TableView(w, env, j), j.config, TableHistory(w, env, j, steps));
  }

  /** Whenever an execution behind such a history reports completed, its tables have all rows but their late ones. */
  lemma DoneAfterHistory(w: World, env: Environment, job: seq<JobTable>, steps: seq<JobStep>, r: Request, i: nat,
                         late: set<Row>)
    requires WellFormed(env, job) && DrawsAll(job, steps) && Draws(job, Executes(r)) && i < |r.tasks|
    requires var j := JobTable(r.tasks[i].table, r.tasks[i].config); var h := TableHistory(w, env, j, steps);
             Accounts(TableView(w, env, j), j.config, late) && AdmissibleAll(TableView(w, env, j), j.config, h) &&
             FitsAll(TableView(w, env, j), j.config, h) &&
             RunAdmissible(TableView(AfterJob(w, env, steps), env, j), j.config, r.tasks[i].script)
    requires var e := IncrementalExecution.Execute(Fresh(AfterJob(w, env, steps)), env, r);
             e.exit == ReturnedNormally && e.status == Done
    ensures var j := JobTable(r.tasks[i].table, r.tasks[i].config);
            var t, u := TableView(w, env, j), TableView(AfterJob(w, env, steps), env, j);
            TableView(ApplyJob(AfterJob(w, env, steps), env, Executes(r)), env, j)
            == AfterRun(u, j.config, r.tasks[i].script) &&
            StoredFits(u, j.config.column.kind) &&
            Caught(u, j.config, r.tasks[i].script, LateRows(t, j.config, TableHistory(w, env, j, steps), late))
  {
    var u, j := AfterJob(w, env, steps), JobTable(r.tasks[i].table, r.tasks[i].config);
    JobLosesNoRow(w, env, job, steps, j, late);
    RequestApart(env, job, r);
    assert ViewOf(Fresh(u), env, r.tasks[i]) == TableView(u, env, j);
    hide AfterJob, TableHistory, LateRows, Execute, RunAdmissible, SyncAll, AllApart, WellFormed, Stored, TargetOf;
    DoneMeansDelivered(Fresh(u), env, r, i,
                       LateRows(TableView(w, env, j), j.config, TableHistory(w, env, j, steps), late));
  }
}
