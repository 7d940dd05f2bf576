/**
 One run of IncrementalSyncExecutor.sync_table on one table, as a function of the table's state
 and a script of what goes wrong and what arrives (incremental_sync.py:245-447).
 */
module TableRun {
  import opened Wrappers
  import opened Values
  import opened SqlText
  import opened Paging
  import opened Retry

  /** retry_on_error(max_retries=3) on both batch calls */
  const MAX_RETRIES := 3

  /** One pass of the loop: the rows that arrive before the query, and the attempts at the fetch and at the insert. */
  datatype RunEvent = RunEvent(arrivals: seq<Row>, fetch: seq<bool>, insert: seq<bool>)

  /** How the preparation before the loop ends. An invalid column raises before there is a log. */
  datatype Setup = Ready | InvalidColumn | SetupFailed

  /**
   What becomes of the checkpoint write: it is done, it fails and the error is swallowed, or the process dies,
   before the write or between the write and the last save of the log.
   */
  datatype Save = Saved | Lost | Died | SavedThenDied {
    predicate Writes() { Saved? || SavedThenDied? }

    predicate Dies() { Died? || SavedThenDied? }
  }

  datatype Script = Script(setup: Setup, events: seq<RunEvent>, save: Save)

  datatype LogStatus = Running | Completed | Failed

  datatype Log = Log(schemaName: string, tableName: string, status: LogStatus,
                     rowsFetched: nat, rowsInserted: nat, batchNumber: nat)

  datatype Config = Config(column: Column, dialect: Dialect, session: Offset, orderBy: string, size: nat)

  /** The session has the zone of the column's values, which is where the driver takes it from. */
  type TableConfig = c: Config | c.size > 0 && ZoneKept(c.column, c.dialect, c.session)
    witness Config(ColumnInfo("bigint", IntKind), Postgres, 0, "", 1)

  /** ORDER BY incremental column, primary key, with NULL where the database puts it. */
  function RunOrder(cfg: TableConfig): Order { OrderOf(cfg.dialect) }

  /** A table's source rows, target rows, and the checkpoint text a run would read. */
  datatype TableState = TableState(source: seq<Row>, target: seq<Row>, stored: Option<string>)

  function Resolve(e: RunEvent): PageEvent {
    PageEvent(e.arrivals, Succeeds(e.fetch, MAX_RETRIES), Succeeds(e.insert, MAX_RETRIES))
  }

  function ResolveAll(events: seq<RunEvent>): (r: seq<PageEvent>)
    ensures |r| == |events| && forall i :: 0 <= i < |r| ==> r[i] == Resolve(events[i])
  {
    seq(|events|, i requires 0 <= i < |events| => Resolve(events[i]))
  }

  function Vals(rows: seq<Row>): (vs: seq<Value>)
    ensures |vs| == |rows| && forall i :: 0 <= i < |vs| ==> vs[i] == rows[i].val
  {
    seq(|rows|, i requires 0 <= i < |rows| => rows[i].val)
  }

  function MarkAtStart(t: TableState, cfg: TableConfig): Mark { StartMark(t.stored, cfg.column) }

  function BoundOf(t: TableState, cfg: TableConfig): Bound {
    WhereBound(MarkAtStart(t, cfg), cfg.dialect, cfg.column.kind, cfg.session, cfg.orderBy)
  }

  /** What the loop does; a preparation that fails, and a query the database rejects, copy nothing. */
  function CopyOf(t: TableState, cfg: TableConfig, s: Script): Copy {
    var bound := BoundOf(t, cfg);
    if !s.setup.Ready? || bound.Invalid? then StartCopy(t.source).(phase := Aborted)
    else CopyPages(Query(RunOrder(cfg), bound, cfg.size), StartCopy(t.source), ResolveAll(s.events))
  }

  /** The rows this run commits to the target. */
  function Delivered(t: TableState, cfg: TableConfig, s: Script): seq<Row> { CopyOf(t, cfg, s).copied }

  function MarkAtEnd(t: TableState, cfg: TableConfig, s: Script): Mark {
    Fold(MarkAtStart(t, cfg), Vals(Delivered(t, cfg, s)))
  }

  predicate SavesMark(t: TableState, cfg: TableConfig, s: Script) {
    CopyOf(t, cfg, s).phase.Drained? && s.save.Writes() &&
    MarkAtEnd(t, cfg, s) != NoMark && MarkAtEnd(t, cfg, s) != MarkAtStart(t, cfg)
  }

  function AfterRun(t: TableState, cfg: TableConfig, s: Script): TableState {
    var c := CopyOf(t, cfg, s);
    TableState(c.source, t.target + c.copied,
               if SavesMark(t, cfg, s) then Some(MarkText(MarkAtEnd(t, cfg, s))) else t.stored)
  }

  function StatusOf(c: Copy, save: Save): LogStatus {
    if c.phase.Aborted? then Failed
    else if c.phase.Drained? && !save.Dies() then Completed
    else Running
  }

  predicate Completes(t: TableState, cfg: TableConfig, s: Script) {
    s.setup != InvalidColumn && StatusOf(CopyOf(t, cfg, s), s.save).Completed?
  }

  // ---------------------------------------------------------------- tables and their checkpoints

  /** Distinct keys, and a value of the column's kind or NULL in every row. */
  predicate RowsFit(rows: seq<Row>, k: Kind) {
    DistinctKeys(rows) && forall r :: r in rows ==> r.val.Null? || Fits(r.val, k)
  }

  predicate StoredFits(t: TableState, k: Kind) {
    t.stored.Some? ==>
      var v := DbValue(k, t.stored.value);
      v.Some? && Fits(v.value, k) && Str(v.value) == t.stored.value
  }

  function StoredKey(t: TableState, k: Kind): int
    requires StoredFits(t, k) && t.stored.Some?
  {
    Key(DbValue(k, t.stored.value).value)
  }

  /** Not above the stored checkpoint, or NULL when there is one: no run selects it. */
  predicate Settled(t: TableState, k: Kind, r: Row)
    requires StoredFits(t, k)
  {
    t.stored.Some? && (r.val.Null? || Key(r.val) <= StoredKey(t, k))
  }

  lemma StartOfRun(t: TableState, cfg: TableConfig)
    requires StoredFits(t, cfg.column.kind)
    ensures t.stored.None? ==> MarkAtStart(t, cfg) == NoMark && BoundOf(t, cfg) == All
    ensures t.stored.Some? ==>
              Canonical(MarkAtStart(t, cfg), cfg.column.kind) &&
              MarkKey(MarkAtStart(t, cfg), cfg.column.kind) == StoredKey(t, cfg.column.kind) &&
              BoundOf(t, cfg) == Above(StoredKey(t, cfg.column.kind))
  {
    if t.stored.Some? {
      var v := DbValue(cfg.column.kind, t.stored.value).value;
      StoreAndParse(v, cfg.column);
      StoredCheckpointBounds(v, cfg.column, cfg.dialect, cfg.session, cfg.orderBy);
    }
  }

  /** The rows a query leaves out are the settled ones. */
  lemma PassesUnsettled(t: TableState, cfg: TableConfig, r: Row)
    requires StoredFits(t, cfg.column.kind)
    ensures Passes(r, BoundOf(t, cfg)) <==> !Settled(t, cfg.column.kind, r)
  {
    StartOfRun(t, cfg);
  }

  // ---------------------------------------------------------------- rows that arrive during a run

  /** The rows that arrive while the loop runs have new keys and fitting values. */
  predicate ArriveAll(q: PagedQuery, c: Copy, events: seq<PageEvent>, k: Kind)
    decreases |events|
  {
    events == [] || !c.phase.Fetching? ||
    (RowsFit(c.source + events[0].arrivals, k) && ArriveAll(q, NextPage(q, c, events[0]), events[1..], k))
  }

  /** The run gets as far as its loop. */
  predicate Loops(t: TableState, cfg: TableConfig, s: Script) { s.setup.Ready? && !BoundOf(t, cfg).Invalid? }

  function QueryOf(t: TableState, cfg: TableConfig): PagedQuery
    requires !BoundOf(t, cfg).Invalid?
  {
    Query(RunOrder(cfg), BoundOf(t, cfg), cfg.size)
  }

  predicate RunArrives(t: TableState, cfg: TableConfig, s: Script) {
    Loops(t, cfg, s) ==> ArriveAll(QueryOf(t, cfg), StartCopy(t.source), ResolveAll(s.events), cfg.column.kind)
  }

  /** No row that arrives sorts before the last row the run has copied by then. */
  predicate RunUndisturbed(t: TableState, cfg: TableConfig, s: Script) {
    Loops(t, cfg, s) ==> Undisturbed(QueryOf(t, cfg), StartCopy(t.source), ResolveAll(s.events))
  }

  predicate RunAdmissible(t: TableState, cfg: TableConfig, s: Script) {
    RunArrives(t, cfg, s) && RunUndisturbed(t, cfg, s)
  }

  predicate GrownFrom(base: seq<Row>, k: Kind, rows: seq<Row>) {
    RowsFit(rows, k) && forall r :: r in base ==> r in rows
  }

  lemma GrowthStep(base: seq<Row>, rows: seq<Row>, arrivals: seq<Row>, k: Kind)
    requires GrownFrom(base, k, rows) && RowsFit(rows + arrivals, k)
    ensures GrownFrom(base, k, rows + arrivals)
  {
  }

  /** What the source is after the loop, and that its keys stayed distinct. */
  lemma {:induction false} SourceGrows(q: PagedQuery, c: Copy, events: seq<PageEvent>, base: seq<Row>, k: Kind)
    requires GrownFrom(base, k, c.source) && ArriveAll(q, c, events, k)
    ensures GrownFrom(base, k, CopyPages(q, c, events).source) && Keyed(q, c, events)
    decreases |events|
  {
    if events != [] && c.phase.Fetching? {
      GrowthStep(base, c.source, events[0].arrivals, k);
      assert NextPage(q, c, events[0]).source == c.source + events[0].arrivals;
      assert DistinctKeys(c.source + events[0].arrivals);
      hide NextPage, GrownFrom, DistinctKeys;
      SourceGrows(q, NextPage(q, c, events[0]), events[1..], base, k);
    }
  }

  /** What the source is after a run. */
  lemma RunGrows(t: TableState, cfg: TableConfig, s: Script)
    requires RowsFit(t.source, cfg.column.kind) && StoredFits(t, cfg.column.kind) && RunArrives(t, cfg, s)
    ensures !BoundOf(t, cfg).Invalid? && GrownFrom(t.source, cfg.column.kind, CopyOf(t, cfg, s).source)
    ensures Loops(t, cfg, s) ==> Keyed(QueryOf(t, cfg), StartCopy(t.source), ResolveAll(s.events))
  {
    StartOfRun(t, cfg);
    assert GrownFrom(t.source, cfg.column.kind, t.source);
    if s.setup.Ready? {
      SourceGrows(QueryOf(t, cfg), StartCopy(t.source), ResolveAll(s.events), t.source, cfg.column.kind);
    }
  }

  /** What a run delivers: a part of the ordered unsettled rows, all of them when it ends normally. */
  lemma RunDelivers(t: TableState, cfg: TableConfig, s: Script)
    requires RowsFit(t.source, cfg.column.kind) && StoredFits(t, cfg.column.kind) && RunAdmissible(t, cfg, s)
    ensures var c := CopyOf(t, cfg, s); var bound := BoundOf(t, cfg);
            GrownFrom(t.source, cfg.column.kind, c.source) && !bound.Invalid? &&
            |c.copied| <= |Select(RunOrder(cfg), bound, c.source)| &&
            c.copied == Select(RunOrder(cfg), bound, c.source)[..|c.copied|] &&
            (c.phase.Drained? ==> c.copied == Select(RunOrder(cfg), bound, c.source))
  {
    RunGrows(t, cfg, s);
    if s.setup.Ready? {
      StartInv(QueryOf(t, cfg), t.source);
      CopyKeeps(QueryOf(t, cfg), StartCopy(t.source), ResolveAll(s.events));
    }
  }

  /** The rows a run delivers are source rows above the checkpoint, each of them once and in order. */
  lemma DeliveredRows(t: TableState, cfg: TableConfig, s: Script)
    requires RowsFit(t.source, cfg.column.kind) && StoredFits(t, cfg.column.kind) && RunAdmissible(t, cfg, s)
    ensures var c := CopyOf(t, cfg, s);
            (forall r :: r in c.copied ==> r in c.source && Passes(r, BoundOf(t, cfg))) &&
            (c.phase.Drained? ==> forall r :: r in c.source && Passes(r, BoundOf(t, cfg)) ==> r in c.copied) &&
            Sorted(RunOrder(cfg), c.copied)
  {
    RunDelivers(t, cfg, s);
    var c := CopyOf(t, cfg, s);
    SelectSpec(RunOrder(cfg), BoundOf(t, cfg), c.source);
    var all := Select(RunOrder(cfg), BoundOf(t, cfg), c.source);
    assert forall i :: 0 <= i < |c.copied| ==> c.copied[i] == all[i];
    forall r | r in c.copied ensures r in all {
      var i :| 0 <= i < |c.copied| && c.copied[i] == r;
      assert all[i] == r;
    }
  }
}
