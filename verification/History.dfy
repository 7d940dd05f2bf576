/**
 Whole histories of one table of an incremental job: rows arrive at any time, runs end well, fail or die,
 checkpoint writes get lost, checkpoints are reset.
 */
module History {
  import opened Wrappers
  import opened Values
  import opened Paging
  import opened TableRun

  datatype HistoryStep = Append(rows: seq<Row>) | Run(script: Script) | Reset

  function Apply(t: TableState, cfg: TableConfig, s: HistoryStep): TableState {
    match s
    case Append(rows) => t.(source := t.source + rows)
    case Run(script) => AfterRun(t, cfg, script)
    case Reset => t.(stored := None)
  }

  function After(t: TableState, cfg: TableConfig, steps: seq<HistoryStep>): TableState
    decreases |steps|
  {
    if steps == [] then t else After(Apply(t, cfg, steps[0]), cfg, steps[1..])
  }

  /** Distinct keys and fitting values in the source, and a checkpoint that is the text of a value. */
  predicate Consistent(t: TableState, cfg: TableConfig) {
    RowsFit(t.source, cfg.column.kind) && StoredFits(t, cfg.column.kind)
  }

  /**
   Rows that arrive, between runs or during one, have new keys and fitting values; where they sort does not matter.
   */
  predicate FitsStep(t: TableState, cfg: TableConfig, s: HistoryStep) {
    match s
    case Append(rows) => RowsFit(t.source + rows, cfg.column.kind)
    case Run(script) => RunArrives(t, cfg, script)
    case Reset => true
  }

  predicate FitsAll(t: TableState, cfg: TableConfig, steps: seq<HistoryStep>)
    decreases |steps|
  {
    steps == [] || (FitsStep(t, cfg, steps[0]) && FitsAll(Apply(t, cfg, steps[0]), cfg, steps[1..]))
  }

  /** Besides, no run is disturbed. */
  predicate Admissible(t: TableState, cfg: TableConfig, s: HistoryStep) {
    FitsStep(t, cfg, s) && (s.Run? ==> RunUndisturbed(t, cfg, s.script))
  }

  predicate AdmissibleAll(t: TableState, cfg: TableConfig, steps: seq<HistoryStep>)
    decreases |steps|
  {
    steps == [] || (Admissible(t, cfg, steps[0]) && AdmissibleAll(Apply(t, cfg, steps[0]), cfg, steps[1..]))
  }

  // ---------------------------------------------------------------- one run

  /** The rows a run copies are rows of its grown source that its query selects, disturbed or not. */
  lemma CopiedRows(t: TableState, cfg: TableConfig, s: Script)
    requires Consistent(t, cfg) && RunArrives(t, cfg, s)
    ensures forall r :: r in Delivered(t, cfg, s) ==>
              r in AfterRun(t, cfg, s).source && Passes(r, BoundOf(t, cfg)) &&
              (r.val.Null? || Fits(r.val, cfg.column.kind))
    ensures AllFit(Vals(Delivered(t, cfg, s)), cfg.column.kind)
  {
    RunGrows(t, cfg, s);
    var rows := Delivered(t, cfg, s);
    if s.setup.Ready? {
      var q := QueryOf(t, cfg);
      CopiesSelected(q, StartCopy(t.source), ResolveAll(s.events));
      assert CopyOf(t, cfg, s) == CopyPages(q, StartCopy(t.source), ResolveAll(s.events));
      assert q.bound == BoundOf(t, cfg);
    } else {
      assert rows == [];
    }
    hide CopyOf, BoundOf, CopyPages;
    forall i | 0 <= i < |rows| ensures rows[i].val.Null? || Fits(rows[i].val, cfg.column.kind) {
      assert rows[i] in rows;
    }
  }

  /** A checkpoint that moves was carried by a row that this run delivered, above the old checkpoint. */
  lemma SavedMark(t: TableState, cfg: TableConfig, s: Script)
    requires Consistent(t, cfg) && RunArrives(t, cfg, s) && SavesMark(t, cfg, s)
    ensures StoredFits(AfterRun(t, cfg, s), cfg.column.kind)
    ensures exists r :: r in Delivered(t, cfg, s) && r.val != Null &&
                        AfterRun(t, cfg, s).stored == Some(Str(r.val)) &&
                        StoredKey(AfterRun(t, cfg, s), cfg.column.kind) == Key(r.val)
    ensures Canonical(MarkAtEnd(t, cfg, s), cfg.column.kind)
    ensures StoredKey(AfterRun(t, cfg, s), cfg.column.kind) == MarkKey(MarkAtEnd(t, cfg, s), cfg.column.kind)
    ensures t.stored.Some? ==> StoredKey(AfterRun(t, cfg, s), cfg.column.kind) > StoredKey(t, cfg.column.kind)
  {
    hide Str, DbValue, Fold, CopyOf, BoundOf;
    FoldProvenance(MarkAtStart(t, cfg), Vals(Delivered(t, cfg, s)));
    var i :| 0 <= i < |Delivered(t, cfg, s)| && Delivered(t, cfg, s)[i].val != Null &&
             MarkAtEnd(t, cfg, s) == Typed(Delivered(t, cfg, s)[i].val);
    var r := Delivered(t, cfg, s)[i];
    CopiedRows(t, cfg, s);
    assert r in Delivered(t, cfg, s);
    ReadStr(r.val, cfg.column.kind);
    StartOfRun(t, cfg);
  }

  /** Each step keeps the state consistent, and without a reset what is settled stays settled. */
  lemma StepKeepsFit(t: TableState, cfg: TableConfig, s: HistoryStep)
    requires Consistent(t, cfg) && FitsStep(t, cfg, s)
    ensures Consistent(Apply(t, cfg, s), cfg)
    ensures s != Reset && t.stored.Some? ==>
              var u := Apply(t, cfg, s);
              u.stored.Some? && StoredKey(u, cfg.column.kind) >= StoredKey(t, cfg.column.kind)
    ensures s != Reset ==>
              forall r :: Settled(t, cfg.column.kind, r) ==> Settled(Apply(t, cfg, s), cfg.column.kind, r)
  {
    if s.Run? {
      RunGrows(t, cfg, s.script);
      if SavesMark(t, cfg, s.script) { SavedMark(t, cfg, s.script); }
    }
    hide CopyOf, BoundOf, DbValue, Str, RowsFit;
  }

  // ---------------------------------------------------------------- checkpoints, wherever rows arrive

  /** Without a reset the stored checkpoint never goes back in the column order. */
  lemma {:induction false} CheckpointNeverDecreases(t: TableState, cfg: TableConfig, steps: seq<HistoryStep>)
    requires Consistent(t, cfg) && FitsAll(t, cfg, steps) && Reset !in steps
    ensures Consistent(After(t, cfg, steps), cfg)
    ensures t.stored.Some? ==>
              After(t, cfg, steps).stored.Some? &&
              StoredKey(After(t, cfg, steps), cfg.column.kind) >= StoredKey(t, cfg.column.kind)
    decreases |steps|
  {
    if steps != [] {
      StepKeepsFit(t, cfg, steps[0]);
      hide Apply, FitsStep, Consistent, Settled, StoredKey;
      CheckpointNeverDecreases(Apply(t, cfg, steps[0]), cfg, steps[1..]);
    }
  }

  /** The checkpoint, if there is one, is the text of a value in the target. */
  predicate Carried(t: TableState) {
    t.stored.Some? ==> exists r :: r in t.target && Str(r.val) == t.stored.value
  }

  lemma StepKeepsCarried(t: TableState, cfg: TableConfig, s: HistoryStep)
    requires Consistent(t, cfg) && FitsStep(t, cfg, s) && Carried(t)
    ensures Carried(Apply(t, cfg, s))
  {
    if s.Run? {
      var u, rows := AfterRun(t, cfg, s.script), Delivered(t, cfg, s.script);
      if SavesMark(t, cfg, s.script) { SavedMark(t, cfg, s.script); }
      hide CopyOf, BoundOf, MarkAtEnd, Str, StoredFits, StoredKey, SavesMark;
      if u.stored.Some? {
        var r :| (r in t.target || r in rows) && Str(r.val) == u.stored.value;
        assert r in u.target;
      }
    }
  }

  /** Over any history the checkpoint is a value carried by some delivered row. */
  lemma {:induction false} CheckpointIsCarried(t: TableState, cfg: TableConfig, steps: seq<HistoryStep>)
    requires Consistent(t, cfg) && FitsAll(t, cfg, steps) && Carried(t)
    ensures Carried(After(t, cfg, steps))
    decreases |steps|
  {
    if steps != [] {
      StepKeepsFit(t, cfg, steps[0]);
      StepKeepsCarried(t, cfg, steps[0]);
      hide Apply, FitsStep, Consistent, Carried;
      CheckpointIsCarried(Apply(t, cfg, steps[0]), cfg, steps[1..]);
    }
  }

  /** A step that is no reset leaves the copies of a settled row as they are. */
  lemma StepKeepsSettled(t: TableState, cfg: TableConfig, s: HistoryStep, r: Row)
    requires Consistent(t, cfg) && FitsStep(t, cfg, s) && Settled(t, cfg.column.kind, r)
    ensures multiset(Apply(t, cfg, s).target)[r] == multiset(t.target)[r]
  {
    if s.Run? {
      CopiedRows(t, cfg, s.script);
      PassesUnsettled(t, cfg, r);
      hide CopyOf, BoundOf, Settled, StoredFits, RowsFit;
      assert r !in Delivered(t, cfg, s.script);
    }
  }

  /** Once the stored checkpoint has reached a row, no run delivers the row again until a reset. */
  lemma {:induction false} SettledCount(t: TableState, cfg: TableConfig, steps: seq<HistoryStep>, r: Row)
    requires Consistent(t, cfg) && FitsAll(t, cfg, steps) && Reset !in steps && Settled(t, cfg.column.kind, r)
    ensures multiset(After(t, cfg, steps).target)[r] == multiset(t.target)[r]
    decreases |steps|
  {
    if steps != [] {
      StepKeepsFit(t, cfg, steps[0]);
      StepKeepsSettled(t, cfg, steps[0], r);
      hide Apply, FitsStep, Settled, StoredFits, RowsFit;
      SettledCount(Apply(t, cfg, steps[0]), cfg, steps[1..], r);
    }
  }

  /** So a missing row that no run selects stays missing until a reset. */
  lemma LateRowStaysLost(t: TableState, cfg: TableConfig, steps: seq<HistoryStep>, r: Row)
    requires Consistent(t, cfg) && FitsAll(t, cfg, steps) && Reset !in steps
    requires Settled(t, cfg.column.kind, r) && r !in t.target
    ensures r !in After(t, cfg, steps).target
  {
    SettledCount(t, cfg, steps, r);
    assert r in After(t, cfg, steps).target <==> multiset(After(t, cfg, steps).target)[r] > 0;
    assert r in t.target <==> multiset(t.target)[r] > 0;
  }

  // ---------------------------------------------------------------- late rows

  /**
   The rows that were settled when they arrived, at or below the checkpoint or NULL behind one, since the last reset.
   */
  function LateAfter(t: TableState, cfg: TableConfig, s: HistoryStep, late: set<Row>): set<Row>
    requires StoredFits(t, cfg.column.kind)
  {
    match s
    case Append(rows) => late + set r | r in rows && Settled(t, cfg.column.kind, r)
    case Run(script) =>
      late + set r | r in AfterRun(t, cfg, script).source && r !in t.source && Settled(t, cfg.column.kind, r)
    case Reset => {}
  }

  function LateRows(t: TableState, cfg: TableConfig, steps: seq<HistoryStep>, late: set<Row>): set<Row>
    requires Consistent(t, cfg) && FitsAll(t, cfg, steps)
    decreases |steps|
  {
    if steps == [] then late
    else
      StepKeepsFit(t, cfg, steps[0]);
      LateRows(Apply(t, cfg, steps[0]), cfg, steps[1..], LateAfter(t, cfg, steps[0], late))
  }

  /** Of the source rows that no later run selects, exactly the late ones are missing from the target. */
  predicate Accounts(t: TableState, cfg: TableConfig, late: set<Row>) {
    var k := cfg.column.kind;
    Consistent(t, cfg) && Carried(t) &&
    (forall r :: r in t.target ==> r in t.source) &&
    (forall r :: r in late ==> r in t.source && Settled(t, k, r)) &&
    (forall r :: r in t.source && Settled(t, k, r) ==> (r in late <==> r !in t.target))
  }

  /** What is in the target, and what is late, are rows of the source. */
  lemma RunKeepsWithin(t: TableState, cfg: TableConfig, s: Script, late: set<Row>)
    requires Accounts(t, cfg, late) && RunArrives(t, cfg, s)
    ensures forall r :: r in AfterRun(t, cfg, s).target ==> r in AfterRun(t, cfg, s).source
    ensures forall r :: r in LateAfter(t, cfg, Run(s), late) ==>
              r in AfterRun(t, cfg, s).source && Settled(t, cfg.column.kind, r)
  {
    CopiedRows(t, cfg, s);
    RunGrows(t, cfg, s);
    hide CopyOf, BoundOf, Str, DbValue, Carried, StoredFits, RowsFit, MarkAtEnd, Passes, SavesMark, RunArrives, Settled;
    forall r | r in AfterRun(t, cfg, s).target ensures r in AfterRun(t, cfg, s).source {
      assert r in t.target || r in Delivered(t, cfg, s);
    }
  }

  /** An undisturbed run, whatever its faults, keeps account. */
  lemma RunAccounts(t: TableState, cfg: TableConfig, s: Script, late: set<Row>)
    requires Accounts(t, cfg, late) && RunAdmissible(t, cfg, s)
    ensures Accounts(AfterRun(t, cfg, s), cfg, LateAfter(t, cfg, Run(s), late))
  {
    StepKeepsFit(t, cfg, Run(s));
    StepKeepsCarried(t, cfg, Run(s));
    RunKeepsWithin(t, cfg, s, late);
    var k, u, lost := cfg.column.kind, AfterRun(t, cfg, s), LateAfter(t, cfg, Run(s), late);
    assert Consistent(u, cfg) && Carried(u);
    hide AfterRun, LateAfter, Settled, StoredFits, RowsFit, Carried, RunArrives, RunUndisturbed, StoredKey;
    forall r | r in u.source && Settled(u, k, r) ensures r in lost <==> r !in u.target {
      RunAccountsFor(t, cfg, s, late, r);
    }
  }

  /** The account of one row: settled before the run, or delivered by it. */
  lemma RunAccountsFor(t: TableState, cfg: TableConfig, s: Script, late: set<Row>, r: Row)
    requires Accounts(t, cfg, late) && RunAdmissible(t, cfg, s) && StoredFits(AfterRun(t, cfg, s), cfg.column.kind)
    requires r in AfterRun(t, cfg, s).source && Settled(AfterRun(t, cfg, s), cfg.column.kind, r)
    ensures r in LateAfter(t, cfg, Run(s), late) <==> r !in AfterRun(t, cfg, s).target
  {
    var u, rows := AfterRun(t, cfg, s), Delivered(t, cfg, s);
    DeliveredRows(t, cfg, s);
    PassesUnsettled(t, cfg, r);
    assert u.stored != t.stored ==> CopyOf(t, cfg, s).phase.Drained?;
    hide CopyOf, BoundOf, Str, DbValue, Carried, StoredFits, RowsFit, MarkAtEnd, Passes, SavesMark, RunAdmissible,
         StoredKey;
    assert r in u.target <==> r in t.target || r in rows;
    assert u.stored == t.stored ==> Settled(t, cfg.column.kind, r);
  }

  lemma AppendAccounts(t: TableState, cfg: TableConfig, rows: seq<Row>, late: set<Row>)
    requires Accounts(t, cfg, late) && FitsStep(t, cfg, Append(rows))
    ensures Accounts(Apply(t, cfg, Append(rows)), cfg, LateAfter(t, cfg, Append(rows), late))
  {
    var k, u, lost := cfg.column.kind, Apply(t, cfg, Append(rows)), LateAfter(t, cfg, Append(rows), late);
    DistinctPart(t.source, rows);
    hide DbValue, Str, DistinctKeys;
    forall r ensures Settled(u, k, r) == Settled(t, k, r) {}
    forall r | r in u.source && Settled(u, k, r) ensures r in lost <==> r !in u.target {
      assert r in t.source || r in rows;
    }
  }

  lemma StepAccounts(t: TableState, cfg: TableConfig, s: HistoryStep, late: set<Row>)
    requires Accounts(t, cfg, late) && Admissible(t, cfg, s)
    ensures Accounts(Apply(t, cfg, s), cfg, LateAfter(t, cfg, s, late))
  {
    match s
    case Append(rows) => AppendAccounts(t, cfg, rows, late);
    case Run(script) => RunAccounts(t, cfg, script, late);
    case Reset =>
  }

  /**
   No row is lost but the late ones: over any history of undisturbed runs, of rows that arrive anywhere and at any time,
   and of resets, a source row that no later run selects is missing from the target if and only if no run selected it
   when it arrived.
   */
  lemma {:induction false} NoRowLost(t: TableState, cfg: TableConfig, steps: seq<HistoryStep>, late: set<Row>)
    requires Accounts(t, cfg, late) && FitsAll(t, cfg, steps) && AdmissibleAll(t, cfg, steps)
    ensures Accounts(After(t, cfg, steps), cfg, LateRows(t, cfg, steps, late))
    decreases |steps|
  {
    if steps != [] {
      StepKeepsFit(t, cfg, steps[0]);
      StepAccounts(t, cfg, steps[0], late);
      hide Accounts, Apply, Admissible, FitsStep, LateAfter;
      NoRowLost(Apply(t, cfg, steps[0]), cfg, steps[1..], LateAfter(t, cfg, steps[0], late));
    }
  }

  /** Nothing is missing. */
  predicate Safe(t: TableState, cfg: TableConfig) { Accounts(t, cfg, {}) }

  /** A job that has never run is safe, whatever its source holds. */
  lemma FreshIsSafe(rows: seq<Row>, cfg: TableConfig)
    requires RowsFit(rows, cfg.column.kind)
    ensures Safe(TableState(rows, [], None), cfg)
  {
  }

  // ---------------------------------------------------------------- the mark at the end of a run

  /** Columns whose checkpoint compares by value: all dates and datetimes, and the integer types the parser lists. */
  predicate ComparesByValue(c: Column) { Listed(c) || c.kind != IntKind }

  lemma StartComparable(t: TableState, cfg: TableConfig)
    requires StoredFits(t, cfg.column.kind) && (ComparesByValue(cfg.column) || t.stored.None?)
    ensures Comparable(MarkAtStart(t, cfg), cfg.column.kind)
  {
    hide Str, DbValue;
    if t.stored.Some? {
      StoreAndParse(DbValue(cfg.column.kind, t.stored.value).value, cfg.column);
    }
  }

  /** The mark of a run that compares by value is no less than any value it delivered. */
  lemma MarkIsMaximum(t: TableState, cfg: TableConfig, s: Script, r: Row)
    requires Consistent(t, cfg) && RunArrives(t, cfg, s) && r in Delivered(t, cfg, s) && r.val != Null
    requires ComparesByValue(cfg.column) || t.stored.None?
    ensures Canonical(MarkAtEnd(t, cfg, s), cfg.column.kind)
    ensures Key(r.val) <= MarkKey(MarkAtEnd(t, cfg, s), cfg.column.kind)
  {
    StartComparable(t, cfg);
    CopiedRows(t, cfg, s);
    FoldIsMaximum(MarkAtStart(t, cfg), Vals(Delivered(t, cfg, s)), cfg.column.kind);
    hide CopyOf, Fold, Canonical, MarkKey, MarkAtStart;
    var i :| 0 <= i < |Delivered(t, cfg, s)| && Delivered(t, cfg, s)[i] == r;
    assert Vals(Delivered(t, cfg, s))[i] == r.val;
  }

  // ---------------------------------------------------------------- what disturbs a run

  /** A completed run leaves in the target every row of the source but the late ones. */
  predicate Caught(t: TableState, cfg: TableConfig, s: Script, late: set<Row>)
    requires StoredFits(t, cfg.column.kind)
  {
    var u := AfterRun(t, cfg, s);
    forall r :: r in u.source ==> (r in u.target <==> r !in LateAfter(t, cfg, Run(s), late))
  }

  lemma CompletedRunDelivers(t: TableState, cfg: TableConfig, s: Script, late: set<Row>)
    requires Accounts(t, cfg, late) && RunAdmissible(t, cfg, s) && Completes(t, cfg, s)
    ensures Caught(t, cfg, s, late)
  {
    var u, rows := AfterRun(t, cfg, s), Delivered(t, cfg, s);
    DeliveredRows(t, cfg, s);
    RunGrows(t, cfg, s);
    assert CopyOf(t, cfg, s).phase.Drained?;
    hide CopyOf, BoundOf, Str, DbValue, Carried, StoredFits, RowsFit, MarkAtEnd, Passes, SavesMark;
    forall r | r in u.source ensures r in u.target <==> r !in LateAfter(t, cfg, Run(s), late) {
      PassesUnsettled(t, cfg, r);
      assert r in u.target <==> r in t.target || r in rows;
    }
  }

  /** A disturbed run that drains leaves out a row that its query selects, and that sorts before a row it delivered. */
  lemma DisturbedRunMisses(t: TableState, cfg: TableConfig, s: Script, late: set<Row>) returns (m: Row, l: Row)
    requires Accounts(t, cfg, late) && RunArrives(t, cfg, s) && !RunUndisturbed(t, cfg, s)
    requires CopyOf(t, cfg, s).phase.Drained?
    ensures m in AfterRun(t, cfg, s).source && m !in AfterRun(t, cfg, s).target && !Settled(t, cfg.column.kind, m)
    ensures l in Delivered(t, cfg, s) && Before(RunOrder(cfg), m, l)
  {
    RunGrows(t, cfg, s);
    StartInv(QueryOf(t, cfg), t.source);
    m, l := DisturbedLeavesGap(QueryOf(t, cfg), StartCopy(t.source), ResolveAll(s.events), t.source);
    SelectSpec(RunOrder(cfg), BoundOf(t, cfg), CopyOf(t, cfg, s).source);
    PassesUnsettled(t, cfg, m);
    hide CopyPages, BoundOf, Select, Undisturbed, ArriveAll, Keyed, Settled, Carried, DbValue;
  }

  /**
   The rule for arrivals is exact: a completed run has delivered everything but late rows if and only if nothing
   disturbed it.
   */
  lemma CompletedRunDeliversIff(t: TableState, cfg: TableConfig, s: Script, late: set<Row>)
    requires Accounts(t, cfg, late) && RunArrives(t, cfg, s) && Completes(t, cfg, s)
    ensures Caught(t, cfg, s, late) <==> RunUndisturbed(t, cfg, s)
  {
    if RunUndisturbed(t, cfg, s) {
      CompletedRunDelivers(t, cfg, s, late);
    } else {
      var m, l := DisturbedRunMisses(t, cfg, s, late);
      hide CopyOf, Settled;
      assert m !in LateAfter(t, cfg, Run(s), late);
    }
  }

  /** A row that sorts before a delivered one is settled by a mark that is saved. */
  lemma MissedIsSettled(t: TableState, cfg: TableConfig, s: Script, m: Row, l: Row)
    requires Consistent(t, cfg) && RunArrives(t, cfg, s) && SavesMark(t, cfg, s)
    requires ComparesByValue(cfg.column) || t.stored.None?
    requires l in Delivered(t, cfg, s) && Before(RunOrder(cfg), m, l)
    requires RunOrder(cfg).NullsLast? ==> l.val != Null
    ensures StoredFits(AfterRun(t, cfg, s), cfg.column.kind) && Settled(AfterRun(t, cfg, s), cfg.column.kind, m)
  {
    SavedMark(t, cfg, s);
    if m.val != Null { MarkIsMaximum(t, cfg, s, l); }
    hide CopyOf, MarkAtEnd, MarkAtStart, DbValue, MarkKey, Canonical, BoundOf, Key, Str, Carried;
  }

  /** A run from a checkpoint delivers no NULL row. */
  lemma NoNullBehindCheckpoint(t: TableState, cfg: TableConfig, s: Script, l: Row)
    requires Consistent(t, cfg) && RunArrives(t, cfg, s) && l in Delivered(t, cfg, s) && t.stored.Some?
    ensures l.val != Null
  {
    CopiedRows(t, cfg, s);
    StartOfRun(t, cfg);
    hide CopyOf, BoundOf, DbValue;
  }

  /**
   It is exact for the account, too: a run that saves its mark loses no row if and only if nothing disturbed it,
   but for a first sync of a source with NULLs where NULL sorts last.
   */
  lemma SavedRunAccountsIff(t: TableState, cfg: TableConfig, s: Script, late: set<Row>)
    requires Accounts(t, cfg, late) && RunArrives(t, cfg, s) && SavesMark(t, cfg, s)
    requires ComparesByValue(cfg.column) || t.stored.None?
    requires RunOrder(cfg).NullsLast? && t.stored.None? ==>
               forall r :: r in AfterRun(t, cfg, s).source ==> r.val != Null
    ensures Accounts(AfterRun(t, cfg, s), cfg, LateAfter(t, cfg, Run(s), late)) <==> RunUndisturbed(t, cfg, s)
  {
    if RunUndisturbed(t, cfg, s) {
      RunAccounts(t, cfg, s, late);
    } else {
      var m, l := DisturbedRunMisses(t, cfg, s, late);
      CopiedRows(t, cfg, s);
      if t.stored.Some? { NoNullBehindCheckpoint(t, cfg, s, l); }
      MissedIsSettled(t, cfg, s, m, l);
      hide CopyOf, SavesMark, MarkAtEnd, BoundOf, Settled, Carried, DbValue, RowsFit, RunUndisturbed, RunArrives;
      assert m !in LateAfter(t, cfg, Run(s), late);
    }
  }

  // ---------------------------------------------------------------- recovery

  /** After any failures, one run without faults over a source at rest completes and brings the target up to date. */
  lemma RecoversInOneRun(t: TableState, cfg: TableConfig, s: Script, late: set<Row>)
    requires Accounts(t, cfg, late) && s.setup.Ready? && !s.save.Dies() && Quiet(ResolveAll(s.events))
    requires |s.events| * cfg.size > |Select(RunOrder(cfg), BoundOf(t, cfg), t.source)|
    ensures RunAdmissible(t, cfg, s) && Completes(t, cfg, s) && AfterRun(t, cfg, s).source == t.source
    ensures forall r :: r in t.source ==> (r in AfterRun(t, cfg, s).target <==> r !in late)
  {
    QuietRunDrains(t, cfg, s);
    CompletedRunDelivers(t, cfg, s, late);
    hide CopyOf, BoundOf, Accounts, Completes, RunAdmissible;
    assert LateAfter(t, cfg, Run(s), late) == late;
  }

  lemma QuietRunDrains(t: TableState, cfg: TableConfig, s: Script)
    requires Consistent(t, cfg) && s.setup.Ready? && Quiet(ResolveAll(s.events))
    requires |s.events| * cfg.size > |Select(RunOrder(cfg), BoundOf(t, cfg), t.source)|
    ensures RunAdmissible(t, cfg, s) && CopyOf(t, cfg, s).phase.Drained? && CopyOf(t, cfg, s).source == t.source
    ensures Delivered(t, cfg, s) == Select(RunOrder(cfg), BoundOf(t, cfg), t.source)
    ensures !s.save.Dies() ==> Completes(t, cfg, s)
  {
    StartOfRun(t, cfg);
    var q := QueryOf(t, cfg);
    QuietArrives(q, StartCopy(t.source), ResolveAll(s.events), cfg.column.kind);
    StartInv(q, t.source);
    QuietCopy(q, StartCopy(t.source), ResolveAll(s.events));
    hide CopyPages, Select, BoundOf, ResolveAll, Quiet, ArriveAll, Undisturbed;
  }

  lemma {:induction false} QuietArrives(q: PagedQuery, c: Copy, events: seq<PageEvent>, k: Kind)
    requires RowsFit(c.source, k) && Quiet(events)
    ensures ArriveAll(q, c, events, k) && Undisturbed(q, c, events)
    decreases |events|
  {
    if events != [] && c.phase.Fetching? {
      assert c.source + events[0].arrivals == c.source;
      assert NextPage(q, c, events[0]).source == c.source;
      hide NextPage, RowsFit;
      QuietArrives(q, NextPage(q, c, events[0]), events[1..], k);
    }
  }

  // ---------------------------------------------------------------- how often a row is delivered

  /** How many batches with r in them this step commits. */
  function Delivers(t: TableState, cfg: TableConfig, s: HistoryStep, r: Row): nat {
    if s.Run? && Loops(t, cfg, s.script)
    then BatchesWith(QueryOf(t, cfg), StartCopy(t.source), ResolveAll(s.script.events), r)
    else 0
  }

  function DeliveryCount(t: TableState, cfg: TableConfig, steps: seq<HistoryStep>, r: Row): nat
    decreases |steps|
  {
    if steps == [] then 0
    else Delivers(t, cfg, steps[0], r) + DeliveryCount(Apply(t, cfg, steps[0]), cfg, steps[1..], r)
  }

  lemma StepDelivers(t: TableState, cfg: TableConfig, s: HistoryStep, r: Row)
    requires Consistent(t, cfg) && FitsStep(t, cfg, s)
    ensures multiset(Apply(t, cfg, s).target)[r] == multiset(t.target)[r] + Delivers(t, cfg, s, r)
  {
    if s.Run? {
      RunGrows(t, cfg, s.script);
      if Loops(t, cfg, s.script) {
        CopiesPerBatch(QueryOf(t, cfg), StartCopy(t.source), ResolveAll(s.script.events), r);
      }
      hide CopyPages, BatchesWith, BoundOf, RowsFit;
    }
  }

  /** A row is in the target once for every batch with it that a run committed, and never more often. */
  lemma {:induction false} MultiplicityIsDeliveries(t: TableState, cfg: TableConfig, steps: seq<HistoryStep>, r: Row)
    requires Consistent(t, cfg) && FitsAll(t, cfg, steps)
    ensures multiset(After(t, cfg, steps).target)[r] == multiset(t.target)[r] + DeliveryCount(t, cfg, steps, r)
    decreases |steps|
  {
    if steps != [] {
      StepDelivers(t, cfg, steps[0], r);
      StepKeepsFit(t, cfg, steps[0]);
      hide Apply, FitsStep, Consistent, Delivers;
      MultiplicityIsDeliveries(Apply(t, cfg, steps[0]), cfg, steps[1..], r);
    }
  }

  /** An undisturbed run commits at most one batch with a row in it. */
  lemma StepCount(t: TableState, cfg: TableConfig, s: HistoryStep, r: Row)
    requires Consistent(t, cfg) && Admissible(t, cfg, s)
    ensures Delivers(t, cfg, s, r) == if s.Run? && r in Delivered(t, cfg, s.script) then 1 else 0
    ensures multiset(Apply(t, cfg, s).target)[r] == multiset(t.target)[r] + Delivers(t, cfg, s, r)
  {
    StepDelivers(t, cfg, s, r);
    if s.Run? {
      DeliveredRows(t, cfg, s.script);
      SortedOnce(RunOrder(cfg), Delivered(t, cfg, s.script), r);
    }
    hide CopyOf, BoundOf, Delivers, RowsFit;
  }
}
