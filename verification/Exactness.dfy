/**
 When exactly the checkpoint moves, and when exactly every row is delivered once.
 Both hold for every column the model has, whether the parser lists its type or not.
 */
module Exactness {
  import opened Wrappers
  import opened Text
  import opened Values
  import opened Paging
  import opened TableRun
  import opened History

  // ---------------------------------------------------------------- when the checkpoint moves

  /**
   Among rows there is a new value that the checkpoint's comparison takes for new: any value on a first sync or on a
   column that compares by value, and otherwise one whose decimal text sorts after the checkpoint's text.
   */
  predicate MovesOn(t: TableState, cfg: TableConfig, rows: seq<Row>)
    requires StoredFits(t, cfg.column.kind)
  {
    exists r :: r in rows && r.val != Null && !Settled(t, cfg.column.kind, r) &&
                (ComparesByValue(cfg.column) || t.stored.None? || LexLess(t.stored.value, Str(r.val)))
  }

  /** Where values are compared, the mark changes exactly when a value was delivered. */
  lemma MarkByValue(t: TableState, cfg: TableConfig, s: Script)
    requires Consistent(t, cfg) && RunAdmissible(t, cfg, s) && (ComparesByValue(cfg.column) || t.stored.None?)
    ensures MarkAtEnd(t, cfg, s) != MarkAtStart(t, cfg) <==> exists r :: r in Delivered(t, cfg, s) && r.val != Null
  {
    var k, rows := cfg.column.kind, Delivered(t, cfg, s);
    if r :| r in rows && r.val != Null {
      MarkIsMaximum(t, cfg, s, r);
      CopiedRows(t, cfg, s);
      StartOfRun(t, cfg);
      hide CopyOf, BoundOf, MarkAtStart, MarkAtEnd, DbValue;
      assert Passes(r, BoundOf(t, cfg));
    } else {
      FoldProvenance(MarkAtStart(t, cfg), Vals(rows));
      hide CopyOf, Fold;
      assert forall i :: 0 <= i < |rows| ==> rows[i] in rows;
    }
  }

  /** The rows that a run with a checkpoint on an integer column delivers are ascending integers. */
  lemma DeliveredAscending(t: TableState, cfg: TableConfig, s: Script)
    requires Consistent(t, cfg) && RunAdmissible(t, cfg, s) && cfg.column.kind.IntKind? && t.stored.Some?
    ensures AllInts(Vals(Delivered(t, cfg, s))) && Ascending(Vals(Delivered(t, cfg, s)))
  {
    StartOfRun(t, cfg);
    CopiedRows(t, cfg, s);
    DeliveredRows(t, cfg, s);
    hide CopyOf, BoundOf, DbValue;
    var rows := Delivered(t, cfg, s);
    forall i | 0 <= i < |rows| ensures Vals(rows)[i].IntV? {
      assert rows[i] in rows;
    }
    forall i, j | 0 <= i < j < |rows| ensures Key(Vals(rows)[i]) <= Key(Vals(rows)[j]) {
      assert Before(RunOrder(cfg), rows[i], rows[j]);
    }
  }

  /**
   Where an integer column's checkpoint stays text, the mark changes exactly when a later text was delivered, to the
   last value.
   */
  lemma MarkByText(t: TableState, cfg: TableConfig, s: Script)
    requires Consistent(t, cfg) && RunAdmissible(t, cfg, s) && !ComparesByValue(cfg.column) && t.stored.Some?
    ensures var rows := Delivered(t, cfg, s);
            (MarkAtEnd(t, cfg, s) != MarkAtStart(t, cfg)
             <==> exists r :: r in rows && LexLess(t.stored.value, Str(r.val))) &&
            (MarkAtEnd(t, cfg, s) != MarkAtStart(t, cfg) ==>
               rows != [] && MarkAtEnd(t, cfg, s) == Typed(rows[|rows| - 1].val))
  {
    var rows := Delivered(t, cfg, s);
    DeliveredAscending(t, cfg, s);
    TextStart(t, cfg);
    hide LexLess, Str, DbValue, CopyOf, BoundOf, Fold, StartMark, MarkAtStart, RunAdmissible, StoredFits, RowsFit,
         ComparesByValue, SomeTextAfter, AllInts, Ascending;
    IntegerTextFold(t.stored.value, Vals(rows));
    TextInRows(t.stored.value, rows);
  }

  /** Such a column starts from its checkpoint's text. */
  lemma TextStart(t: TableState, cfg: TableConfig)
    requires StoredFits(t, cfg.column.kind) && !ComparesByValue(cfg.column) && t.stored.Some?
    ensures MarkAtStart(t, cfg) == Plain(t.stored.value)
  {
    hide LexLess, Str, DbValue, StartMark;
    StoreAndParse(DbValue(cfg.column.kind, t.stored.value).value, cfg.column);
  }

  lemma TextInRows(text: string, rows: seq<Row>)
    ensures SomeTextAfter(text, Vals(rows)) <==> exists r :: r in rows && LexLess(text, Str(r.val))
  {
    hide LexLess, Str;
    if r :| r in rows && LexLess(text, Str(r.val)) {
      var i :| 0 <= i < |rows| && rows[i] == r;
      assert Vals(rows)[i] == r.val;
    }
    if SomeTextAfter(text, Vals(rows)) {
      var i :| 0 <= i < |rows| && LexLess(text, Str(Vals(rows)[i]));
      assert rows[i] in rows;
    }
  }

  lemma MarkMovesIff(t: TableState, cfg: TableConfig, s: Script)
    requires Consistent(t, cfg) && RunAdmissible(t, cfg, s) && CopyOf(t, cfg, s).phase.Drained?
    ensures MarkAtEnd(t, cfg, s) != MarkAtStart(t, cfg) <==> MovesOn(t, cfg, AfterRun(t, cfg, s).source)
  {
    DeliveredRows(t, cfg, s);
    CopiedRows(t, cfg, s);
    if ComparesByValue(cfg.column) || t.stored.None? {
      MarkByValue(t, cfg, s);
    } else {
      MarkByText(t, cfg, s);
      StartOfRun(t, cfg);
    }
    hide CopyOf, BoundOf, MarkAtStart, MarkAtEnd, LexLess, Str, DbValue, Settled;
    forall r | r in AfterRun(t, cfg, s).source
      ensures r in Delivered(t, cfg, s) <==> !Settled(t, cfg.column.kind, r)
    {
      PassesUnsettled(t, cfg, r);
    }
    forall r | r in Delivered(t, cfg, s) ensures r in AfterRun(t, cfg, s).source && !Settled(t, cfg.column.kind, r) {
      PassesUnsettled(t, cfg, r);
    }
    if t.stored.Some? && !ComparesByValue(cfg.column) {
      NullsAreSettled(t, cfg);
    }
  }

  lemma NullsAreSettled(t: TableState, cfg: TableConfig)
    requires StoredFits(t, cfg.column.kind) && t.stored.Some?
    ensures forall r: Row :: r.val == Null ==> Settled(t, cfg.column.kind, r)
  {
  }

  /** The mark of a run that moves is no less than any value delivered. */
  lemma EndIsMaximum(t: TableState, cfg: TableConfig, s: Script, r: Row)
    requires Consistent(t, cfg) && RunAdmissible(t, cfg, s) && MarkAtEnd(t, cfg, s) != MarkAtStart(t, cfg)
    requires r in Delivered(t, cfg, s) && r.val != Null
    ensures Canonical(MarkAtEnd(t, cfg, s), cfg.column.kind)
    ensures Key(r.val) <= MarkKey(MarkAtEnd(t, cfg, s), cfg.column.kind)
  {
    if ComparesByValue(cfg.column) || t.stored.None? {
      MarkIsMaximum(t, cfg, s, r);
    } else {
      TextEndIsMaximum(t, cfg, s, r);
    }
  }

  lemma TextEndIsMaximum(t: TableState, cfg: TableConfig, s: Script, r: Row)
    requires Consistent(t, cfg) && RunAdmissible(t, cfg, s) && MarkAtEnd(t, cfg, s) != MarkAtStart(t, cfg)
    requires r in Delivered(t, cfg, s) && !ComparesByValue(cfg.column) && t.stored.Some?
    ensures Canonical(MarkAtEnd(t, cfg, s), cfg.column.kind)
    ensures Key(r.val) <= MarkKey(MarkAtEnd(t, cfg, s), cfg.column.kind)
  {
    hide CopyOf, BoundOf, MarkAtStart, MarkAtEnd, Delivered, DbValue, Canonical, MarkKey, Key, RunAdmissible, RowsFit,
         StoredFits, Str, LexLess;
    MarkByText(t, cfg, s);
    DeliveredAscending(t, cfg, s);
    LastIsGreatest(MarkAtEnd(t, cfg, s), Delivered(t, cfg, s), r);
  }

  lemma LastIsGreatest(m: Mark, rows: seq<Row>, r: Row)
    requires AllInts(Vals(rows)) && Ascending(Vals(rows)) && r in rows && m == Typed(rows[|rows| - 1].val)
    ensures Canonical(m, IntKind) && Key(r.val) <= MarkKey(m, IntKind)
  {
    var j :| 0 <= j < |rows| && rows[j] == r;
    assert Vals(rows)[j] == r.val && Vals(rows)[|rows| - 1] == rows[|rows| - 1].val;
  }

  /** A checkpoint that moves settles everything its run delivered. */
  lemma MoveSettles(t: TableState, cfg: TableConfig, s: Script)
    requires Consistent(t, cfg) && RunAdmissible(t, cfg, s) && SavesMark(t, cfg, s)
    ensures StoredFits(AfterRun(t, cfg, s), cfg.column.kind)
    ensures forall r :: r in Delivered(t, cfg, s) ==> Settled(AfterRun(t, cfg, s), cfg.column.kind, r)
  {
    SavedMark(t, cfg, s);
    hide CopyOf, MarkAtStart, MarkAtEnd, DbValue, MarkKey;
    forall r | r in Delivered(t, cfg, s) ensures Settled(AfterRun(t, cfg, s), cfg.column.kind, r) {
      if r.val != Null { EndIsMaximum(t, cfg, s, r); }
    }
  }

  /**
   The stored checkpoint moves exactly when the loop ended normally, the write got through, and the source as the
   last query saw it held a new value. Then it settles every row delivered; the log is completed, unless the
   process died between the write and the last save of the log, and never failed.
   */
  lemma CheckpointMovesIff(t: TableState, cfg: TableConfig, s: Script)
    requires Consistent(t, cfg) && RunAdmissible(t, cfg, s)
    ensures var u := AfterRun(t, cfg, s);
            u.stored != t.stored
            <==> CopyOf(t, cfg, s).phase == Drained && (s.save == Saved || s.save == SavedThenDied) &&
                 MovesOn(t, cfg, u.source)
    ensures var u := AfterRun(t, cfg, s);
            u.stored != t.stored ==>
              StoredFits(u, cfg.column.kind) &&
              (forall r :: r in Delivered(t, cfg, s) ==> Settled(u, cfg.column.kind, r)) &&
              StatusOf(CopyOf(t, cfg, s), s.save) == (if s.save.SavedThenDied? then Running else Completed)
  {
    if CopyOf(t, cfg, s).phase.Drained? { MarkMovesIff(t, cfg, s); }
    if SavesMark(t, cfg, s) {
      SavedMark(t, cfg, s);
      MoveSettles(t, cfg, s);
    }
    hide CopyOf, BoundOf, DbValue, Settled, MovesOn;
    if MarkAtEnd(t, cfg, s) == NoMark { EndIsNoMark(t, cfg, s); }
  }

  lemma EndIsNoMark(t: TableState, cfg: TableConfig, s: Script)
    requires MarkAtEnd(t, cfg, s) == NoMark
    ensures MarkAtStart(t, cfg) == NoMark
  {
    FoldProvenance(MarkAtStart(t, cfg), Vals(Delivered(t, cfg, s)));
  }

  /**
   A checkpoint that moves is the value of a row delivered, no less than any other, and so the value of the last row
   delivered, unless that is a NULL row.
   */
  lemma CheckpointIsLastValue(t: TableState, cfg: TableConfig, s: Script) returns (r: Row)
    requires Consistent(t, cfg) && RunAdmissible(t, cfg, s) && SavesMark(t, cfg, s)
    ensures AfterRun(t, cfg, s).stored.Some? && StoredFits(AfterRun(t, cfg, s), cfg.column.kind)
    ensures r in Delivered(t, cfg, s) && StoredKey(AfterRun(t, cfg, s), cfg.column.kind) == Key(r.val)
    ensures forall x :: x in Delivered(t, cfg, s) && x.val != Null ==> Key(x.val) <= Key(r.val)
    ensures var last := Delivered(t, cfg, s)[|Delivered(t, cfg, s)| - 1];
            last.val != Null ==> Key(r.val) == Key(last.val)
  {
    hide CopyOf, BoundOf, SavesMark, RunAdmissible, StoredKey, RowsFit, StoredFits, Key, Str, MarkAtEnd, Sorted;
    r := GreatestDelivered(t, cfg, s);
    var rows := Delivered(t, cfg, s);
    if rows[|rows| - 1].val != Null {
      assert rows[|rows| - 1] in rows;
      DeliveredInOrder(t, cfg, s);
      LastIsNoLess(RunOrder(cfg), rows, r);
    }
  }

  lemma DeliveredInOrder(t: TableState, cfg: TableConfig, s: Script)
    requires Consistent(t, cfg) && RunAdmissible(t, cfg, s)
    ensures Sorted(RunOrder(cfg), Delivered(t, cfg, s)) && RunOrder(cfg) != ByKey
  {
    DeliveredRows(t, cfg, s);
  }

  lemma GreatestDelivered(t: TableState, cfg: TableConfig, s: Script) returns (r: Row)
    requires Consistent(t, cfg) && RunAdmissible(t, cfg, s) && SavesMark(t, cfg, s)
    ensures AfterRun(t, cfg, s).stored.Some? && StoredFits(AfterRun(t, cfg, s), cfg.column.kind)
    ensures r in Delivered(t, cfg, s) && r.val != Null
    ensures StoredKey(AfterRun(t, cfg, s), cfg.column.kind) == Key(r.val)
    ensures forall x :: x in Delivered(t, cfg, s) && x.val != Null ==> Key(x.val) <= Key(r.val)
  {
    SavedMark(t, cfg, s);
    MoveSettles(t, cfg, s);
    var u, k, rows := AfterRun(t, cfg, s), cfg.column.kind, Delivered(t, cfg, s);
    r :| r in rows && r.val != Null && StoredKey(u, k) == Key(r.val);
    hide CopyOf, BoundOf, SavesMark, RunAdmissible, StoredKey, RowsFit, StoredFits, Key, Str, MarkAtEnd;
    forall x | x in rows && x.val != Null ensures Key(x.val) <= StoredKey(u, k) {
      assert Settled(u, k, x);
    }
  }

  lemma LastIsNoLess(o: Order, rows: seq<Row>, r: Row)
    requires Sorted(o, rows) && o != ByKey && r in rows && r.val != Null && rows[|rows| - 1].val != Null
    ensures Key(r.val) <= Key(rows[|rows| - 1].val)
  {
    hide Key;
  }

  // ---------------------------------------------------------------- exactly once

  /** The target holds the settled rows of the source but the late ones, each once, and nothing else. */
  ghost predicate Synced(t: TableState, cfg: TableConfig, late: set<Row>) {
    var k := cfg.column.kind;
    Consistent(t, cfg) && (forall r :: r in late ==> r in t.source && Settled(t, k, r)) &&
    forall r :: multiset(t.target)[r] == if r in t.source && Settled(t, k, r) && r !in late then 1 else 0
  }

  /**
   A run that commits nothing, or ends normally with its write on a source with a new value; a reset of an empty target.
   Rows may arrive anywhere.
   */
  predicate CleanStep(t: TableState, cfg: TableConfig, s: HistoryStep)
    requires StoredFits(t, cfg.column.kind)
  {
    match s
    case Append(_) => true
    case Run(script) =>
      Delivered(t, cfg, script) == [] ||
      (CopyOf(t, cfg, script).phase.Drained? && script.save.Writes() &&
       MovesOn(t, cfg, AfterRun(t, cfg, script).source))
    case Reset => t.target == []
  }

  /** Rows that are delivered while the checkpoint stays are in the target without being settled. */
  lemma StuckRunFallsOut(t: TableState, cfg: TableConfig, s: Script, late: set<Row>)
    requires Synced(t, cfg, late) && RunAdmissible(t, cfg, s)
    requires AfterRun(t, cfg, s).stored == t.stored && Delivered(t, cfg, s) != []
    ensures !Synced(AfterRun(t, cfg, s), cfg, LateAfter(t, cfg, History.Run(s), late))
  {
    var r := Delivered(t, cfg, s)[0];
    StepCount(t, cfg, History.Run(s), r);
    CopiedRows(t, cfg, s);
    PassesUnsettled(t, cfg, r);
    hide CopyOf, BoundOf, DbValue, StoredKey, Passes, RowsFit, Delivers, RunArrives, RunUndisturbed;
    assert r in Delivered(t, cfg, s);
    assert Settled(AfterRun(t, cfg, s), cfg.column.kind, r) == Settled(t, cfg.column.kind, r);
  }

  lemma CleanRunKeepsSynced(t: TableState, cfg: TableConfig, s: Script, late: set<Row>)
    requires Synced(t, cfg, late) && RunAdmissible(t, cfg, s) && CleanStep(t, cfg, History.Run(s))
    ensures Synced(AfterRun(t, cfg, s), cfg, LateAfter(t, cfg, History.Run(s), late))
  {
    var k, u, lost := cfg.column.kind, AfterRun(t, cfg, s), LateAfter(t, cfg, History.Run(s), late);
    StepKeepsFit(t, cfg, History.Run(s));
    RunGrows(t, cfg, s);
    assert Consistent(u, cfg);
    assert forall r :: r in lost ==> r in u.source && Settled(u, k, r);
    hide AfterRun, LateAfter, Settled, StoredFits, RowsFit, RunArrives, RunUndisturbed, StoredKey, CleanStep, CopyOf;
    forall r ensures multiset(u.target)[r] == if r in u.source && Settled(u, k, r) && r !in lost then 1 else 0 {
      CleanRunCount(t, cfg, s, late, r);
    }
  }

  /** How often a clean run leaves one row in the target. */
  lemma CleanRunCount(t: TableState, cfg: TableConfig, s: Script, late: set<Row>, r: Row)
    requires Synced(t, cfg, late) && RunAdmissible(t, cfg, s) && CleanStep(t, cfg, History.Run(s))
    requires StoredFits(AfterRun(t, cfg, s), cfg.column.kind)
    ensures var u := AfterRun(t, cfg, s);
            multiset(u.target)[r]
            == if r in u.source && Settled(u, cfg.column.kind, r) && r !in LateAfter(t, cfg, History.Run(s), late)
               then 1 else 0
  {
    CheckpointMovesIff(t, cfg, s);
    StepKeepsFit(t, cfg, History.Run(s));
    DeliveredRows(t, cfg, s);
    RunGrows(t, cfg, s);
    if Delivered(t, cfg, s) == [] { NothingMoves(t, cfg, s); }
    StepCount(t, cfg, History.Run(s), r);
    PassesUnsettled(t, cfg, r);
    hide CopyOf, BoundOf, DbValue, MovesOn, StoredKey, Passes, RowsFit, Delivers, RunArrives, RunUndisturbed, SavesMark;
  }

  /** A run that delivers nothing leaves the checkpoint. */
  lemma NothingMoves(t: TableState, cfg: TableConfig, s: Script)
    requires Delivered(t, cfg, s) == []
    ensures AfterRun(t, cfg, s).stored == t.stored
  {
    hide CopyOf;
    assert MarkAtEnd(t, cfg, s) == MarkAtStart(t, cfg);
  }

  lemma RunKeepsSyncedIff(t: TableState, cfg: TableConfig, s: Script, late: set<Row>)
    requires Synced(t, cfg, late) && RunAdmissible(t, cfg, s)
    ensures Synced(AfterRun(t, cfg, s), cfg, LateAfter(t, cfg, History.Run(s), late))
            <==> CleanStep(t, cfg, History.Run(s))
  {
    if CleanStep(t, cfg, History.Run(s)) {
      CleanRunKeepsSynced(t, cfg, s, late);
    } else {
      CheckpointMovesIff(t, cfg, s);
      hide CopyOf, MovesOn, Synced, RunAdmissible, DbValue;
      StuckRunFallsOut(t, cfg, s, late);
    }
  }

  lemma AppendKeepsSynced(t: TableState, cfg: TableConfig, rows: seq<Row>, late: set<Row>)
    requires Synced(t, cfg, late) && FitsStep(t, cfg, Append(rows))
    ensures Synced(Apply(t, cfg, Append(rows)), cfg, LateAfter(t, cfg, Append(rows), late))
  {
    var k, u, lost := cfg.column.kind, Apply(t, cfg, Append(rows)), LateAfter(t, cfg, Append(rows), late);
    DistinctPart(t.source, rows);
    hide DbValue, DistinctKeys;
    forall r ensures multiset(u.target)[r] == if r in u.source && Settled(u, k, r) && r !in lost then 1 else 0 {
      assert r in u.source <==> r in t.source || r in rows;
      assert Settled(u, k, r) == Settled(t, k, r);
    }
  }

  /** After one step the target is in step if and only if the step is clean. */
  lemma StepKeepsSyncedIff(t: TableState, cfg: TableConfig, s: HistoryStep, late: set<Row>)
    requires Synced(t, cfg, late) && Admissible(t, cfg, s)
    ensures Synced(Apply(t, cfg, s), cfg, LateAfter(t, cfg, s, late)) <==> CleanStep(t, cfg, s)
  {
    match s
    case Append(rows) => AppendKeepsSynced(t, cfg, rows, late);
    case Run(script) => RunKeepsSyncedIff(t, cfg, script, late);
    case Reset =>
      if t.target != [] {
        assert t.target[0] in multiset(t.target);
      }
  }

  predicate CleanAll(t: TableState, cfg: TableConfig, steps: seq<HistoryStep>)
    decreases |steps|
  {
    steps == [] ||
    (StoredFits(t, cfg.column.kind) && CleanStep(t, cfg, steps[0]) &&
     CleanAll(Apply(t, cfg, steps[0]), cfg, steps[1..]))
  }

  ghost predicate SyncedThroughout(t: TableState, cfg: TableConfig, steps: seq<HistoryStep>, late: set<Row>)
    decreases |steps|
  {
    Synced(t, cfg, late) &&
    (steps == [] || SyncedThroughout(Apply(t, cfg, steps[0]), cfg, steps[1..], LateAfter(t, cfg, steps[0], late)))
  }

  /**
   Exactly once: through a whole history the target is the settled part of the source without its late rows, each row
   once and nothing else, if and only if every step is clean.
   */
  lemma {:induction false} ExactlyOnceIff(t: TableState, cfg: TableConfig, steps: seq<HistoryStep>, late: set<Row>)
    requires Synced(t, cfg, late) && AdmissibleAll(t, cfg, steps)
    ensures SyncedThroughout(t, cfg, steps, late) <==> CleanAll(t, cfg, steps)
    decreases |steps|
  {
    if steps != [] {
      StepKeepsSyncedIff(t, cfg, steps[0], late);
      hide CleanStep, Apply, Admissible, LateAfter;
      if Synced(Apply(t, cfg, steps[0]), cfg, LateAfter(t, cfg, steps[0], late)) {
        ExactlyOnceIff(Apply(t, cfg, steps[0]), cfg, steps[1..], LateAfter(t, cfg, steps[0], late));
      }
    }
  }

  /**
   From a target in step, a completed run leaves the target as the source without its late rows, as a multiset,
   whatever becomes of its checkpoint.
   */
  lemma CompletedRunEqualizes(t: TableState, cfg: TableConfig, s: Script, late: set<Row>)
    requires Synced(t, cfg, late) && RunAdmissible(t, cfg, s) && Completes(t, cfg, s)
    ensures var u := AfterRun(t, cfg, s);
            forall r :: multiset(u.target)[r]
                        == if r in LateAfter(t, cfg, History.Run(s), late) then 0 else multiset(u.source)[r]
  {
    var u, lost := AfterRun(t, cfg, s), LateAfter(t, cfg, History.Run(s), late);
    DeliveredRows(t, cfg, s);
    RunGrows(t, cfg, s);
    assert CopyOf(t, cfg, s).phase.Drained?;
    hide CopyOf, BoundOf, DbValue, Passes, StoredFits;
    forall r ensures multiset(u.target)[r] == if r in lost then 0 else multiset(u.source)[r] {
      StepCount(t, cfg, History.Run(s), r);
      DistinctOnce(u.source, r);
      PassesUnsettled(t, cfg, r);
    }
  }

  // ---------------------------------------------------------------- a second run

  /** A run over a source at rest, with enough queries to finish. */
  predicate Rerun(t: TableState, cfg: TableConfig, s: Script) {
    s.setup.Ready? && Quiet(ResolveAll(s.events)) &&
    |s.events| * cfg.size > |Select(RunOrder(cfg), BoundOf(t, cfg), t.source)|
  }

  /**
   After a run that ended normally with its write, a second run over the same source delivers nothing if there was a
   new value to move on, and otherwise the whole first run once more.
   */
  lemma RerunRepeatsUnlessMoved(t: TableState, cfg: TableConfig, s: Script, next: Script)
    requires Consistent(t, cfg) && RunAdmissible(t, cfg, s) && CopyOf(t, cfg, s).phase.Drained? && s.save.Writes()
    requires Rerun(AfterRun(t, cfg, s), cfg, next)
    ensures Delivered(AfterRun(t, cfg, s), cfg, next)
            == if MovesOn(t, cfg, AfterRun(t, cfg, s).source) then [] else Delivered(t, cfg, s)
  {
    var u := AfterRun(t, cfg, s);
    CheckpointMovesIff(t, cfg, s);
    StepKeepsFit(t, cfg, History.Run(s));
    QuietRunDrains(u, cfg, next);
    RunDelivers(t, cfg, s);
    if MovesOn(t, cfg, u.source) {
      NothingLeft(t, cfg, s, next);
    } else {
      assert BoundOf(u, cfg) == BoundOf(t, cfg);
    }
  }

  lemma NothingLeft(t: TableState, cfg: TableConfig, s: Script, next: Script)
    requires Consistent(t, cfg) && RunAdmissible(t, cfg, s) && CopyOf(t, cfg, s).phase.Drained?
    requires SavesMark(t, cfg, s) && Consistent(AfterRun(t, cfg, s), cfg)
    requires RunAdmissible(AfterRun(t, cfg, s), cfg, next) &&
             AfterRun(AfterRun(t, cfg, s), cfg, next).source == AfterRun(t, cfg, s).source
    ensures Delivered(AfterRun(t, cfg, s), cfg, next) == []
  {
    var u := AfterRun(t, cfg, s);
    MoveSettles(t, cfg, s);
    SavedMark(t, cfg, s);
    DeliveredRows(t, cfg, s);
    CopiedRows(u, cfg, next);
    hide CopyOf, BoundOf, DbValue;
    var rows := Delivered(u, cfg, next);
    if rows != [] {
      PassesUnsettled(u, cfg, rows[0]);
      PassesUnsettled(t, cfg, rows[0]);
      assert false;
    }
  }
}
