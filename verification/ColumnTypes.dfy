/**
 Which column types the checkpoint parser knows, by name, and what a run without faults does to the checkpoint of a
 column of each (timezone_utils.py:134-174, incremental_sync.py:405-415, 449-494).
 */
module ColumnTypes {
  import opened Wrappers
  import opened Text
  import opened Timestamps
  import opened Values
  import opened Paging
  import opened TableRun
  import opened History
  import opened Exactness

  predicate IsTimeName(name: string) {
    name == "timestamp" || name == "datetime" || name == "date" || name == "timestamptz"
  }

  predicate IsIntName(name: string) { name == "integer" || name == "int" || name == "bigint" || name == "serial" }

  predicate IsFloatName(name: string) { name == "float" || name == "double" || name == "numeric" || name == "decimal" }

  // ---------------------------------------------------------------- parsing

  /** With a time type, texts of datetimes and of dates are parsed, and anything else stays text. */
  lemma TimeTypesParse(name: string, t: Moment, d: Day, other: string)
    requires IsTimeName(name) && other != "" && Read(other).None? && ReadDate(other).None?
    ensures ParseCheckpoint(Show(t), name) == Typed(TimeV(t))
    ensures ParseCheckpoint(ShowDate(d), name) == Typed(TimeV(d))
    ensures ParseCheckpoint(other, name) == Plain(other)
  {
    ReadShow(t);
    ShowShape(t);
    ReadDateShow(d);
    ReadApart(d);
    hide Show, ShowDate, Read, ReadDate, Strip;
  }

  /** With an integer type, texts of integers are parsed, and anything else stays text. */
  lemma IntTypesParse(name: string, i: int, other: string)
    requires IsIntName(name) && other != "" && PyInt(other).None?
    ensures ParseCheckpoint(ShowInt(i), name) == Typed(IntV(i))
    ensures ParseCheckpoint(other, name) == Plain(other)
  {
    IntTextRoundTrip(i);
    hide PyInt;
  }

  /** With any other type a checkpoint stays text, and an empty one is none at all. */
  lemma OthersKeepText(c: Column, text: string)
    ensures !IsFloatName(c.typeName)
    ensures !IsTimeName(c.typeName) && !IsIntName(c.typeName) && text != "" ==>
              ParseCheckpoint(text, c.typeName) == Plain(text)
    ensures ParseCheckpoint("", c.typeName) == NoMark
  {
  }

  lemma ComparesByValueIff(c: Column)
    ensures ComparesByValue(c) <==> c.kind != IntKind || IsIntName(c.typeName)
  {
  }

  // ---------------------------------------------------------------- what a run stores

  /** A run without faults, with enough queries to finish, whose checkpoint write gets through. */
  predicate Faultless(t: TableState, cfg: TableConfig, s: Script) {
    s.setup == Ready && s.save == Saved && Quiet(ResolveAll(s.events)) &&
    |s.events| * cfg.size > |Select(RunOrder(cfg), BoundOf(t, cfg), t.source)|
  }

  /** A value that lies above the stored checkpoint, or any value when there is none. */
  predicate IsNew(t: TableState, cfg: TableConfig, r: Row)
    requires StoredFits(t, cfg.column.kind)
  {
    r in t.source && r.val != Null && (t.stored.Some? ==> Key(r.val) > StoredKey(t, cfg.column.kind))
  }

  /**
   On a first sync, on a column of dates or datetimes of any type name, and on an integer column whose type name is
   integer, int, bigint or serial: with a new value in the source, a faultless run stores the greatest value there is.
   */
  lemma GreatestIsStored(t: TableState, cfg: TableConfig, s: Script, r: Row) returns (g: Row)
    requires Consistent(t, cfg) && Faultless(t, cfg, s) && IsNew(t, cfg, r)
    requires cfg.column.kind != IntKind || IsIntName(cfg.column.typeName) || t.stored.None?
    ensures g in t.source && g.val != Null && AfterRun(t, cfg, s).stored == Some(Str(g.val))
    ensures forall x :: x in t.source && x.val != Null ==> Key(x.val) <= Key(g.val)
  {
    QuietRunDrains(t, cfg, s);
    CheckpointMovesIff(t, cfg, s);
    ComparesByValueIff(cfg.column);
    assert MovesOn(t, cfg, t.source) by { assert !Settled(t, cfg.column.kind, r); }
    SavedMark(t, cfg, s);
    CopiedRows(t, cfg, s);
    MoveSettles(t, cfg, s);
    DeliveredRows(t, cfg, s);
    g :| g in Delivered(t, cfg, s) && g.val != Null && AfterRun(t, cfg, s).stored == Some(Str(g.val)) &&
         StoredKey(AfterRun(t, cfg, s), cfg.column.kind) == Key(g.val);
    hide CopyOf, BoundOf, SavesMark, DbValue, Str, MarkAtEnd, RunArrives, RunUndisturbed, MovesOn;
    forall x | x in t.source && x.val != Null ensures Key(x.val) <= Key(g.val) {
      PassesUnsettled(t, cfg, x);
      if !Settled(t, cfg.column.kind, x) {
        assert Settled(AfterRun(t, cfg, s), cfg.column.kind, x);
      }
    }
  }

  /**
   On an integer column of any other type name, behind a checkpoint, a faultless run moves it if and only if the decimal
   text of a new value sorts after its text.
   */
  lemma OtherIntegersMoveByText(t: TableState, cfg: TableConfig, s: Script)
    requires Consistent(t, cfg) && Faultless(t, cfg, s)
    requires cfg.column.kind == IntKind && !IsIntName(cfg.column.typeName) && t.stored.Some?
    ensures AfterRun(t, cfg, s).stored != t.stored
            <==> exists r :: IsNew(t, cfg, r) && LexLess(t.stored.value, ShowInt(Key(r.val)))
  {
    QuietRunDrains(t, cfg, s);
    CheckpointMovesIff(t, cfg, s);
    ComparesByValueIff(cfg.column);
    hide CopyOf, BoundOf, DbValue, LexLess, ShowInt, RunArrives, RunUndisturbed, ComparesByValue;
    if r :| IsNew(t, cfg, r) && LexLess(t.stored.value, ShowInt(Key(r.val))) {
      assert r.val.IntV? && !Settled(t, cfg.column.kind, r);
      assert Str(r.val) == ShowInt(Key(r.val));
    }
    if MovesOn(t, cfg, t.source) {
      var r :| r in t.source && r.val != Null && !Settled(t, cfg.column.kind, r) &&
               LexLess(t.stored.value, Str(r.val));
      assert IsNew(t, cfg, r) && Str(r.val) == ShowInt(Key(r.val));
    }
  }

  /** Without a new value the checkpoint stays, on every column. */
  lemma NothingNewStays(t: TableState, cfg: TableConfig, s: Script)
    requires Consistent(t, cfg) && Faultless(t, cfg, s) && forall r :: r in t.source ==> !IsNew(t, cfg, r)
    ensures AfterRun(t, cfg, s).stored == t.stored
  {
    QuietRunDrains(t, cfg, s);
    CheckpointMovesIff(t, cfg, s);
    hide CopyOf, BoundOf, DbValue, RunArrives, RunUndisturbed;
  }
}
