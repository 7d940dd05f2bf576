/**
 Values of the incremental column and the running maximum kept over them
 (IncrementalSyncExecutor._compare_incremental_values and _get_max_incremental_value,
 TimezoneHandler.parse_checkpoint_value, CheckpointManager's text storage).
 */
module Values {
  import opened Wrappers
  import opened Text
  import opened Timestamps

  type Moment = t: Timestamp | Valid(t) witness Timestamp(1, 1, 1, 0, 0, 0, 0, None)

  type Day = t: Timestamp | Valid(t) && IsDay(t) witness Timestamp(1, 1, 1, 0, 0, 0, 0, None)

  datatype Value = Null | IntV(i: int) | TimeV(t: Moment) | DateV(day: Day)

  /** What a column holds: integers, datetimes that all carry the same zone, or dates. */
  datatype Kind = IntKind | TimeKind(zone: Option<int>) | DateKind

  predicate Fits(v: Value, k: Kind) {
    match v
    case Null => false
    case IntV(_) => k.IntKind?
    case TimeV(t) => k == TimeKind(t.zone)
    case DateV(_) => k.DateKind?
  }

  /** The column order of the database, as a number. NULL has no place in it. */
  function Key(v: Value): int {
    match v
    case Null => 0
    case IntV(i) => i
    case TimeV(t) => Instant(t)
    case DateV(d) => Instant(d)
  }

  /** str(value) */
  function Str(v: Value): string {
    match v
    case Null => "None"
    case IntV(i) => ShowInt(i)
    case TimeV(t) => Show(t)
    case DateV(d) => ShowDate(d)
  }

  // ---------------------------------------------------------------- the checkpoint in memory

  /** A checkpoint during a run: absent, a value of the column, or text that was not parsed. */
  datatype Mark = NoMark | Typed(v: Value) | Plain(text: string)

  const TIME_TYPES := {"timestamp", "datetime", "date", "timestamptz"}
  const INT_TYPES := {"integer", "int", "bigint", "serial"}
  const FLOAT_TYPES := {"float", "double", "numeric", "decimal"}

  /** A column: its type name in lower case and what it holds. */
  datatype ColumnInfo = ColumnInfo(typeName: string, kind: Kind)

  type Column = c: ColumnInfo |
      c.typeName !in FLOAT_TYPES && (c.typeName == "date" <==> c.kind.DateKind?) &&
      (c.typeName in TIME_TYPES && c.typeName != "date" ==> c.kind.TimeKind?) &&
      (c.typeName in INT_TYPES ==> c.kind.IntKind?)
    witness ColumnInfo("bigint", IntKind)

  /** The parser has a list of type names; text of any other type stays text. */
  predicate Listed(c: Column) { c.typeName in TIME_TYPES || c.typeName in INT_TYPES }

  function ParseCheckpoint(text: string, typeName: string): Mark {
    if text == "" then NoMark
    else if typeName in TIME_TYPES then
      var t := if Read(text).Some? then Read(text) else ReadDate(text);
      if t.Some? then Typed(TimeV(t.value)) else Plain(text)
    else if typeName in INT_TYPES then
      var i := PyInt(text);
      if i.Some? then Typed(IntV(i.value)) else Plain(text)
    else Plain(text)
  }

  /** The checkpoint a run starts from: an absent, NULL or empty entry means a first sync. */
  function StartMark(stored: Option<string>, c: Column): Mark {
    if stored.None? then NoMark else ParseCheckpoint(stored.value, c.typeName)
  }

  function MarkText(m: Mark): string {
    match m
    case NoMark => "None"
    case Typed(v) => Str(v)
    case Plain(s) => s
  }

  /** How the database reads a literal that it compares with a column of kind k. */
  function DbValue(k: Kind, text: string): Option<Value> {
    match k
    case IntKind =>
      var i := PyInt(text);
      if i.Some? then Some(IntV(i.value)) else None
    case TimeKind(_) =>
      var t := Read(text);
      if t.Some? then Some(TimeV(t.value)) else None
    case DateKind =>
      var t := if ReadDate(text).Some? then ReadDate(text) else Read(text);
      if t.Some? && IsDay(t.value) then Some(DateV(t.value)) else None
  }

  /**
   A mark that stands for a value of the column, parsed or still as text; a stored date is always parsed, to its
   midnight.
   */
  predicate Canonical(m: Mark, k: Kind) {
    match m
    case NoMark => false
    case Typed(v) => Fits(v, k) || (k.DateKind? && v.TimeV? && IsDay(v.t))
    case Plain(s) =>
      !k.DateKind? && DbValue(k, s).Some? && Fits(DbValue(k, s).value, k) && Str(DbValue(k, s).value) == s
  }

  function MarkKey(m: Mark, k: Kind): int
    requires Canonical(m, k)
  {
    if m.Typed? then Key(m.v) else Key(DbValue(k, m.text).value)
  }

  lemma ReadStr(v: Value, k: Kind)
    requires Fits(v, k)
    ensures DbValue(k, Str(v)) == Some(v) && Str(v) != ""
  {
    match v
    case IntV(i) => IntTextRoundTrip(i);
    case TimeV(t) => ReadShow(t);
      ShowShape(t);
    case DateV(d) => ReadDateShow(d);
  }

  /** The database reads the text of a mark as the value it stands for. */
  lemma ReadMark(m: Mark, k: Kind)
    requires Canonical(m, k)
    ensures DbValue(k, MarkText(m)).Some? && Fits(DbValue(k, MarkText(m)).value, k)
    ensures Key(DbValue(k, MarkText(m)).value) == MarkKey(m, k)
  {
    if m.Typed? && Fits(m.v, k) {
      ReadStr(m.v, k);
    } else if m.Typed? {
      ReadShow(m.v.t);
      ReadApart(m.v.t);
    }
  }

  /** What the parser makes of a value's text: a date becomes the datetime of its midnight. */
  function Parsed(v: Value): Value { if v.DateV? then TimeV(v.day) else v }

  /** Storing a value as text and parsing it gives the value back for the listed types, and its text otherwise. */
  lemma StoreAndParse(v: Value, c: Column)
    requires Fits(v, c.kind)
    ensures StartMark(Some(Str(v)), c) == (if Listed(c) then Typed(Parsed(v)) else Plain(Str(v)))
    ensures Canonical(StartMark(Some(Str(v)), c), c.kind)
    ensures MarkKey(StartMark(Some(Str(v)), c), c.kind) == Key(v)
  {
    ReadStr(v, c.kind);
    hide Show, ShowDate, ShowInt, Read, ReadDate, PyInt, Instant;
    match v
    case IntV(i) =>
    case TimeV(t) =>
    case DateV(d) => ParsedDate(d);
  }

  lemma ParsedDate(d: Day)
    ensures ParseCheckpoint(ShowDate(d), "date") == Typed(TimeV(d))
  {
    ReadApart(d);
    ReadDateShow(d);
    hide Show, ShowDate, Read, ReadDate;
  }

  // ---------------------------------------------------------------- comparing and folding

  /** value1 > value2 for a row value that is not NULL and a mark that is not absent. */
  predicate Greater(v: Value, m: Mark) {
    if m.Typed? && m.v.TimeV? && v.TimeV? then Instant(v.t) > Instant(m.v.t)
    else if m.Typed? && m.v.IntV? && v.IntV? then v.i > m.v.i
    else LexLess(MarkText(m), Str(v))
  }

  function Better(m: Mark, v: Value): Mark {
    if v.Null? then m else if m.NoMark? || Greater(v, m) then Typed(v) else m
  }

  /** _get_max_incremental_value over the values of a batch. */
  function Fold(m: Mark, vs: seq<Value>): Mark
    decreases |vs|
  {
    if vs == [] then m else Fold(Better(m, vs[0]), vs[1..])
  }

  /** Folding batch by batch is one fold over everything: the maximum does not depend on the batch size. */
  lemma {:induction false} FoldBatches(m: Mark, a: seq<Value>, b: seq<Value>)
    ensures Fold(Fold(m, a), b) == Fold(m, a + b)
    decreases |a|
  {
    if a == [] {
      assert a + b == b;
    } else {
      FoldBatches(Better(m, a[0]), a[1..], b);
      assert (a + b)[1..] == a[1..] + b;
    }
  }

  /** Whatever the comparison does, the result is the old mark or a value that was seen. */
  lemma {:induction false} FoldProvenance(m: Mark, vs: seq<Value>)
    ensures Fold(m, vs) == m || exists i | 0 <= i < |vs| :: vs[i] != Null && Fold(m, vs) == Typed(vs[i])
    decreases |vs|
  {
    if vs != [] {
      FoldProvenance(Better(m, vs[0]), vs[1..]);
      if Fold(m, vs) != m {
        if Fold(m, vs) == Typed(vs[0]) && vs[0] != Null {
        } else {
          var i :| 0 <= i < |vs[1..]| && vs[1..][i] != Null && Fold(m, vs) == Typed(vs[1..][i]);
          assert vs[i + 1] == vs[1..][i];
        }
      }
    }
  }

  /** Marks whose comparison with row values follows the column order: not the text of an integer. */
  predicate Comparable(m: Mark, k: Kind) {
    m.NoMark? || (Canonical(m, k) && (m.Plain? ==> k.TimeKind?))
  }

  /**
   The comparison decides by the column order; for a date, or a datetime against text, this is the text order at work.
   */
  lemma GreaterIsLater(v: Value, m: Mark, k: Kind)
    requires Fits(v, k) && Canonical(m, k) && Comparable(m, k)
    ensures Greater(v, m) <==> Key(v) > MarkKey(m, k)
  {
    if v.DateV? {
      DateGreater(v.day, m);
    } else if m.Plain? {
      var u := DbValue(k, m.text).value;
      assert u.TimeV? && m.text == Show(u.t);
      TextOrderIsTimeOrder(u.t, v.t);
    }
  }

  lemma DateGreater(d: Day, m: Mark)
    requires Canonical(m, DateKind) && m.Typed?
    ensures Greater(DateV(d), m) <==> Instant(d) > Key(m.v)
  {
    hide Instant, LexLess, Show, ShowDate;
    assert ShowDate(d) + "" == ShowDate(d);
    match m.v
    case DateV(u) =>
      DateOrder(u, d, "", "");
      LexIrreflexive("");
      assert ShowDate(u) + "" == ShowDate(u);
    case TimeV(u) =>
      DateOrder(u, d, " 00:00:00", "");
      MidnightText(u);
      assert !LexLess(" 00:00:00", "") by { EmptyIsLeast(" 00:00:00"); }
  }

  lemma EmptyIsLeast(s: string)
    ensures !LexLess(s, "")
  {
  }

  predicate AllFit(vs: seq<Value>, k: Kind) { forall i :: 0 <= i < |vs| ==> vs[i].Null? || Fits(vs[i], k) }

  /** The fold is at least the old mark and every value it saw; with its provenance, it is their maximum. */
  lemma {:induction false} FoldIsMaximum(m: Mark, vs: seq<Value>, k: Kind)
    requires Comparable(m, k) && AllFit(vs, k)
    ensures Comparable(Fold(m, vs), k)
    ensures m.NoMark? || (Canonical(Fold(m, vs), k) && MarkKey(Fold(m, vs), k) >= MarkKey(m, k))
    ensures forall i :: 0 <= i < |vs| && vs[i] != Null ==>
              Canonical(Fold(m, vs), k) && Key(vs[i]) <= MarkKey(Fold(m, vs), k)
    decreases |vs|
  {
    hide Str, DbValue, Greater, Instant;
    if vs != [] {
      var m' := Better(m, vs[0]);
      if vs[0] != Null && !m.NoMark? { GreaterIsLater(vs[0], m, k); }
      assert forall i :: 0 <= i < |vs[1..]| ==> vs[1..][i] == vs[i + 1];
      FoldIsMaximum(m', vs[1..], k);
      forall i | 0 <= i < |vs| && vs[i] != Null
        ensures Canonical(Fold(m, vs), k) && Key(vs[i]) <= MarkKey(Fold(m, vs), k)
      {
        if i > 0 { assert vs[i] == vs[1..][i - 1]; }
      }
    }
  }

  predicate Ascending(vs: seq<Value>) { forall i, j :: 0 <= i < j < |vs| ==> Key(vs[i]) <= Key(vs[j]) }

  /** On ascending values above the old mark the maximum is the last of them. */
  lemma FoldIsLast(m: Mark, vs: seq<Value>, k: Kind)
    requires Comparable(m, k) && vs != [] && Ascending(vs) && forall i :: 0 <= i < |vs| ==> Fits(vs[i], k)
    requires m.NoMark? || MarkKey(m, k) < Key(vs[0])
    ensures Canonical(Fold(m, vs), k) && MarkKey(Fold(m, vs), k) == Key(vs[|vs| - 1])
  {
    FoldIsMaximum(m, vs, k);
    FoldProvenance(m, vs);
    hide Fold, Key, Str, DbValue;
    var f := Fold(m, vs);
    assert vs[0] != Null && vs[|vs| - 1] != Null;
    assert f != m;
    var i :| 0 <= i < |vs| && f == Typed(vs[i]);
    assert MarkKey(f, k) == Key(vs[i]);
  }

  // ---------------------------------------------------------------- text marks on integer columns

  predicate AllInts(vs: seq<Value>) { forall i :: 0 <= i < |vs| ==> vs[i].IntV? }

  /** Some value's decimal text sorts after the checkpoint's text. */
  predicate SomeTextAfter(text: string, vs: seq<Value>) {
    exists i :: 0 <= i < |vs| && LexLess(text, Str(vs[i]))
  }

  /**
   An integer column whose type is not in the parser's list (smallint, say) is compared as text.
   The mark moves if and only if some new value has a later decimal text, and then it moves to the last value.
   */
  lemma {:induction false} IntegerTextFold(text: string, vs: seq<Value>)
    requires AllInts(vs) && Ascending(vs)
    ensures !SomeTextAfter(text, vs) ==> Fold(Plain(text), vs) == Plain(text)
    ensures SomeTextAfter(text, vs) ==> vs != [] && Fold(Plain(text), vs) == Typed(vs[|vs| - 1])
    decreases |vs|
  {
    hide LexLess, Str;
    if vs != [] {
      var rest := vs[1..];
      assert forall i :: 0 <= i < |rest| ==> rest[i] == vs[i + 1];
      if LexLess(text, Str(vs[0])) {
        LastIsMaximum(vs[0], rest);
      } else {
        IntegerTextFold(text, rest);
        if SomeTextAfter(text, vs) {
          var i :| 0 <= i < |vs| && LexLess(text, Str(vs[i]));
          assert rest[i - 1] == vs[i];
        }
        if SomeTextAfter(text, rest) {
          var i :| 0 <= i < |rest| && LexLess(text, Str(rest[i]));
          assert vs[i + 1] == rest[i];
        }
      }
    }
  }

  lemma {:induction false} LastIsMaximum(v: Value, vs: seq<Value>)
    requires v.IntV? && AllInts(vs) && Ascending(vs)
    requires vs != [] ==> v.i <= vs[0].i
    ensures Fold(Typed(v), vs) == Typed(if vs == [] then v else vs[|vs| - 1])
    decreases |vs|
  {
    if vs != [] {
      var rest := vs[1..];
      assert forall i :: 0 <= i < |rest| ==> rest[i] == vs[i + 1];
      assert rest != [] ==> Key(vs[0]) <= Key(vs[1]);
      LastIsMaximum(vs[0], rest);
    }
  }
}
