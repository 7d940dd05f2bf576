/**
 The SQL text an incremental run builds (query_builder.py, and the ORDER BY list joined in
 incremental_sync.py), with the database's reading of it.
 */
module SqlText {
  import opened Wrappers
  import opened Text
  import opened Timestamps
  import opened Values
  import opened Literals

  datatype Dialect = Postgres | MySql | SqlServer

  // ---------------------------------------------------------------- ORDER BY

  /** The names in one text, separated by a comma and a blank. */
  function Join(names: seq<string>): string {
    if names == [] then ""
    else if |names| == 1 then names[0]
    else names[0] + ", " + Join(names[1..])
  }

  /** The pieces of a text between the occurrences of a character: always at least one. */
  function Split(text: string, c: char): (pieces: seq<string>)
    ensures |pieces| >= 1
    decreases |text|
  {
    var i := IndexOf(text, c);
    if i == |text| then [text] else [text[..i]] + Split(text[i + 1..], c)
  }

  function StripAll(pieces: seq<string>): (r: seq<string>)
    ensures |r| == |pieces| && forall i :: 0 <= i < |r| ==> r[i] == Strip(pieces[i])
  {
    if pieces == [] then [] else [Strip(pieces[0])] + StripAll(pieces[1..])
  }

  /** The columns build_incremental_query sees in the ORDER BY text it is given. */
  function OrderColumns(orderBy: string): seq<string> { StripAll(Split(orderBy, ',')) }

  /**
   The ORDER BY text of a run: the incremental column and the key columns, or the column alone without a primary key.
   */
  function OrderBy(column: string, keys: seq<string>): string {
    if keys == [] then column else column + ", " + Join(keys)
  }

  predicate PlainName(name: string) { ',' !in name && Trimmed(name) }

  lemma SplitPiece(a: string, b: string)
    requires ',' !in a
    ensures Split(a, ',') == [a]
    ensures Split(a + "," + b, ',') == [a] + Split(b, ',')
  {
    IndexOfFirst(a, "", ',');
    assert a + "" == a;
    IndexOfFirst(a, "," + b, ',');
    assert a + "," + b == a + ("," + b);
    var t := a + "," + b;
    assert t[..|a|] == a && t[|a| + 1..] == b;
  }

  function Commas(s: string): nat {
    if s == "" then 0 else (if s[0] == ',' then 1 else 0) + Commas(s[1..])
  }

  lemma {:induction false} CommasJoin(a: string, b: string)
    ensures Commas(a + b) == Commas(a) + Commas(b)
  {
    if a == "" {
      assert a + b == b;
    } else {
      CommasJoin(a[1..], b);
      assert (a + b)[1..] == a[1..] + b;
    }
  }

  lemma {:induction false} CommasZero(a: string)
    ensures Commas(a) == 0 <==> ',' !in a
  {
    if a != "" {
      CommasZero(a[1..]);
      assert a == [a[0]] + a[1..];
    }
  }

  lemma {:induction false} SplitCount(s: string)
    ensures |Split(s, ',')| == Commas(s) + 1
    decreases |s|
  {
    var i := IndexOf(s, ',');
    CommasZero(s[..i]);
    if i == |s| {
      assert s[..i] == s;
    } else {
      SplitCount(s[i + 1..]);
      assert s == s[..i] + ([','] + s[i + 1..]);
      CommasJoin(s[..i], [','] + s[i + 1..]);
      assert ([','] + s[i + 1..])[1..] == s[i + 1..];
    }
  }

  /** A joined list carries its separators and whatever commas the names have. */
  lemma {:induction false} JoinCount(names: seq<string>)
    requires names != []
    ensures Commas(Join(names)) >= |names| - 1
    ensures Commas(Join(names)) == |names| - 1 ==> forall i :: 0 <= i < |names| ==> ',' !in names[i]
  {
    CommasZero(names[0]);
    if |names| > 1 {
      JoinCount(names[1..]);
      CommasJoin(names[0] + ", ", Join(names[1..]));
      CommasJoin(names[0], ", ");
      assert Commas(", ") == 1 by { assert ", "[1..] == " "; assert Commas(" ") == 0; }
      assert forall i :: 0 < i < |names| ==> names[i] == names[1..][i - 1];
    }
  }

  lemma StripBlank(s: string)
    ensures Strip(" " + s) == Strip(s)
  {
  }

  lemma FirstColumn(a: string, tail: string)
    requires ',' !in a
    ensures OrderColumns(a + "," + tail) == [Strip(a)] + OrderColumns(tail)
  {
    SplitPiece(a, tail);
    assert ([a] + Split(tail, ','))[1..] == Split(tail, ',');
  }

  lemma OnlyColumn(a: string)
    requires ',' !in a
    ensures OrderColumns(a) == [Strip(a)]
  {
  }

  lemma {:induction false} SplitJoin(names: seq<string>)
    requires names != [] && forall i :: 0 <= i < |names| ==> ',' !in names[i]
    ensures OrderColumns(Join(names)) == OrderColumns(" " + Join(names)) == StripAll(names)
    decreases |names|
  {
    hide Strip, Split;
    var a := names[0];
    StripBlank(a);
    if |names| == 1 {
      OnlyColumn(a);
      OnlyColumn(" " + a);
    } else {
      var tail := " " + Join(names[1..]);
      SplitJoin(names[1..]);
      FirstColumn(a, tail);
      FirstColumn(" " + a, tail);
      assert Join(names) == a + "," + tail;
      assert " " + Join(names) == (" " + a) + "," + tail;
    }
  }

  lemma {:induction false} StripAllFixed(names: seq<string>)
    ensures StripAll(names) == names <==> forall i :: 0 <= i < |names| ==> Trimmed(names[i])
  {
    forall i | 0 <= i < |names| ensures StripAll(names)[i] == names[i] <==> Trimmed(names[i]) {
      StripSpec(names[i]);
    }
  }

  /** Splitting the joined list finds the columns again exactly when no name has a comma or a blank at an end. */
  lemma OrderColumnsRoundTrip(names: seq<string>)
    requires names != []
    ensures OrderColumns(Join(names)) == names <==> forall i :: 0 <= i < |names| ==> PlainName(names[i])
  {
    StripAllFixed(names);
    SplitCount(Join(names));
    JoinCount(names);
    if |OrderColumns(Join(names))| == |names| {
      SplitJoin(names);
    } else if forall i :: 0 <= i < |names| ==> PlainName(names[i]) {
      SplitJoin(names);
    }
  }

  /** The ORDER BY of an incremental run: the incremental column, then the key columns in order. */
  lemma OrderByColumns(column: string, keys: seq<string>)
    ensures OrderColumns(OrderBy(column, keys)) == [column] + keys
      <==> PlainName(column) && forall i :: 0 <= i < |keys| ==> PlainName(keys[i])
  {
    var names := [column] + keys;
    assert names[1..] == keys;
    assert OrderBy(column, keys) == Join(names);
    OrderColumnsRoundTrip(names);
    assert forall i :: 0 <= i < |keys| ==> names[i + 1] == keys[i];
  }

  // ---------------------------------------------------------------- checkpoint literals

  /** QueryBuilder._format_checkpoint_value */
  function FormatCheckpoint(m: Mark, d: Dialect): string
    requires m != NoMark
  {
    match m
    case Typed(v) => if v.IntV? then Str(v) else "'" + Escape(Str(v)) + "'"
    case Plain(s) =>
      if PyFloatAccepts(s) then s
      else "'" + Escape(s) + "'" + (if d.Postgres? then CAST else "")
  }

  const CAST := "::timestamp"

  /** A literal at the head of some SQL: its text, and the SQL behind it. */
  datatype Literal = Literal(text: string, rest: string) {
    predicate Cast() { CAST <= rest }
  }

  /** The literal at the head of some SQL: a quoted text, or the characters up to the next blank. */
  function ReadLiteral(sql: string, d: Dialect): Option<Literal> {
    if sql != "" && sql[0] == '\'' then
      var (text, rest) :- ReadQuoted(sql[1..], d.MySql?);
      Some(Literal(text, rest))
    else Some(Literal(sql[..IndexOf(sql, ' ')], sql[IndexOf(sql, ' ')..]))
  }

  /** Offset of the database session's time zone in minutes. */
  type Offset = z: int | -1440 < z < 1440

  /**
   What a literal means next to a column of kind k. A timestamp has no zone: the cast drops the one in the text,
   and a column with a zone takes the result in the zone of the session.
   */
  function DbLiteral(k: Kind, l: Literal, session: Offset): Option<Value> {
    var v := DbValue(k, l.text);
    if l.Cast() && v.Some? && v.value.TimeV? then
      Some(TimeV(v.value.t.(zone := if k.TimeKind? && k.zone.Some? then Some(session) else None)))
    else v
  }

  /** Which rows the WHERE clause lets through. */
  datatype Bound = All | Above(key: int) | Invalid

  /** What `WHERE column > literal ORDER BY ...` means to the database, or `WHERE 1=1` without a checkpoint. */
  function WhereBound(m: Mark, d: Dialect, k: Kind, session: Offset, orderBy: string): Bound {
    if m == NoMark then All
    else
      var l := ReadLiteral(FormatCheckpoint(m, d) + " ORDER BY " + orderBy, d);
      if l.None? || DbLiteral(k, l.value, session).None? then Invalid
      else Above(Key(DbLiteral(k, l.value, session).value))
  }

  /** What is written behind the literal of a mark. */
  function CastOf(m: Mark, d: Dialect, k: Kind): string { if m.Plain? && d.Postgres? && k.TimeKind? then CAST else "" }

  /** Every literal is followed by a blank or a cast, so reading it finds the text of the mark. */
  lemma LiteralText(m: Mark, d: Dialect, k: Kind, tail: string)
    requires Canonical(m, k)
    ensures ReadLiteral(FormatCheckpoint(m, d) + (" " + tail), d)
            == Some(Literal(MarkText(m), CastOf(m, d, k) + (" " + tail)))
  {
    hide ShowInt, Show, ShowDate, Read, PyInt, PyFloatAccepts, ReadLiteral, Strip, Survives;
    var v := if m.Typed? then m.v else DbValue(k, m.text).value;
    match v
    case IntV(i) =>
      IntTextIsFloat(i);
      UnquotedLiteral(i, tail, d);
      assert "" + (" " + tail) == " " + tail;
    case TimeV(t) =>
      ShowShape(t);
      ColonIsNotFloat(Show(t));
      ShowSurvives(t);
      assert FormatCheckpoint(m, d) == "'" + Escape(Show(t)) + "'" + CastOf(m, d, k);
      QuotedLiteral(Show(t), CastOf(m, d, k), tail, d);
    case DateV(t) =>
      ShowDateSurvives(t);
      assert FormatCheckpoint(m, d) == "'" + Escape(ShowDate(t)) + "'" + "";
      QuotedLiteral(ShowDate(t), "", tail, d);
  }

  lemma ShowSurvives(t: Timestamp)
    requires Timestamps.Valid(t)
    ensures Survives(Show(t))
  {
    ShowChars(t, 0);
    hide ShowFrom;
  }

  lemma ShowDateSurvives(t: Timestamp)
    ensures Survives(ShowDate(t))
  {
    ShowDateChars(t);
  }

  /** A quoted literal, with or without a cast, and a blank behind it. */
  lemma QuotedLiteral(s: string, cast: string, tail: string, d: Dialect)
    requires cast == "" || cast == CAST
    ensures ReadLiteral("'" + Escape(s) + "'" + cast + (" " + tail), d) == Some(Literal(s, cast + (" " + tail)))
            <==> (d.MySql? ==> Survives(s))
  {
    var rest := cast + (" " + tail);
    var body := Escape(s) + "'" + rest;
    var sql := "'" + Escape(s) + "'" + cast + (" " + tail);
    assert sql == "'" + body;
    assert sql[1..] == body;
    QuotedRoundTrip(s, rest, d.MySql?);
  }

  lemma UnquotedLiteral(i: int, tail: string, d: Dialect)
    ensures ReadLiteral(ShowInt(i) + (" " + tail), d) == Some(Literal(ShowInt(i), " " + tail))
  {
    var s := ShowInt(i);
    assert ' ' !in s && s[0] != '\'' by {
      assert forall j :: 0 <= j < |s| ==> IsDigit(s[j]) || s[j] == '-';
    }
    IndexOfFirst(s, " " + tail, ' ');
    assert (s + (" " + tail))[..|s|] == s && (s + (" " + tail))[|s|..] == " " + tail;
  }

  /**
   Any text that is not a number comes back from its literal whole, whatever quotes are in it, and nothing of the SQL
   behind it is lost; in MySQL exactly when every backslash in it stands before a pattern sign.
   */
  lemma TextLiteralRoundTrip(s: string, d: Dialect, tail: string)
    requires !PyFloatAccepts(s)
    ensures var cast := if d == Postgres then "::timestamp" else "";
            ReadLiteral(FormatCheckpoint(Plain(s), d) + (" " + tail), d) == Some(Literal(s, cast + (" " + tail)))
            <==> (d.MySql? ==> Survives(s))
  {
    hide PyFloatAccepts, ReadLiteral, Escape, Strip, Survives;
    QuotedLiteral(s, if d.Postgres? then CAST else "", tail, d);
  }

  /** On an integer column, listed or not, the decimal text goes through storing, parsing and formatting unchanged. */
  lemma IntegerTextSurvives(i: int, c: Column, d: Dialect)
    requires c.kind.IntKind?
    ensures FormatCheckpoint(StartMark(Some(ShowInt(i)), c), d) == ShowInt(i)
  {
    hide PyFloatAccepts, ShowInt;
    StoreAndParse(IntV(i), c);
    IntTextIsFloat(i);
  }

  // ---------------------------------------------------------------- what the WHERE clause bounds

  /** How far the cast moves a mark: text of a zoned column loses its zone and takes the session's. */
  function CastShift(m: Mark, d: Dialect, k: Kind, session: Offset): int {
    if CastOf(m, d, k) != "" && k.zone.Some? then (k.zone.value - session) * MICROS_PER_MINUTE else 0
  }

  lemma DbLiteralOfMark(m: Mark, d: Dialect, k: Kind, session: Offset, tail: string)
    requires Canonical(m, k)
    ensures var v := DbLiteral(k, Literal(MarkText(m), CastOf(m, d, k) + (" " + tail)), session);
            v.Some? && Key(v.value) == MarkKey(m, k) + CastShift(m, d, k, session)
  {
    ReadMark(m, k);
    var rest := CastOf(m, d, k) + (" " + tail);
    assert CastOf(m, d, k) == "" ==> rest[0] == ' ' && CAST[0] == ':';
    hide Show, ShowDate, ShowInt, Read, ReadDate, PyInt;
  }

  /** The WHERE clause built from a mark bounds the query by the mark's value, up to what the cast moves. */
  lemma BoundOfMark(m: Mark, d: Dialect, k: Kind, session: Offset, orderBy: string)
    requires Canonical(m, k)
    ensures WhereBound(m, d, k, session, orderBy) == Above(MarkKey(m, k) + CastShift(m, d, k, session))
  {
    hide ShowInt, Show, Read, PyInt, FormatCheckpoint, ReadLiteral, DbValue, MarkText, DbLiteral;
    var tail := "ORDER BY " + orderBy;
    LiteralText(m, d, k, tail);
    assert FormatCheckpoint(m, d) + " ORDER BY " + orderBy == FormatCheckpoint(m, d) + (" " + tail);
    DbLiteralOfMark(m, d, k, session, tail);
  }

  /** The cast does not apply, or the session has the zone of the column's values. */
  predicate ZoneKept(c: Column, d: Dialect, session: Offset) {
    d.Postgres? && !Listed(c) && c.kind.TimeKind? && c.kind.zone.Some? ==> c.kind.zone.value == session
  }

  /**
   The whole way of a checkpoint: stored as text, parsed by the column type, formatted into the query, and read by the
   database, it bounds the query by the value it came from, exactly when the cast keeps the zone.
   */
  lemma StoredCheckpointBounds(v: Value, c: Column, d: Dialect, session: Offset, orderBy: string)
    requires Fits(v, c.kind)
    ensures WhereBound(StartMark(Some(Str(v)), c), d, c.kind, session, orderBy) == Above(Key(v))
            <==> ZoneKept(c, d, session)
  {
    var m := StartMark(Some(Str(v)), c);
    StoreAndParse(v, c);
    ShiftIff(v, c, d, session);
    hide WhereBound, Canonical, MarkKey, DbValue, StartMark, Str, Key, CastShift, ZoneKept;
    BoundOfMark(m, d, c.kind, session, orderBy);
  }

  lemma ShiftIff(v: Value, c: Column, d: Dialect, session: Offset)
    requires Fits(v, c.kind)
    ensures CastShift(StartMark(Some(Str(v)), c), d, c.kind, session) == 0 <==> ZoneKept(c, d, session)
  {
    StoreAndParse(v, c);
    hide StartMark, Str, Canonical, DbValue, Key;
  }
}
