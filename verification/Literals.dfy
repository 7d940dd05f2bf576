/**
 Quoted SQL literals: how the program writes them (query_builder.py:264-273) and how a database reads them.
 MySQL gives a backslash in a literal a meaning of its own; the other two databases do not.
 */
module Literals {
  import opened Wrappers

  /** The text with every quote doubled. */
  function Escape(s: string): string {
    if s == "" then "" else (if s[0] == '\'' then "''" else [s[0]]) + Escape(s[1..])
  }

  /** What a backslash and the character c stand for; before a pattern sign the backslash stays. */
  function Unescaped(c: char): (r: string)
    ensures r != "" && (|r| == 2 <==> c == '%' || c == '_') && |r| <= 2
    ensures r[0] == '\\' <==> c == '\\' || c == '%' || c == '_'
  {
    if c == '%' || c == '_' then ['\\', c]
    else if c == '0' then "\0"
    else if c == 'b' then "\U{8}"
    else if c == 'n' then "\n"
    else if c == 'r' then "\r"
    else if c == 't' then "\t"
    else if c == 'Z' then "\U{1A}"
    else [c]
  }

  /** The reading of a literal after its opening quote: its text, and the SQL after the closing quote. */
  function ReadQuoted(sql: string, backslash: bool): Option<(string, string)>
    decreases |sql|
  {
    if sql == "" then None
    else if backslash && sql[0] == '\\' then
      if |sql| == 1 then None
      else
        var (text, rest) :- ReadQuoted(sql[2..], backslash);
        Some((Unescaped(sql[1]) + text, rest))
    else if sql[0] != '\'' then
      var (text, rest) :- ReadQuoted(sql[1..], backslash);
      Some(([sql[0]] + text, rest))
    else if |sql| > 1 && sql[1] == '\'' then
      var (text, rest) :- ReadQuoted(sql[2..], backslash);
      Some((['\''] + text, rest))
    else Some(("", sql[1..]))
  }

  /** Every backslash stands before a pattern sign. */
  predicate Survives(s: string) {
    forall i :: 0 <= i < |s| && s[i] == '\\' ==> i + 1 < |s| && (s[i + 1] == '%' || s[i + 1] == '_')
  }

  // ---------------------------------------------------------------- reading never adds a character

  function Quotes(s: string): nat { if s == "" then 0 else (if s[0] == '\'' then 1 else 0) + Quotes(s[1..]) }

  lemma {:induction false} QuotesJoin(a: string, b: string)
    ensures Quotes(a + b) == Quotes(a) + Quotes(b)
    decreases |a|
  {
    if a == "" {
      assert a + b == b;
    } else {
      QuotesJoin(a[1..], b);
      assert (a + b)[1..] == a[1..] + b;
    }
  }

  lemma {:induction false} EscapeLength(s: string)
    ensures |Escape(s)| == |s| + Quotes(s) && Quotes(Escape(s)) == 2 * Quotes(s)
    decreases |s|
  {
    if s != "" {
      EscapeLength(s[1..]);
      QuotesJoin(if s[0] == '\'' then "''" else [s[0]], Escape(s[1..]));
      assert Quotes("''") == 2 by { assert "''"[1..] == "'" && "'"[1..] == ""; }
      assert [s[0]][1..] == "";
    }
  }

  lemma QuotesFirst(s: string, n: nat)
    requires n <= |s| && n <= 2
    ensures Quotes(s)
            == Quotes(s[n..]) + (if n > 0 && s[0] == '\'' then 1 else 0) + (if n > 1 && s[1] == '\'' then 1 else 0)
  {
    if n == 2 { assert s[1..][1..] == s[2..]; }
  }

  /** The text is shorter than what is read, by at least half of the quotes in it besides the closing one. */
  lemma {:induction false} ReadMeasure(sql: string, backslash: bool)
    ensures var r := ReadQuoted(sql, backslash);
            r.Some? ==> 2 * (|sql| - |r.value.1| - 1 - |r.value.0|) >= Quotes(sql) - Quotes(r.value.1) - 1
    decreases |sql|
  {
    if sql != "" {
      QuotesFirst(sql, 1);
      if backslash && sql[0] == '\\' {
        if |sql| > 1 {
          QuotesFirst(sql, 2);
          ReadMeasure(sql[2..], backslash);
        }
      } else if sql[0] != '\'' {
        ReadMeasure(sql[1..], backslash);
      } else if |sql| > 1 && sql[1] == '\'' {
        QuotesFirst(sql, 2);
        ReadMeasure(sql[2..], backslash);
      }
    }
  }

  /** A literal is never read as a longer text than was written, if it ends where it should. */
  lemma NeverLonger(s: string, rest: string, backslash: bool)
    ensures var r := ReadQuoted(Escape(s) + "'" + rest, backslash);
            r.Some? && r.value.1 == rest ==> |r.value.0| <= |s|
  {
    var sql := Escape(s) + "'" + rest;
    EscapeLength(s);
    QuotesJoin(Escape(s) + "'", rest);
    QuotesJoin(Escape(s), "'");
    assert Quotes("'") == 1 by { assert "'"[1..] == ""; }
    ReadMeasure(sql, backslash);
  }

  // ---------------------------------------------------------------- the round trip

  lemma SurvivesRest(s: string)
    requires s != ""
    ensures s[0] != '\\' ==> (Survives(s) <==> Survives(s[1..]))
    ensures s[0] == '\\' ==> (Survives(s) <==> |s| > 1 && (s[1] == '%' || s[1] == '_') && Survives(s[2..]))
  {
    if s[0] == '\\' && |s| > 1 && (s[1] == '%' || s[1] == '_') {
      assert forall i :: 0 <= i < |s[2..]| ==> s[2..][i] == s[i + 2];
      if Survives(s[2..]) {
        forall i | 0 <= i < |s| && s[i] == '\\' ensures i + 1 < |s| && (s[i + 1] == '%' || s[i + 1] == '_') {
          if i >= 2 { assert s[2..][i - 2] == '\\'; }
        }
      }
    } else {
      assert forall i :: 0 <= i < |s[1..]| ==> s[1..][i] == s[i + 1];
      if Survives(s[1..]) {
        forall i | 0 < i < |s| && s[i] == '\\' ensures i + 1 < |s| && (s[i + 1] == '%' || s[i + 1] == '_') {
          assert s[1..][i - 1] == '\\';
        }
      }
    }
  }

  /**
   The literal written for a text ends at its own closing quote and denotes that text: always where a backslash is a
   character like others, and in MySQL exactly when every backslash stands before a pattern sign.
   */
  lemma {:induction false} QuotedRoundTrip(s: string, rest: string, backslash: bool)
    requires rest == "" || rest[0] != '\''
    ensures ReadQuoted(Escape(s) + "'" + rest, backslash) == Some((s, rest)) <==> (backslash ==> Survives(s))
    decreases |s|
  {
    var sql := Escape(s) + "'" + rest;
    if s == "" {
      assert sql == "'" + rest;
      assert sql[1..] == rest;
    } else if backslash && s[0] == '\\' {
      SurvivesRest(s);
      BackslashFirst(s, rest);
      if |s| > 1 { QuotedRoundTrip(s[2..], rest, backslash); }
    } else {
      SurvivesRest(s);
      QuotedRoundTrip(s[1..], rest, backslash);
      var tail := Escape(s[1..]) + "'" + rest;
      if s[0] == '\'' {
        assert sql == "''" + tail;
        assert sql[2..] == tail;
      } else {
        assert sql == [s[0]] + tail;
        assert sql[1..] == tail;
      }
      assert s == [s[0]] + s[1..];
    }
  }

  /** A text that begins with a backslash comes back only if a pattern sign follows and the rest comes back. */
  lemma BackslashFirst(s: string, rest: string)
    requires s != "" && s[0] == '\\'
    ensures ReadQuoted(Escape(s) + "'" + rest, true) == Some((s, rest))
            <==> |s| > 1 && (s[1] == '%' || s[1] == '_') &&
                 ReadQuoted(Escape(s[2..]) + "'" + rest, true) == Some((s[2..], rest))
  {
    if |s| > 1 && s[1] != '\'' {
      BackslashThenPlain(s, rest);
      NeverLonger(s[2..], rest, true);
      hide ReadQuoted, Escape;
      var tail := ReadQuoted(Escape(s[2..]) + "'" + rest, true);
      if tail.Some? && tail.value.1 == rest { FirstTwo(s[1], tail.value.0, s); }
    } else {
      BackslashThenQuote(s, rest);
      hide ReadQuoted, Escape;
    }
  }

  lemma BackslashThenPlain(s: string, rest: string)
    requires |s| > 1 && s[0] == '\\' && s[1] != '\''
    ensures var tail := ReadQuoted(Escape(s[2..]) + "'" + rest, true);
            ReadQuoted(Escape(s) + "'" + rest, true)
            == if tail.None? then None else Some((Unescaped(s[1]) + tail.value.0, tail.value.1))
  {
    assert s[1..][1..] == s[2..];
    var tail := Escape(s[2..]) + "'" + rest;
    assert Escape(s) == "\\" + ([s[1]] + Escape(s[2..]));
    var sql := Escape(s) + "'" + rest;
    assert sql == ['\\', s[1]] + tail;
    assert sql[2..] == tail;
  }

  /** Behind a backslash a quote does not close the literal. */
  lemma BackslashThenQuote(s: string, rest: string)
    requires s != "" && s[0] == '\\' && (|s| == 1 || s[1] == '\'')
    ensures var r := ReadQuoted(Escape(s) + "'" + rest, true); r.Some? ==> r.value.0 != "" && r.value.0[0] == '\''
  {
    var sql := Escape(s) + "'" + rest;
    assert sql == "\\" + (Escape(s[1..]) + "'" + rest);
    assert sql[1] == (Escape(s[1..]) + "'" + rest)[0] == '\'';
  }

  lemma FirstTwo(c: char, text: string, s: string)
    requires |s| > 1 && s[0] == '\\' && s[1] == c && |text| <= |s| - 2
    ensures Unescaped(c) + text == s <==> (c == '%' || c == '_') && text == s[2..]
  {
    if c == '%' || c == '_' {
      assert s == ['\\', c] + s[2..];
      if Unescaped(c) + text == s { assert (Unescaped(c) + text)[2..] == text; }
    }
  }
}
