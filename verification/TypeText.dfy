/** Type strings: normalize_data_type and the same-database branch of map_data_type (core/type_mapping.py). */
module TypeText {
  import opened Wrappers
  import opened Text
  import opened SqlText

  function UpperChar(c: char): char {
    if 'a' <= c <= 'z' then (c as int - 32) as char else c
  }

  function Upper(s: string): (r: string)
    ensures |r| == |s|
  {
    seq(|s|, i requires 0 <= i < |s| => UpperChar(s[i]))
  }

  /** (base_type, max_length, precision, scale) */
  datatype TypeParts = TypeParts(base: string, maxLength: Option<int>, precision: Option<int>, scale: Option<int>)

  /** What stands between the parentheses; a scale that is no number keeps the precision already read. */
  function Parameters(base: string, params: string): TypeParts {
    if params == "" then TypeParts(base, None, None, None)
    else if ',' in params then
      var parts := Split(params, ',');
      SplitCount(params);
      var precision := PyInt(parts[0]);
      assert |parts| >= 2 by { CommasZero(params); }
      TypeParts(base, None, precision, if precision.None? then None else PyInt(parts[1]))
    else TypeParts(base, PyInt(params), None, None)
  }

  /** normalize_data_type */
  function NormalizeDataType(dataType: string): TypeParts {
    var upper := Strip(Upper(dataType));
    var i := IndexOf(upper, '(');
    if i == |upper| then TypeParts(upper, None, None, None)
    else
      var inner := upper[i + 1..];
      Parameters(Strip(upper[..i]), Strip(Split(Split(inner, '(')[0], ')')[0]))
  }

  /** The substring test of Python's `in`. */
  predicate Contains(s: string, part: string) {
    part <= s || (s != "" && Contains(s[1..], part))
  }

  /** map_data_type when source and target are of one kind: a character type gets the given length, unless that is 0. */
  function MapSameDatabase(sourceType: string, maxLength: Option<int>): string {
    if maxLength.Some? && maxLength.value != 0 &&
       (Contains(Lower(sourceType), "varchar") || Contains(Lower(sourceType), "char"))
    then Split(sourceType, '(')[0] + "(" + ShowInt(maxLength.value) + ")"
    else sourceType
  }

  // ---------------------------------------------------------------- proofs

  lemma FirstPiece(a: string, rest: string, c: char)
    requires c !in a && (rest == "" || rest[0] == c)
    ensures Split(a + rest, c)[0] == a
  {
    IndexOfFirst(a, rest, c);
    assert (a + rest)[..|a|] == a;
  }

  lemma UpperJoin(a: string, b: string)
    ensures Upper(a + b) == Upper(a) + Upper(b)
  {
  }

  lemma UpperNumber(i: int)
    ensures Upper(ShowInt(i)) == ShowInt(i)
  {
  }

  lemma {:induction false} StripLeftJoin(a: string, rest: string)
    requires rest != "" && !IsBlank(rest[0])
    ensures StripLeft(a + rest) == StripLeft(a) + rest
  {
    if a == "" {
      assert a + rest == rest && StripLeft(a) + rest == rest;
    } else if IsBlank(a[0]) {
      StripLeftJoin(a[1..], rest);
      assert (a + rest)[1..] == a[1..] + rest;
    }
  }

  lemma {:induction false} StripLeftTwice(a: string)
    ensures StripLeft(StripLeft(a)) == StripLeft(a)
  {
    if a != "" && IsBlank(a[0]) { StripLeftTwice(a[1..]); }
  }

  /** Upper-casing and stripping a type string leaves the part from its opening parenthesis alone. */
  lemma StrippedType(base: string, inner: string)
    requires '(' !in base && Upper(inner) == inner && ')' !in inner
    ensures Strip(Upper(base + "(" + inner + ")")) == StripLeft(Upper(base)) + ("(" + inner + ")")
  {
    hide Upper, StripLeft, StripRight;
    var tail := "(" + inner + ")";
    UpperParens(inner);
    assert base + "(" + inner + ")" == base + tail;
    UpperJoin(base, tail);
    StripLeftJoin(Upper(base), tail);
    ClosedOnTheRight(StripLeft(Upper(base)), "(" + inner);
  }

  lemma UpperParens(inner: string)
    requires Upper(inner) == inner
    ensures Upper("(" + inner + ")") == "(" + inner + ")"
  {
  }

  lemma ClosedOnTheRight(a: string, b: string)
    ensures StripRight(a + (b + ")")) == a + (b + ")")
  {
  }

  lemma UpperKeepsOut(base: string)
    requires '(' !in base
    ensures '(' !in StripLeft(Upper(base))
  {
    var i := StripLeftSpec(Upper(base));
    var u := Upper(base);
    forall k | 0 <= k < |u| ensures u[k] != '(' {
      assert base[k] in base;
    }
  }

  lemma NormalizedParts(base: string, inner: string)
    requires '(' !in base && '(' !in inner && ')' !in inner && Upper(inner) == inner
    ensures NormalizeDataType(base + "(" + inner + ")") == Parameters(Strip(Upper(base)), Strip(inner))
  {
    hide Strip, Parameters;
    StrippedType(base, inner);
    UpperKeepsOut(base);
    var b, tail := StripLeft(Upper(base)), "(" + inner + ")";
    var u := b + tail;
    IndexOfFirst(b, tail, '(');
    assert u[..|b|] == b && u[|b| + 1..] == inner + ")";
    FirstPiece(inner + ")", "", '(');
    assert inner + ")" + "" == inner + ")";
    FirstPiece(inner, ")", ')');
    StripBase(base);
  }

  lemma StripBase(base: string)
    ensures Strip(StripLeft(Upper(base))) == Strip(Upper(base))
  {
    StripLeftTwice(Upper(base));
  }

  lemma NumberChars(i: int, c: char)
    requires !IsDigit(c) && c != '-'
    ensures c !in ShowInt(i)
  {
  }

  /** `BASE(n)` normalises to its base, upper-cased and stripped, and the length n. */
  lemma LengthRoundTrip(base: string, n: int)
    requires '(' !in base
    ensures NormalizeDataType(base + "(" + ShowInt(n) + ")") == TypeParts(Strip(Upper(base)), Some(n), None, None)
  {
    var inner := ShowInt(n);
    UpperNumber(n);
    NumberChars(n, '(');
    NumberChars(n, ')');
    NumberChars(n, ',');
    NormalizedParts(base, inner);
    ShowIntShape(n);
    IntTextRoundTrip(n);
  }

  /** `BASE(p,s)` normalises to its base, the precision p and the scale s. */
  lemma PrecisionRoundTrip(base: string, p: int, s: int)
    requires '(' !in base
    ensures NormalizeDataType(base + "(" + (ShowInt(p) + "," + ShowInt(s)) + ")")
            == TypeParts(Strip(Upper(base)), None, Some(p), Some(s))
  {
    NumberIsClean(p);
    NumberIsClean(s);
    IntTextRoundTrip(p);
    IntTextRoundTrip(s);
    PairParts(base, ShowInt(p), ShowInt(s));
  }

  lemma BaseOfType(t: string)
    ensures '(' !in Split(t, '(')[0]
  {
  }

  lemma BaseOfSized(base: string, n: int)
    requires '(' !in base
    ensures Split(base + "(" + ShowInt(n) + ")", '(')[0] == base
  {
    hide ShowInt, Split;
    var tail := "(" + ShowInt(n) + ")";
    FirstPiece(base, tail, '(');
    assert base + "(" + ShowInt(n) + ")" == base + tail;
  }

  /** The same-database mapping settles: mapping a mapped type with the same length changes nothing, for any string. */
  lemma SameDatabaseIdempotent(t: string, maxLength: Option<int>)
    ensures MapSameDatabase(MapSameDatabase(t, maxLength), maxLength) == MapSameDatabase(t, maxLength)
  {
    hide Contains, Lower, ShowInt, Split;
    if maxLength.Some? {
      BaseOfType(t);
      BaseOfSized(Split(t, '(')[0], maxLength.value);
    }
  }

  /** A type that the same-database mapping gave a length normalises to that length. */
  lemma MappedTypeHasLength(t: string, n: int)
    requires MapSameDatabase(t, Some(n)) != t
    ensures NormalizeDataType(MapSameDatabase(t, Some(n))).maxLength == Some(n)
  {
    hide NormalizeDataType, Contains, Lower, ShowInt, Split;
    BaseOfType(t);
    LengthRoundTrip(Split(t, '(')[0], n);
  }

  // ---------------------------------------------------------------- which types get a length

  lemma {:induction false} ContainsJoin(a: string, part: string, b: string)
    ensures Contains(a + part + b, part)
    decreases |a|
  {
    var s := a + part + b;
    if a == "" {
      assert part <= s;
    } else {
      ContainsJoin(a[1..], part, b);
      assert s[1..] == a[1..] + part + b;
    }
  }

  lemma LowerJoin(a: string, b: string)
    ensures Lower(a + b) == Lower(a) + Lower(b)
  {
  }

  /** A type with char in its name, in any case, gets the length that is given, in place of any it had. */
  lemma CharTypeGetsLength(before: string, middle: string, after: string, length: string, n: int)
    requires Lower(middle) == "char" && '(' !in before + middle + after && n != 0 && (length == "" || length[0] == '(')
    ensures var base := before + middle + after;
            MapSameDatabase(base + length, Some(n)) == base + "(" + ShowInt(n) + ")" &&
            NormalizeDataType(MapSameDatabase(base + length, Some(n)))
            == TypeParts(Strip(Upper(base)), Some(n), None, None)
  {
    var base := before + middle + after;
    LowerJoin(before + middle, after + length);
    LowerJoin(before, middle);
    assert base + length == (before + middle) + (after + length);
    assert Lower(base + length) == Lower(before) + "char" + Lower(after + length);
    ContainsJoin(Lower(before), "char", Lower(after + length));
    FirstPiece(base, length, '(');
    LengthRoundTrip(base, n);
    hide Contains, Lower, Split, ShowInt, NormalizeDataType, Strip, Upper;
  }

  /** Without a length, or with length 0, every type stays as it is, and so does a type without char in its name. */
  lemma OthersStay(t: string, n: Option<int>)
    requires n == None || n == Some(0) || !Contains(Lower(t), "char")
    ensures MapSameDatabase(t, n) == t
  {
    if Contains(Lower(t), "varchar") { VarcharHasChar(Lower(t)); }
  }

  lemma {:induction false} VarcharHasChar(s: string)
    requires Contains(s, "varchar")
    ensures Contains(s, "char")
    decreases |s|
  {
    if "varchar" <= s {
      assert s[3..7] == "char" && s == s[..3] + "char" + s[7..];
      ContainsJoin(s[..3], "char", s[7..]);
    } else {
      VarcharHasChar(s[1..]);
    }
  }

  // ---------------------------------------------------------------- types without a number

  /** A length that is no number is none, as in VARCHAR(MAX). */
  lemma NoLength(base: string, inner: string)
    requires '(' !in base && '(' !in inner && ')' !in inner && ',' !in inner && Upper(inner) == inner
    requires Strip(inner) != "" && PyInt(Strip(inner)) == None
    ensures NormalizeDataType(base + "(" + inner + ")") == TypeParts(Strip(Upper(base)), None, None, None)
  {
    NormalizedParts(base, inner);
    StripSpec(inner);
    var i, j :| 0 <= i <= j <= |inner| && Strip(inner) == inner[i..j];
    assert ',' !in Strip(inner);
    hide NormalizeDataType, Strip, Upper, PyInt;
  }

  lemma MaxIsNoNumber()
    ensures Upper("MAX") == "MAX" && Strip("MAX") == "MAX" && PyInt("MAX") == None
  {
    StripSpec("MAX");
    NotAnInt("MAX", 'M');
  }

  lemma KnownCases()
    ensures Upper("nvarchar2") == "NVARCHAR2" && Lower("NVarChar") == "nvarchar"
  {
  }

  lemma PairParts(base: string, a: string, b: string)
    requires '(' !in base && Clean(a) && Clean(b)
    ensures NormalizeDataType(base + "(" + (a + "," + b) + ")")
            == TypeParts(Strip(Upper(base)), None, PyInt(a), if PyInt(a).None? then None else PyInt(b))
  {
    CleanPair(a, b);
    NormalizedParts(base, a + "," + b);
    PairParameters(Strip(Upper(base)), a, b);
    hide Strip, Upper, PyInt, NormalizeDataType, Parameters, Clean;
  }

  lemma CleanPair(a: string, b: string)
    requires Clean(a) && Clean(b)
    ensures var inner := a + "," + b; Upper(inner) == inner && '(' !in inner && ')' !in inner && Strip(inner) == inner
  {
    var inner := a + "," + b;
    UpperJoin(a + ",", b);
    UpperJoin(a, ",");
    assert Upper(",") == ",";
    assert inner[0] == a[0] && inner[|inner| - 1] == b[|b| - 1];
    StripSpec(inner);
    hide Strip, Upper;
  }

  lemma PairParameters(base: string, a: string, b: string)
    requires Clean(a) && Clean(b)
    ensures Parameters(base, a + "," + b)
            == TypeParts(base, None, PyInt(a), if PyInt(a).None? then None else PyInt(b))
  {
    SplitPiece(a, b);
    SplitPiece(b, "");
    hide PyInt, Split, Clean;
    assert (a + "," + b)[|a|] == ',';
  }

  /** Upper-case text without blanks at its ends, parentheses or commas. */
  predicate Clean(s: string) {
    s != "" && Trimmed(s) && Upper(s) == s && '(' !in s && ')' !in s && ',' !in s
  }

  /** A precision that is no number leaves no scale either; a scale that is none leaves the precision. */
  lemma NoPrecisionNoScale(base: string, n: int, other: string)
    requires '(' !in base && Clean(other) && PyInt(other) == None
    ensures NormalizeDataType(base + "(" + (other + "," + ShowInt(n)) + ")")
            == TypeParts(Strip(Upper(base)), None, None, None)
    ensures NormalizeDataType(base + "(" + (ShowInt(n) + "," + other) + ")")
            == TypeParts(Strip(Upper(base)), None, Some(n), None)
  {
    NumberIsClean(n);
    IntTextRoundTrip(n);
    PairParts(base, other, ShowInt(n));
    PairParts(base, ShowInt(n), other);
  }

  lemma NumberIsClean(n: int)
    ensures Clean(ShowInt(n))
  {
    UpperNumber(n);
    NumberChars(n, '(');
    NumberChars(n, ')');
    NumberChars(n, ',');
    ShowIntShape(n);
    StripSpec(ShowInt(n));
  }

  /** A type without parentheses is its own base. */
  lemma NoParameters(t: string)
    requires '(' !in t
    ensures NormalizeDataType(t) == TypeParts(Strip(Upper(t)), None, None, None)
  {
    StripSpec(Upper(t));
    var i, j :| 0 <= i <= j <= |Upper(t)| && Strip(Upper(t)) == Upper(t)[i..j];
    forall k | 0 <= k < |Upper(t)| ensures Upper(t)[k] != '(' {
      assert t[k] in t;
    }
    var s := Strip(Upper(t));
    assert '(' !in s;
    hide Strip, Upper;
    IndexOfFirst(s, "", '(');
    assert s + "" == s;
  }
}
