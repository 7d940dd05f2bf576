/**
 Python strings as the synchronisation code uses them: code-point order, decimal digits,
 int() and float() on text, strip, split and join.
 Letters and blanks are the ASCII ones.
 */
module Text {
  import opened Wrappers

  // ---------------------------------------------------------------- order

  /** Python's `a < b` on strings: the first difference decides, a proper prefix is smaller. */
  predicate LexLess(a: string, b: string) {
    |b| > 0 && (|a| == 0 || a[0] < b[0] || (a[0] == b[0] && LexLess(a[1..], b[1..])))
  }

  lemma LexStep(c: char, d: char, a: string, b: string)
    ensures LexLess([c] + a, [d] + b) <==> c < d || (c == d && LexLess(a, b))
  {
  }

  lemma {:induction false} LexPrefix(p: string, a: string, b: string)
    ensures LexLess(p + a, p + b) <==> LexLess(a, b)
  {
    if p == "" {
      assert p + a == a && p + b == b;
    } else {
      LexPrefix(p[1..], a, b);
      assert p + a == [p[0]] + (p[1..] + a) && p + b == [p[0]] + (p[1..] + b);
      LexStep(p[0], p[0], p[1..] + a, p[1..] + b);
    }
  }

  lemma {:induction false} LexIrreflexive(a: string)
    ensures !LexLess(a, a)
  {
    if a != "" { LexIrreflexive(a[1..]); }
  }

  // ---------------------------------------------------------------- digits

  predicate IsDigit(c: char) { '0' <= c <= '9' }

  function DigitChar(d: nat): (c: char)
    requires d < 10
    ensures IsDigit(c) && DigitValue(c) == d
  {
    ('0' as int + d) as char
  }

  function DigitValue(c: char): (d: nat)
    requires IsDigit(c)
    ensures d < 10
  {
    c as int - '0' as int
  }

  predicate AllDigits(s: string) { forall i :: 0 <= i < |s| ==> IsDigit(s[i]) }

  function Pow10(w: nat): (p: nat)
    ensures p >= 1
  {
    if w == 0 then 1 else 10 * Pow10(w - 1)
  }

  /** Zero-padded decimal of fixed width, as in Python's `%04d`. */
  function Digits(n: nat, w: nat): (s: string)
    ensures |s| == w && AllDigits(s)
  {
    if w == 0 then "" else Digits(n / 10, w - 1) + [DigitChar(n % 10)]
  }

  /** The natural number a run of digits denotes. */
  function DigitsValue(s: string): (n: nat)
    requires AllDigits(s)
  {
    if s == "" then 0 else 10 * DigitsValue(s[..|s| - 1]) + DigitValue(s[|s| - 1])
  }

  lemma DigitsSplit(n: nat, w: nat)
    requires w > 0
    ensures DigitsValue(Digits(n, w)) == 10 * DigitsValue(Digits(n / 10, w - 1)) + n % 10
  {
  }

  lemma {:induction false} DigitsValueRoundTrip(n: nat, w: nat)
    requires n < Pow10(w)
    ensures DigitsValue(Digits(n, w)) == n
  {
    if w > 0 {
      DigitsSplit(n, w);
      hide Digits, DigitsValue;
      DigitsValueRoundTrip(n / 10, w - 1);
    } else {
      assert n == 0;
    }
  }

  /** Padded numbers of one width compare as the numbers do; what follows them breaks ties. */
  lemma {:induction false} DigitsOrder(a: nat, b: nat, w: nat, x: string, y: string)
    requires a < Pow10(w) && b < Pow10(w)
    ensures LexLess(Digits(a, w) + x, Digits(b, w) + y) <==> a < b || (a == b && LexLess(x, y))
    decreases w
  {
    if w == 0 {
      assert Digits(a, w) + x == x && Digits(b, w) + y == y;
    } else {
      var c, d := DigitChar(a % 10), DigitChar(b % 10);
      DigitsOrder(a / 10, b / 10, w - 1, [c] + x, [d] + y);
      assert Digits(a, w) + x == Digits(a / 10, w - 1) + ([c] + x);
      assert Digits(b, w) + y == Digits(b / 10, w - 1) + ([d] + y);
      LexStep(c, d, x, y);
    }
  }

  /** str() of a non-negative int. */
  function ShowNat(n: nat): (s: string)
    ensures |s| >= 1 && AllDigits(s)
  {
    if n < 10 then [DigitChar(n)] else ShowNat(n / 10) + [DigitChar(n % 10)]
  }

  /** str() of an int. */
  function ShowInt(i: int): string {
    if i < 0 then "-" + ShowNat(-i) else ShowNat(i)
  }

  // ---------------------------------------------------------------- int() and float()

  /** What str.strip and int take for white space. */
  predicate IsBlank(c: char) {
    c == ' ' || '\t' <= c <= '\r' || '\U{1C}' <= c <= '\U{1F}' || c == '\U{85}' || c == '\U{A0}' ||
    c == '\U{1680}' || '\U{2000}' <= c <= '\U{200A}' || c == '\U{2028}' || c == '\U{2029}' ||
    c == '\U{202F}' || c == '\U{205F}' || c == '\U{3000}'
  }

  function StripLeft(s: string): (r: string) {
    if s != "" && IsBlank(s[0]) then StripLeft(s[1..]) else s
  }

  function StripRight(s: string): (r: string) {
    if s != "" && IsBlank(s[|s| - 1]) then StripRight(s[..|s| - 1]) else s
  }

  /** str.strip() */
  function Strip(s: string): string { StripRight(StripLeft(s)) }

  predicate Trimmed(s: string) {
    s == "" || (!IsBlank(s[0]) && !IsBlank(s[|s| - 1]))
  }

  predicate AllBlank(s: string) { forall i :: 0 <= i < |s| ==> IsBlank(s[i]) }

  /** Strip removes the blanks at the two ends, all of them, and nothing else. */
  lemma {:induction false} StripSpec(s: string)
    ensures Trimmed(Strip(s))
    ensures exists i, j | 0 <= i <= j <= |s| :: Strip(s) == s[i..j] && AllBlank(s[..i]) && AllBlank(s[j..])
    ensures Strip(s) == s <==> Trimmed(s)
  {
    var i := StripLeftSpec(s);
    var j := StripRightSpec(StripLeft(s));
    assert Strip(s) == s[i..][..j] == s[i..i + j];
    assert s[i..][j..] == s[i + j..];
  }

  /** What str.strip takes for white space, by example and in ranges. */
  lemma Blanks()
    ensures AllBlank(" \t\n\r\U{B}\U{C}\U{1C}\U{1D}\U{1E}\U{1F}")
    ensures AllBlank("\U{85}\U{A0}\U{1680}\U{2028}\U{2029}\U{202F}\U{205F}\U{3000}")
    ensures forall c: char :: '\U{2000}' <= c <= '\U{200A}' ==> IsBlank(c)
    ensures forall c: char :: '!' <= c <= '~' ==> !IsBlank(c)
  {
  }

  lemma {:induction false} StripLeftSpec(s: string) returns (i: nat)
    ensures i <= |s| && StripLeft(s) == s[i..] && AllBlank(s[..i])
    ensures StripLeft(s) != "" ==> !IsBlank(StripLeft(s)[0])
    ensures s == "" || !IsBlank(s[0]) ==> i == 0
    ensures s != "" && IsBlank(s[0]) ==> i > 0
  {
    if s != "" && IsBlank(s[0]) {
      var k := StripLeftSpec(s[1..]);
      i := k + 1;
    } else {
      i := 0;
    }
  }

  lemma {:induction false} StripRightSpec(s: string) returns (j: nat)
    ensures j <= |s| && StripRight(s) == s[..j] && AllBlank(s[j..])
    ensures j > 0 ==> !IsBlank(s[j - 1])
    ensures s == "" || !IsBlank(s[|s| - 1]) ==> j == |s|
    ensures s != "" && IsBlank(s[|s| - 1]) ==> j < |s|
  {
    if s != "" && IsBlank(s[|s| - 1]) {
      j := StripRightSpec(s[..|s| - 1]);
      assert s[..|s| - 1][..j] == s[..j];
    } else {
      j := |s|;
      assert s[..j] == s;
    }
  }

  /** Python's digit run: digits, with single underscores allowed between them. */
  function ReadDigits(s: string): (r: Option<nat>) {
    if s == "" || !IsDigit(s[|s| - 1]) then None
    else if |s| == 1 then Some(DigitValue(s[0]))
    else
      var front := s[..|s| - 1];
      var high := ReadDigits(if front[|front| - 1] == '_' then front[..|front| - 1] else front);
      if high.None? then None else Some(10 * high.value + DigitValue(s[|s| - 1]))
  }

  predicate IsSign(c: char) { c == '+' || c == '-' }

  /** int(text): the number, or None where Python raises ValueError. */
  function PyInt(text: string): Option<int> {
    var s := Strip(text);
    if s != "" && IsSign(s[0]) then
      var n := ReadDigits(s[1..]);
      if n.None? then None else Some(if s[0] == '-' then -(n.value as int) else n.value)
    else
      var n := ReadDigits(s);
      if n.None? then None else Some(n.value)
  }

  function IndexOf(s: string, c: char): (i: nat)
    ensures i <= |s| && c !in s[..i]
    ensures i < |s| ==> s[i] == c
  {
    if s == "" || s[0] == c then 0
    else
      var i := IndexOf(s[1..], c) + 1;
      assert s[..i] == [s[0]] + s[1..][..i - 1];
      i
  }

  lemma {:induction false} IndexOfFirst(a: string, rest: string, c: char)
    requires c !in a && (rest == "" || rest[0] == c)
    ensures IndexOf(a + rest, c) == |a|
  {
    if a == "" {
      assert a + rest == rest;
    } else {
      IndexOfFirst(a[1..], rest, c);
      assert (a + rest)[1..] == a[1..] + rest;
    }
  }

  function Unsigned(s: string): string { if s != "" && IsSign(s[0]) then s[1..] else s }

  function LowerChar(c: char): char {
    if 'A' <= c <= 'Z' then (c as int + 32) as char else c
  }

  function Lower(s: string): (r: string)
    ensures |r| == |s|
  {
    seq(|s|, i requires 0 <= i < |s| => LowerChar(s[i]))
  }

  predicate DigitsOrNothing(s: string) { s == "" || ReadDigits(s).Some? }

  /** A mantissa: digits with at most one point, and at least one digit. */
  predicate IsMantissa(s: string) {
    var i := IndexOf(s, '.');
    if i == |s| then ReadDigits(s).Some?
    else |s| > 1 && DigitsOrNothing(s[..i]) && DigitsOrNothing(s[i + 1..])
  }

  /** True iff float(text) does not raise. */
  predicate PyFloatAccepts(text: string) {
    var s := Lower(Unsigned(Strip(text)));
    s == "inf" || s == "infinity" || s == "nan" || FloatShape(s)
  }

  lemma {:induction false} ReadDigitsShowNat(n: nat)
    ensures ReadDigits(ShowNat(n)) == Some(n)
  {
    if n >= 10 {
      ReadDigitsShowNat(n / 10);
      var s := ShowNat(n);
      assert s[..|s| - 1] == ShowNat(n / 10);
    }
  }

  lemma ShowIntShape(i: int)
    ensures Strip(ShowInt(i)) == ShowInt(i)
    ensures Unsigned(ShowInt(i)) == ShowNat(if i < 0 then -i else i)
    ensures IsSign(ShowInt(i)[0]) <==> i < 0
  {
    var s := ShowInt(i);
    assert i < 0 ==> s[1..] == ShowNat(-i);
    assert IsDigit(s[|s| - 1]) by {
      var digits := ShowNat(if i < 0 then -i else i);
      assert s[|s| - 1] == digits[|digits| - 1];
    }
    StripSpec(s);
  }

  /** str and int are inverse on ints: the checkpoint text of an int column loses nothing. */
  lemma IntTextRoundTrip(i: int)
    ensures PyInt(ShowInt(i)) == Some(i)
  {
    ShowIntShape(i);
    ReadDigitsShowNat(if i < 0 then -i else i);
  }

  /** The text of an int is a number to float(), so it is put into a query without quotes. */
  lemma IntTextIsFloat(i: int)
    ensures PyFloatAccepts(ShowInt(i))
  {
    ShowIntShape(i);
    var digits := ShowNat(if i < 0 then -i else i);
    ReadDigitsShowNat(if i < 0 then -i else i);
    LowerDigits(digits);
    NoChar(digits, 'e');
    NoChar(digits, '.');
  }

  lemma NoChar(s: string, c: char)
    requires AllDigits(s) && !IsDigit(c)
    ensures IndexOf(s, c) == |s|
  {
  }

  lemma LowerDigits(s: string)
    requires AllDigits(s)
    ensures Lower(s) == s
  {
  }

  lemma {:induction false} ReadDigitsChars(s: string, c: char)
    requires ReadDigits(s).Some? && !IsDigit(c) && c != '_'
    ensures c !in s
  {
    if |s| > 1 {
      var front := s[..|s| - 1];
      var high := if front[|front| - 1] == '_' then front[..|front| - 1] else front;
      ReadDigitsChars(high, c);
      assert s == front + [s[|s| - 1]];
      assert front == high || front == high + ['_'];
    }
  }

  lemma LowerKeeps(s: string, c: char)
    requires !('a' <= c <= 'z') && !('A' <= c <= 'Z')
    ensures c in Lower(s) <==> c in s
  {
    forall k | 0 <= k < |s| ensures Lower(s)[k] == c <==> s[k] == c {}
  }

  lemma UnsignedKeeps(s: string, c: char)
    requires !IsSign(c)
    ensures c in Unsigned(s) <==> c in s
  {
  }

  /** No text with a colon in it is a float: timestamps always take the quoted branch. */
  lemma ColonIsNotFloat(text: string)
    requires ':' in Strip(text)
    ensures !PyFloatAccepts(text)
  {
    var u := Unsigned(Strip(text));
    UnsignedKeeps(Strip(text), ':');
    LowerKeeps(u, ':');
    if FloatShape(Lower(u)) { FloatShapeChars(Lower(u)); }
  }

  predicate FloatShape(s: string) {
    var e := IndexOf(s, 'e');
    if e == |s| then IsMantissa(s)
    else IsMantissa(s[..e]) && ReadDigits(Unsigned(s[e + 1..])).Some?
  }

  lemma FloatShapeChars(s: string)
    requires FloatShape(s)
    ensures ':' !in s
  {
    var e := IndexOf(s, 'e');
    if e == |s| {
      MantissaChars(s);
    } else {
      var m, x := s[..e], s[e + 1..];
      MantissaChars(m);
      ReadDigitsChars(Unsigned(x), ':');
      UnsignedKeeps(x, ':');
      JoinKeeps(s, e, ':');
    }
  }

  lemma JoinKeeps(s: string, e: nat, c: char)
    requires e < |s|
    requires s[e] != c && c !in s[..e] && c !in s[e + 1..]
    ensures c !in s
  {
  }

  lemma MantissaChars(s: string)
    requires IsMantissa(s)
    ensures ':' !in s
  {
    var i := IndexOf(s, '.');
    if i == |s| {
      ReadDigitsChars(s, ':');
    } else {
      if s[..i] != "" { ReadDigitsChars(s[..i], ':'); }
      if s[i + 1..] != "" { ReadDigitsChars(s[i + 1..], ':'); }
      JoinKeeps(s, i, ':');
    }
  }

  // ---------------------------------------------------------------- what is no number

  /** A text with a character in it that no number has is not an int. */
  lemma NotAnInt(text: string, c: char)
    requires c in Strip(text) && !IsDigit(c) && !IsSign(c) && c != '_'
    ensures PyInt(text) == None
  {
    var s := Strip(text);
    assert s == [s[0]] + s[1..];
    if ReadDigits(s).Some? { ReadDigitsChars(s, c); }
    if s != "" && IsSign(s[0]) && ReadDigits(s[1..]).Some? { ReadDigitsChars(s[1..], c); }
  }

  lemma KnownNumbers()
    ensures ShowInt(0) == "0" && ShowInt(-12) == "-12" && ShowInt(345) == "345"
  {
    assert ShowNat(12) == ShowNat(1) + "2";
    assert ShowNat(345) == ShowNat(34) + "5" && ShowNat(34) == ShowNat(3) + "4";
  }

  lemma PlusSign(n: nat)
    ensures PyInt("+" + ShowNat(n)) == Some(n) && PyInt("") == None
  {
    var s, digits := "+" + ShowNat(n), ShowNat(n);
    assert s[1..] == digits && s[|s| - 1] == digits[|digits| - 1];
    hide ShowNat;
    StripSpec(s);
    ReadDigitsShowNat(n);
  }
}
