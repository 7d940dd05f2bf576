/**
 Python datetimes: fields, the calendar behind them, the text str() gives and the text's reader.
 A zone is either absent (a naive datetime) or a fixed offset in minutes.
 */
module Timestamps {
  import opened Wrappers
  import opened Text

  datatype Timestamp = Timestamp(year: nat, month: nat, day: nat,
                                 hour: nat, minute: nat, second: nat, micro: nat,
                                 zone: Option<int>)

  predicate IsLeap(y: nat) { y % 4 == 0 && (y % 100 != 0 || y % 400 == 0) }

  function DaysInMonth(y: nat, m: nat): (d: nat)
    requires 1 <= m <= 12
    ensures 28 <= d <= 31
  {
    if m == 2 then (if IsLeap(y) then 29 else 28)
    else if m == 4 || m == 6 || m == 9 || m == 11 then 30 else 31
  }

  predicate ValidZone(z: Option<int>) { z.Some? ==> -1440 < z.value < 1440 }

  predicate Valid(t: Timestamp) {
    1 <= t.year <= 9999 && 1 <= t.month <= 12 && 1 <= t.day <= DaysInMonth(t.year, t.month) &&
    t.hour < 24 && t.minute < 60 && t.second < 60 && t.micro < 1000000 && ValidZone(t.zone)
  }

  // ---------------------------------------------------------------- time

  /** Days before 1 January of year y, counted from 0001-01-01. */
  function DaysBeforeYear(y: nat): int
    requires y >= 1
  {
    365 * (y - 1) + (y - 1) / 4 - (y - 1) / 100 + (y - 1) / 400
  }

  function DaysBeforeMonth(y: nat, m: nat): nat
    requires 1 <= m <= 13
  {
    if m == 1 then 0 else DaysBeforeMonth(y, m - 1) + DaysInMonth(y, m - 1)
  }

  /** Days since Monday 0001-01-01 in the proleptic Gregorian calendar. */
  function DayNumber(y: nat, m: nat, d: nat): int
    requires y >= 1 && 1 <= m <= 12
  {
    DaysBeforeYear(y) + DaysBeforeMonth(y, m) + d - 1
  }

  function MicrosOfDay(t: Timestamp): int {
    ((t.hour * 60 + t.minute) * 60 + t.second) * 1000000 + t.micro
  }

  const MICROS_PER_DAY := 86400000000
  const MICROS_PER_MINUTE := 60000000

  /** Microseconds since 0001-01-01; a zone's offset is taken off, a naive time is used as it is. */
  function Instant(t: Timestamp): int
    requires Valid(t)
  {
    DayNumber(t.year, t.month, t.day) * MICROS_PER_DAY + MicrosOfDay(t)
    - (if t.zone.Some? then t.zone.value * MICROS_PER_MINUTE else 0)
  }

  /** The order of the fields, most significant first. */
  predicate FieldsBefore(t: Timestamp, u: Timestamp) {
    t.year < u.year || (t.year == u.year && (
      t.month < u.month || (t.month == u.month && (
        t.day < u.day || (t.day == u.day && MicrosOfDay(t) < MicrosOfDay(u))))))
  }

  lemma {:induction false} DaysBeforeMonthMonotone(y: nat, m: nat, n: nat)
    requires 1 <= m <= n <= 13
    ensures DaysBeforeMonth(y, m) <= DaysBeforeMonth(y, n)
  {
    if m < n { DaysBeforeMonthMonotone(y, m, n - 1); }
  }

  lemma Quotient4(y: nat)
    requires y >= 1
    ensures y / 4 == (y - 1) / 4 + (if y % 4 == 0 then 1 else 0)
  {
  }

  lemma Quotient100(y: nat)
    requires y >= 1
    ensures y / 100 == (y - 1) / 100 + (if y % 100 == 0 then 1 else 0)
  {
  }

  lemma Quotient400(y: nat)
    requires y >= 1
    ensures y / 400 == (y - 1) / 400 + (if y % 400 == 0 then 1 else 0)
  {
  }

  lemma Divisors(y: nat)
    ensures y % 100 == 0 ==> y % 4 == 0
    ensures y % 400 == 0 ==> y % 100 == 0
  {
    if y % 100 == 0 {
      assert y == 4 * (25 * (y / 100));
    }
    if y % 400 == 0 {
      assert y == 100 * (4 * (y / 400));
    }
  }

  lemma YearLength(y: nat)
    requires y >= 1
    ensures DaysBeforeYear(y + 1) == DaysBeforeYear(y) + (if IsLeap(y) then 366 else 365)
  {
    Quotient4(y);
    Quotient100(y);
    Quotient400(y);
    Divisors(y);
  }

  lemma YearTotal(y: nat)
    ensures DaysBeforeMonth(y, 13) == if IsLeap(y) then 366 else 365
  {
    assert DaysBeforeMonth(y, 2) == 31;
    assert DaysBeforeMonth(y, 4) == DaysBeforeMonth(y, 3) + 31;
    assert DaysBeforeMonth(y, 6) == DaysBeforeMonth(y, 4) + 61;
    assert DaysBeforeMonth(y, 8) == DaysBeforeMonth(y, 6) + 61;
    assert DaysBeforeMonth(y, 10) == DaysBeforeMonth(y, 8) + 61;
    assert DaysBeforeMonth(y, 12) == DaysBeforeMonth(y, 10) + 61;
  }

  lemma {:induction false} DaysBeforeYearMonotone(x: nat, y: nat)
    requires 1 <= x <= y
    ensures DaysBeforeYear(x) <= DaysBeforeYear(y)
  {
  }

  /** A day number stays inside its own month, so later dates have larger day numbers. */
  lemma DayNumberOrder(t: Timestamp, u: Timestamp)
    requires Valid(t) && Valid(u)
    requires t.year < u.year || (t.year == u.year && (t.month < u.month || (t.month == u.month && t.day < u.day)))
    ensures DayNumber(t.year, t.month, t.day) < DayNumber(u.year, u.month, u.day)
  {
    if t.year < u.year {
      DaysBeforeMonthMonotone(t.year, t.month + 1, 13);
      YearTotal(t.year);
      YearLength(t.year);
      DaysBeforeYearMonotone(t.year + 1, u.year);
    } else if t.month < u.month {
      DaysBeforeMonthMonotone(t.year, t.month + 1, u.month);
    }
  }

  lemma MicrosOfDayBound(t: Timestamp)
    requires Valid(t)
    ensures 0 <= MicrosOfDay(t) < MICROS_PER_DAY
  {
  }

  /** Within one zone, time order is the order of the fields. */
  lemma InstantOrder(t: Timestamp, u: Timestamp)
    requires Valid(t) && Valid(u) && t.zone == u.zone
    ensures Instant(t) < Instant(u) <==> FieldsBefore(t, u)
  {
    MicrosOfDayBound(t);
    MicrosOfDayBound(u);
    if (t.year, t.month, t.day) != (u.year, u.month, u.day) {
      if t.year < u.year || (t.year == u.year && (t.month < u.month || (t.month == u.month && t.day < u.day))) {
        DayNumberOrder(t, u);
      } else {
        DayNumberOrder(u, t);
      }
    }
  }

  // ---------------------------------------------------------------- text

  function Abs(i: int): nat { if i < 0 then -i else i }

  function ShowZone(z: Option<int>): string
    requires ValidZone(z)
  {
    if z.None? then ""
    else (if z.value < 0 then "-" else "+") + Digits(Abs(z.value) / 60, 2) + ":" + Digits(Abs(z.value) % 60, 2)
  }

  function ShowFraction(micro: nat): string {
    if micro == 0 then "" else "." + Digits(micro, 6)
  }

  /** str() of a datetime: the fraction is left out when it is zero. */
  function Show(t: Timestamp): string
    requires ValidZone(t.zone)
  {
    ShowFrom(t, 0)
  }

  /** The text of a datetime from its k-th field on. */
  function ShowFrom(t: Timestamp, k: nat): string
    requires ValidZone(t.zone) && k <= 6
    decreases 6 - k
  {
    match k
    case 0 => Digits(t.year, 4) + ("-" + ShowFrom(t, 1))
    case 1 => Digits(t.month, 2) + ("-" + ShowFrom(t, 2))
    case 2 => Digits(t.day, 2) + (" " + ShowFrom(t, 3))
    case 3 => Digits(t.hour, 2) + (":" + ShowFrom(t, 4))
    case 4 => Digits(t.minute, 2) + (":" + ShowFrom(t, 5))
    case 5 => Digits(t.second, 2) + ShowFrom(t, 6)
    case _ => ShowFraction(t.micro) + ShowZone(t.zone)
  }

  /** The order of the fields from the k-th on. */
  predicate FieldsBeforeFrom(t: Timestamp, u: Timestamp, k: nat)
    requires k <= 6
    decreases 6 - k
  {
    match k
    case 0 => t.year < u.year || (t.year == u.year && FieldsBeforeFrom(t, u, 1))
    case 1 => t.month < u.month || (t.month == u.month && FieldsBeforeFrom(t, u, 2))
    case 2 => t.day < u.day || (t.day == u.day && FieldsBeforeFrom(t, u, 3))
    case 3 => t.hour < u.hour || (t.hour == u.hour && FieldsBeforeFrom(t, u, 4))
    case 4 => t.minute < u.minute || (t.minute == u.minute && FieldsBeforeFrom(t, u, 5))
    case 5 => t.second < u.second || (t.second == u.second && FieldsBeforeFrom(t, u, 6))
    case _ => t.micro < u.micro
  }

  lemma FieldsBeforeUnrolled(t: Timestamp, u: Timestamp)
    requires Valid(t) && Valid(u)
    ensures FieldsBeforeFrom(t, u, 0) <==> FieldsBefore(t, u)
  {
  }

  lemma Powers()
    ensures Pow10(2) == 100 && Pow10(4) == 10000 && Pow10(6) == 1000000
  {
  }

  lemma ShowZoneHead(z: Option<int>)
    requires ValidZone(z)
    ensures ShowZone(z) == "" || ShowZone(z)[0] == '-' || ShowZone(z)[0] == '+'
  {
  }

  /** An absent fraction sorts first: every zone sign, like the end of the text, is below the point. */
  lemma AbsentFractionFirst(z: Option<int>, digits: string)
    requires ValidZone(z)
    ensures LexLess(ShowZone(z), "." + digits)
    ensures !LexLess("." + digits, ShowZone(z))
  {
  }

  lemma FractionOrder(t: Timestamp, u: Timestamp)
    requires Valid(t) && Valid(u) && t.zone == u.zone
    ensures LexLess(ShowFrom(t, 6), ShowFrom(u, 6)) <==> t.micro < u.micro
  {
    var z := ShowZone(t.zone);
    var a, b := Digits(t.micro, 6) + z, Digits(u.micro, 6) + z;
    LexIrreflexive(z);
    FractionText(t);
    FractionText(u);
    if t.micro == 0 {
      AbsentFractionFirst(t.zone, b);
    } else if u.micro == 0 {
      AbsentFractionFirst(t.zone, a);
    } else {
      Powers();
      DigitsOrder(t.micro, u.micro, 6, z, z);
      LexPrefix(".", a, b);
    }
  }

  lemma FractionText(t: Timestamp)
    requires Valid(t)
    ensures t.micro == 0 ==> ShowFrom(t, 6) == ShowZone(t.zone)
    ensures t.micro != 0 ==> ShowFrom(t, 6) == "." + (Digits(t.micro, 6) + ShowZone(t.zone))
  {
  }

  lemma FieldOrder(a: nat, b: nat, w: nat, sep: string, x: string, y: string)
    requires a < Pow10(w) && b < Pow10(w)
    ensures LexLess(Digits(a, w) + (sep + x), Digits(b, w) + (sep + y)) <==> a < b || (a == b && LexLess(x, y))
  {
    DigitsOrder(a, b, w, sep + x, sep + y);
    LexPrefix(sep, x, y);
  }

  lemma ShowOrderFrom(t: Timestamp, u: Timestamp, k: nat)
    requires Valid(t) && Valid(u) && t.zone == u.zone && k <= 6
    ensures LexLess(ShowFrom(t, k), ShowFrom(u, k)) <==> FieldsBeforeFrom(t, u, k)
    decreases 6 - k
  {
    Powers();
    if k == 6 {
      FractionOrder(t, u);
    } else {
      ShowOrderFrom(t, u, k + 1);
      match k
      case 0 => FieldOrder(t.year, u.year, 4, "-", ShowFrom(t, 1), ShowFrom(u, 1));
      case 1 => FieldOrder(t.month, u.month, 2, "-", ShowFrom(t, 2), ShowFrom(u, 2));
      case 2 => FieldOrder(t.day, u.day, 2, " ", ShowFrom(t, 3), ShowFrom(u, 3));
      case 3 => FieldOrder(t.hour, u.hour, 2, ":", ShowFrom(t, 4), ShowFrom(u, 4));
      case 4 => FieldOrder(t.minute, u.minute, 2, ":", ShowFrom(t, 5), ShowFrom(u, 5));
      case _ => DigitsOrder(t.second, u.second, 2, ShowFrom(t, 6), ShowFrom(u, 6));
    }
  }

  /** The text order of two datetimes of one zone is their order in time. */
  lemma TextOrderIsTimeOrder(t: Timestamp, u: Timestamp)
    requires Valid(t) && Valid(u) && t.zone == u.zone
    ensures LexLess(Show(t), Show(u)) <==> Instant(t) < Instant(u)
  {
    ShowOrderFrom(t, u, 0);
    FieldsBeforeUnrolled(t, u);
    InstantOrder(t, u);
  }

  // ---------------------------------------------------------------- reading the text back

  /** A number of fixed width followed by a separator; the rest of the text comes with it. */
  function ReadField(s: string, w: nat, sep: string): Option<(nat, string)> {
    if |s| >= w + |sep| && AllDigits(s[..w]) && s[w..w + |sep|] == sep
    then Some((DigitsValue(s[..w]), s[w + |sep|..]))
    else None
  }

  function ReadZone(s: string): Option<Option<int>> {
    if s == "" then Some(None)
    else if !IsSign(s[0]) then None
    else
      var (hours, rest) :- ReadField(s[1..], 2, ":");
      var (minutes, end) :- ReadField(rest, 2, "");
      var offset := hours * 60 + minutes;
      if end != "" then None else Some(Some(if s[0] == '-' then -(offset as int) else offset))
  }

  function ReadFraction(s: string): Option<(nat, string)> {
    if s != "" && s[0] == '.' then ReadField(s[1..], 6, "") else Some((0, s))
  }

  /** The canonical part of datetime.fromisoformat, which is also what a database reads. */
  function Read(text: string): (r: Option<Timestamp>)
    ensures r.Some? ==> Valid(r.value)
  {
    var (year, s1) :- ReadField(text, 4, "-");
    var (month, s2) :- ReadField(s1, 2, "-");
    var (day, s3) :- ReadField(s2, 2, " ");
    var (hour, s4) :- ReadField(s3, 2, ":");
    var (minute, s5) :- ReadField(s4, 2, ":");
    var (second, s6) :- ReadField(s5, 2, "");
    var (micro, s7) :- ReadFraction(s6);
    var zone :- ReadZone(s7);
    var t := Timestamp(year, month, day, hour, minute, second, micro, zone);
    if Valid(t) then Some(t) else None
  }

  lemma FieldRoundTrip(n: nat, w: nat, sep: string, rest: string)
    requires n < Pow10(w)
    ensures ReadField(Digits(n, w) + (sep + rest), w, sep) == Some((n, rest))
  {
    DigitsValueRoundTrip(n, w);
    var s := Digits(n, w) + (sep + rest);
    assert s[..w] == Digits(n, w);
    assert s[w..w + |sep|] == sep;
    assert s[w + |sep|..] == rest;
  }

  lemma ZoneRoundTrip(z: Option<int>)
    requires ValidZone(z)
    ensures ReadZone(ShowZone(z)) == Some(z)
  {
    if z.Some? {
      Powers();
      var h, m := Abs(z.value) / 60, Abs(z.value) % 60;
      var tail := Digits(m, 2);
      FieldRoundTrip(m, 2, "", "");
      assert Digits(m, 2) + ("" + "") == tail;
      FieldRoundTrip(h, 2, ":", tail);
      hide Digits, ReadField;
      assert ShowZone(z)[1..] == Digits(h, 2) + (":" + tail);
    }
  }

  lemma FractionRoundTrip(t: Timestamp)
    requires Valid(t)
    ensures ReadFraction(ShowFrom(t, 6)) == Some((t.micro, ShowZone(t.zone)))
  {
    FractionText(t);
    ShowZoneHead(t.zone);
    if t.micro != 0 {
      Powers();
      FieldRoundTrip(t.micro, 6, "", ShowZone(t.zone));
      assert ShowFrom(t, 6)[1..] == Digits(t.micro, 6) + ("" + ShowZone(t.zone));
    }
  }

  /** Reading the text of a datetime gives the datetime back. */
  lemma ReadShow(t: Timestamp)
    requires Valid(t)
    ensures Read(Show(t)) == Some(t)
  {
    Powers();
    FieldRoundTrip(t.year, 4, "-", ShowFrom(t, 1));
    FieldRoundTrip(t.month, 2, "-", ShowFrom(t, 2));
    FieldRoundTrip(t.day, 2, " ", ShowFrom(t, 3));
    FieldRoundTrip(t.hour, 2, ":", ShowFrom(t, 4));
    FieldRoundTrip(t.minute, 2, ":", ShowFrom(t, 5));
    FieldRoundTrip(t.second, 2, "", ShowFrom(t, 6));
    assert "" + ShowFrom(t, 6) == ShowFrom(t, 6);
    FractionRoundTrip(t);
    ZoneRoundTrip(t.zone);
  }

  /** The text has a colon in it and no blanks at its ends. */
  lemma ShowShape(t: Timestamp)
    requires Valid(t)
    ensures Strip(Show(t)) == Show(t)
    ensures ':' in Show(t)
  {
    hide ShowFrom, Strip;
    ShowFromEnd(t, 0);
    ShowHead(t);
    MinuteColon(t);
    StripSpec(Show(t));
  }

  lemma ShowHead(t: Timestamp)
    requires Valid(t)
    ensures Show(t) != "" && IsDigit(Show(t)[0])
  {
    assert Show(t)[0] == Digits(t.year, 4)[0];
  }

  predicate EndsInDigit(s: string) { s != "" && IsDigit(s[|s| - 1]) }

  lemma EndOfJoin(a: string, b: string)
    requires EndsInDigit(b)
    ensures EndsInDigit(a + b)
  {
  }

  lemma ShowTail(t: Timestamp)
    requires Valid(t)
    ensures ShowFrom(t, 6) == "" || EndsInDigit(ShowFrom(t, 6))
  {
  }

  lemma ShowFromEnd(t: Timestamp, k: nat)
    requires Valid(t) && k <= 5
    ensures EndsInDigit(ShowFrom(t, k))
    decreases 5 - k
  {
    if k == 5 {
      ShowTail(t);
      SecondEnd(t);
    } else {
      ShowFromEnd(t, k + 1);
      hide EndsInDigit, Digits;
      var sep := if k < 2 then "-" else if k == 2 then " " else ":";
      EndOfJoin(sep, ShowFrom(t, k + 1));
      var n, w := FieldText(t, k);
      EndOfJoin(Digits(n, w), sep + ShowFrom(t, k + 1));
    }
  }

  lemma FieldText(t: Timestamp, k: nat) returns (n: nat, w: nat)
    requires Valid(t) && k <= 4
    ensures ShowFrom(t, k) == Digits(n, w) + ((if k < 2 then "-" else if k == 2 then " " else ":") + ShowFrom(t, k + 1))
  {
    n := if k == 0 then t.year
         else if k == 1 then t.month
         else if k == 2 then t.day
         else if k == 3 then t.hour
         else t.minute;
    w := if k == 0 then 4 else 2;
  }

  lemma MinuteColon(t: Timestamp)
    requires Valid(t)
    ensures ':' in Show(t)
  {
  }

  lemma SecondEnd(t: Timestamp)
    requires Valid(t) && (ShowFrom(t, 6) == "" || EndsInDigit(ShowFrom(t, 6)))
    ensures EndsInDigit(ShowFrom(t, 5))
  {
  }

  // ---------------------------------------------------------------- dates

  /** Midnight without a zone: how the parser gives back a date. */
  predicate IsDay(t: Timestamp) {
    t.hour == 0 && t.minute == 0 && t.second == 0 && t.micro == 0 && t.zone.None?
  }

  /** str() of a date. */
  function ShowDate(t: Timestamp): string {
    Digits(t.year, 4) + ("-" + (Digits(t.month, 2) + ("-" + Digits(t.day, 2))))
  }

  function ReadDate(text: string): (r: Option<Timestamp>)
    ensures r.Some? ==> Valid(r.value) && IsDay(r.value)
  {
    var (year, s1) :- ReadField(text, 4, "-");
    var (month, s2) :- ReadField(s1, 2, "-");
    var (day, s3) :- ReadField(s2, 2, "");
    var t := Timestamp(year, month, day, 0, 0, 0, 0, None);
    if s3 == "" && Valid(t) then Some(t) else None
  }

  lemma DateFields(t: Timestamp, x: string)
    ensures ShowDate(t) + x == Digits(t.year, 4) + ("-" + (Digits(t.month, 2) + ("-" + (Digits(t.day, 2) + x))))
  {
  }

  /** The order of two dates decides the order of the texts that start with them. */
  lemma DateOrder(t: Timestamp, u: Timestamp, x: string, y: string)
    requires Valid(t) && Valid(u) && IsDay(t) && IsDay(u)
    ensures LexLess(ShowDate(t) + x, ShowDate(u) + y) <==> Instant(t) < Instant(u) || (t == u && LexLess(x, y))
  {
    Powers();
    DateFields(t, x);
    DateFields(u, y);
    InstantOrder(t, u);
    var t2, u2 := Digits(t.day, 2) + x, Digits(u.day, 2) + y;
    DigitsOrder(t.day, u.day, 2, x, y);
    FieldOrder(t.month, u.month, 2, "-", t2, u2);
    FieldOrder(t.year, u.year, 4, "-", Digits(t.month, 2) + ("-" + t2), Digits(u.month, 2) + ("-" + u2));
  }

  lemma Zeros()
    ensures Digits(0, 2) == "00"
  {
  }

  /** A date read back as a datetime is longer by its midnight. */
  lemma MidnightText(t: Timestamp)
    requires Valid(t) && IsDay(t)
    ensures Show(t) == ShowDate(t) + " 00:00:00"
  {
    MidnightTail(t);
    DayHead(t);
    hide *;
  }

  lemma MidnightTail(t: Timestamp)
    requires Valid(t) && IsDay(t)
    ensures " " + ShowFrom(t, 3) == " 00:00:00"
  {
    Zeros();
    hide Digits;
    assert ShowFrom(t, 6) == "";
    assert ShowFrom(t, 5) == "00";
    assert ShowFrom(t, 4) == "00:00";
    assert ShowFrom(t, 3) == "00:00:00";
  }

  lemma DayHead(t: Timestamp)
    requires Valid(t)
    ensures Show(t) == ShowDate(t) + (" " + ShowFrom(t, 3))
  {
    DateFields(t, " " + ShowFrom(t, 3));
    hide Digits, ShowDate;
  }

  /** Reading the text of a date gives the date back, and a datetime's text is not taken for a date. */
  lemma ReadDateShow(t: Timestamp)
    requires Valid(t) && IsDay(t)
    ensures ReadDate(ShowDate(t)) == Some(t) && ShowDate(t) != ""
  {
    Powers();
    var rest := Digits(t.month, 2) + ("-" + Digits(t.day, 2));
    FieldRoundTrip(t.year, 4, "-", rest);
    FieldRoundTrip(t.month, 2, "-", Digits(t.day, 2));
    FieldRoundTrip(t.day, 2, "", "");
    assert Digits(t.day, 2) + ("" + "") == Digits(t.day, 2);
  }

  lemma DateLength(t: Timestamp)
    requires Valid(t)
    ensures |ShowDate(t)| == 10 && |Show(t)| >= 19
  {
    Powers();
    assert |ShowFrom(t, 5)| >= 2 && |ShowFrom(t, 3)| >= 8;
  }

  /** Texts of dates and texts of datetimes are read apart. */
  lemma ReadApart(t: Timestamp)
    requires Valid(t)
    ensures ReadDate(Show(t)) == None && Read(ShowDate(t)) == None
  {
    DateLength(t);
    DatesAreShort(Show(t));
    DatetimesAreLong(ShowDate(t));
  }

  lemma DatesAreShort(s: string)
    ensures ReadDate(s).Some? ==> |s| == 10
  {
  }

  lemma DatetimesAreLong(s: string)
    ensures Read(s).Some? ==> |s| >= 19
  {
    hide AllDigits, DigitsValue, Valid;
  }

  // ---------------------------------------------------------------- what the texts are made of

  predicate InTimeText(c: char) { IsDigit(c) || c == '-' || c == '+' || c == ':' || c == '.' || c == ' ' }

  predicate TimeText(s: string) { forall i :: 0 <= i < |s| ==> InTimeText(s[i]) }

  lemma TimeJoin(a: string, b: string)
    ensures TimeText(a) && TimeText(b) ==> TimeText(a + b)
  {
  }

  lemma TimeTail(t: Timestamp)
    requires Valid(t)
    ensures TimeText(ShowFrom(t, 6)) && TimeText(ShowFrom(t, 5))
  {
    var fraction, zone := ShowFraction(t.micro), ShowZone(t.zone);
    assert TimeText(fraction) && TimeText(zone);
    TimeJoin(fraction, zone);
    TimeJoin(Digits(t.second, 2), ShowFrom(t, 6));
  }

  /** Nothing but digits, signs, colons, points and blanks. */
  lemma ShowChars(t: Timestamp, k: nat)
    requires Valid(t) && k <= 5
    ensures TimeText(ShowFrom(t, k))
    decreases 5 - k
  {
    if k == 5 {
      TimeTail(t);
    } else {
      ShowChars(t, k + 1);
      var n, w := FieldText(t, k);
      var sep := if k < 2 then "-" else if k == 2 then " " else ":";
      assert TimeText(Digits(n, w)) && TimeText(sep);
      hide Digits, ShowFrom, TimeText;
      TimeJoin(sep, ShowFrom(t, k + 1));
      TimeJoin(Digits(n, w), sep + ShowFrom(t, k + 1));
    }
  }

  lemma ShowDateChars(t: Timestamp)
    ensures TimeText(ShowDate(t))
  {
  }

  // ---------------------------------------------------------------- known dates and texts

  lemma KnownMonths(y: nat)
    ensures DaysBeforeMonth(y, 2) == 31 && DaysBeforeMonth(y, 3) == (if IsLeap(y) then 60 else 59)
  {
    assert DaysBeforeMonth(y, 1) == 0;
  }

  /** The calendar has leap years as the Gregorian one, and its days start on a Monday. */
  lemma KnownDates()
    ensures IsLeap(2000) && IsLeap(2024) && !IsLeap(1900) && !IsLeap(2023)
    ensures DayNumber(1, 1, 1) == 0 && DayNumber(2024, 1, 1) == 738885 && 738885 % 7 == 0
    ensures DayNumber(2024, 3, 1) == 738945 && DayNumber(2023, 3, 1) == 738579
  {
    KnownMonths(2024);
    KnownMonths(2023);
    assert DaysBeforeYear(2024) == 738885 && DaysBeforeYear(2023) == 738520;
  }

  /** A day has so many microseconds, and a zone is taken off. */
  lemma KnownInstants(t: Timestamp)
    requires Valid(t)
    ensures Instant(Timestamp(2024, 1, 1, 0, 0, 1, 0, None)) == 738885 * 24 * 3600 * 1000000 + 1000000
    ensures Instant(t) == Instant(t.(zone := None)) - (if t.zone.Some? then t.zone.value * 60 * 1000000 else 0)
  {
    KnownDates();
  }

  lemma KnownDigits()
    ensures Digits(2024, 4) == "2024" && Digits(1, 2) == "01" && Digits(5, 2) == "05" && Digits(10, 2) == "10"
    ensures Digits(30, 2) == "30" && Digits(0, 2) == "00" && Digits(2, 2) == "02" && Digits(250000, 6) == "250000"
  {
    assert Digits(2, 1) == "2" && Digits(20, 2) == "20" && Digits(202, 3) == "202";
    assert Digits(25, 2) == "25" && Digits(250, 3) == "250" && Digits(2500, 4) == "2500" && Digits(25000, 5) == "25000";
    assert Digits(0, 1) == "0" && Digits(1, 1) == "1" && Digits(3, 1) == "3";
  }

  /** How Python writes a date, a time of day, and a fraction with a zone. */
  lemma KnownDate(t: Timestamp)
    requires Valid(t) && t.year == 2024 && t.month == 1 && t.day == 5
    ensures ShowDate(t) == "2024-01-05"
  {
    KnownDigits();
    hide Digits;
  }

  lemma KnownTime(t: Timestamp)
    requires Valid(t) && t.hour == 10 && t.minute == 30 && t.second == 5
    ensures ShowFrom(t, 3) == "10:30:05" + ShowFrom(t, 6)
  {
    KnownDigits();
    hide Digits;
    var tail := ShowFrom(t, 6);
    assert ShowFrom(t, 5) == "05" + tail;
    assert ShowFrom(t, 4) == "30:05" + tail;
  }

  lemma KnownFraction(t: Timestamp)
    requires Valid(t) && t.micro == 250000 && t.zone == Some(-120)
    ensures ShowFrom(t, 6) == ".250000-02:00"
  {
    KnownDigits();
    hide Digits;
    assert ShowZone(t.zone) == "-02:00";
  }
}
