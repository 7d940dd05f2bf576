/** Inputs on which the incremental protocol falls short, at the level of whole runs. */
module Limits {
  import opened Wrappers
  import opened Text
  import opened Values
  import opened SqlText
  import opened Paging
  import opened TableRun
  import opened History
  import opened Exactness

  // ---------------------------------------------------------------- integer types that are not listed

  const R99 := Row(1, IntV(99))
  const R100 := Row(2, IntV(100))

  /** A table in step, with one new row. */
  function NinetyNine(): TableState { TableState([R99, R100], [R99], Some("99")) }

  lemma NumberTexts()
    ensures ShowInt(99) == "99" && ShowInt(100)[0] == '1'
    ensures !LexLess("99", ShowInt(100)) && PyInt("99") == Some(99)
  {
    assert ShowNat(99) == ShowNat(9) + "9";
    assert ShowNat(100) == ShowNat(10) + "0" == ShowNat(1) + "0" + "0";
    IntTextRoundTrip(99);
  }

  lemma NinetyNineSynced(cfg: TableConfig)
    requires cfg.column.kind.IntKind?
    ensures Synced(NinetyNine(), cfg, {}) && StoredKey(NinetyNine(), cfg.column.kind) == 99
  {
    NumberTexts();
    var t := NinetyNine();
    assert t.source[0] == R99 && t.source[1] == R100;
    forall r ensures multiset(t.target)[r] == if r in t.source && Settled(t, cfg.column.kind, r) then 1 else 0 {
      assert r in t.source <==> r == R99 || r == R100;
    }
  }

  /**
   On a smallint column, say, the row 100 behind the checkpoint 99 is delivered by every run without faults, whatever
   becomes of its checkpoint write: the checkpoint stays at 99 and the target falls out of step.
   */
  lemma HundredAfterNinetyNine(cfg: TableConfig, s: Script)
    requires cfg.column.kind.IntKind? && !Listed(cfg.column)
    requires s.setup.Ready? && Quiet(ResolveAll(s.events)) && |s.events| * cfg.size > 2
    ensures var u := AfterRun(NinetyNine(), cfg, s);
            u.source == NinetyNine().source && u.stored == Some("99") &&
            R100 in Delivered(NinetyNine(), cfg, s) && !Synced(u, cfg, {})
  {
    var t := NinetyNine();
    NumberTexts();
    NinetyNineSynced(cfg);
    SelectShorter(RunOrder(cfg), BoundOf(t, cfg), t.source);
    QuietRunDrains(t, cfg, s);
    hide CopyOf, BoundOf, Quiet, ResolveAll;
    assert R100 in t.source;
    PassesUnsettled(t, cfg, R100);
    DeliveredRows(t, cfg, s);
    assert forall r :: r in t.source ==> r == R99 || r == R100;
    assert !MovesOn(t, cfg, t.source);
    CheckpointMovesIff(t, cfg, s);
    RunKeepsSyncedIff(t, cfg, s, {});
    assert LateAfter(t, cfg, History.Run(s), {}) == {};
  }

  lemma SelectShorter(o: Order, b: Bound, rows: seq<Row>)
    requires DistinctKeys(rows)
    ensures |Select(o, b, rows)| <= |rows|
  {
    SelectSpec(o, b, rows);
    SameLength(Select(o, b, rows), Filter(rows, b));
    FilterShorter(rows, b);
  }

  lemma {:induction false} FilterShorter(rows: seq<Row>, b: Bound)
    ensures |Filter(rows, b)| <= |rows|
    decreases |rows|
  {
    if rows != [] { FilterShorter(rows[1..], b); }
  }

  // ---------------------------------------------------------------- NULL values and arrivals during a run

  lemma SelectIs(o: Order, rows: seq<Row>, s: seq<Row>)
    requires DistinctKeys(rows) && Arrangement(o, rows, s)
    ensures Select(o, All, rows) == s
  {
    FilterAll(rows);
    SelectSpec(o, All, rows);
    SortedUnique(o, s, Select(o, All, rows));
  }

  /** A page full of rows without a value. */
  function NullRows(n: nat): (rows: seq<Row>)
    ensures |rows| == n && forall i :: 0 <= i < n ==> rows[i] == Row(i, Null)
  {
    seq(n, i => Row(i, Null))
  }

  /** Rows that arrive after it: one more than a page, with the values 1, 2, and so on. */
  function NewRows(n: nat): (rows: seq<Row>)
    ensures |rows| == n + 1 && forall i :: 0 <= i <= n ==> rows[i] == Row(n + i, IntV(i + 1))
  {
    seq(n + 1, i => Row(n + i, IntV(i + 1)))
  }

  lemma NullRowsArranged(n: nat)
    ensures DistinctKeys(NullRows(n)) && Select(NullsLast, All, NullRows(n)) == NullRows(n)
  {
    SelectIs(NullsLast, NullRows(n), NullRows(n));
  }

  lemma GrownArranged(n: nat)
    ensures DistinctKeys(NullRows(n) + NewRows(n))
    ensures Select(NullsLast, All, NullRows(n) + NewRows(n)) == NewRows(n) + NullRows(n)
  {
    SelectIs(NullsLast, NullRows(n) + NewRows(n), NewRows(n) + NullRows(n));
  }

  /** Four passes without faults; the new rows arrive before the second. */
  function ArrivalScript(n: nat): Script {
    var ok := [true];
    Script(Ready, [RunEvent([], ok, ok), RunEvent(NewRows(n), ok, ok), RunEvent([], ok, ok), RunEvent([], ok, ok)],
           Saved)
  }

  function Clean(arrivals: seq<Row>): PageEvent { PageEvent(arrivals, true, true) }

  function FirstSync(n: nat): PagedQuery
    requires n > 0
  {
    Query(NullsLast, All, n)
  }

  /** The copied rows after the first page, after the second, and at the end. */
  function CopiedBy(n: nat, pages: nat): seq<Row>
    requires n > 0
  {
    if pages == 1 then NullRows(n)
    else if pages == 2 then NullRows(n) + ([NewRows(n)[n]] + NullRows(n)[..n - 1])
    else NullRows(n) + ([NewRows(n)[n]] + NullRows(n)[..n - 1]) + [NullRows(n)[n - 1]]
  }

  /** The passes one by one. */
  lemma WitnessPasses(n: nat)
    requires n > 0
    ensures var q, rows, all := FirstSync(n), NullRows(n), NullRows(n) + NewRows(n);
            NextPage(q, StartCopy(rows), Clean([])) == Copy(rows, CopiedBy(n, 1), n, 1, Fetching) &&
            NextPage(q, Copy(rows, CopiedBy(n, 1), n, 1, Fetching), Clean(NewRows(n)))
            == Copy(all, CopiedBy(n, 2), 2 * n, 2, Fetching) &&
            NextPage(q, Copy(all, CopiedBy(n, 2), 2 * n, 2, Fetching), Clean([]))
            == Copy(all, CopiedBy(n, 3), 3 * n, 3, if n > 1 then Drained else Fetching) &&
            NextPage(q, Copy(all, CopiedBy(n, 3), 3 * n, 3, Fetching), Clean([]))
            == Copy(all, CopiedBy(n, 3), 3 * n, 3, Drained)
  {
    NullRowsArranged(n);
    GrownArranged(n);
    WitnessPages(n);
    hide Select, Page, NullRows, NewRows, NextPage;
    var rows, all, listed := NullRows(n), NullRows(n) + NewRows(n), NewRows(n) + NullRows(n);
    assert rows + [] == rows && all + [] == all && [] + rows == rows;
    var second, third := [NewRows(n)[n]] + NullRows(n)[..n - 1], [NullRows(n)[n - 1]];
    assert CopiedBy(n, 1) == rows && CopiedBy(n, 2) == CopiedBy(n, 1) + second &&
           CopiedBy(n, 3) == CopiedBy(n, 2) + third;
    hide CopiedBy, FirstSync, Clean, StartCopy;
    assert StartCopy(rows) == Copy(rows, [], 0, 0, Fetching) by { StartIs(rows); }
    Pass(n, StartCopy(rows), [], rows, rows);
    Pass(n, Copy(rows, CopiedBy(n, 1), n, 1, Fetching), NewRows(n), listed, second);
    Pass(n, Copy(all, CopiedBy(n, 2), 2 * n, 2, Fetching), [], listed, third);
    Pass(n, Copy(all, CopiedBy(n, 3), 3 * n, 3, Fetching), [], listed, []);
  }

  lemma StartIs(rows: seq<Row>)
    ensures StartCopy(rows) == Copy(rows, [], 0, 0, Fetching)
  {
  }

  /** One pass without faults whose page is known. */
  lemma Pass(n: nat, c: Copy, arrivals: seq<Row>, listed: seq<Row>, page: seq<Row>)
    requires n > 0 && Select(NullsLast, All, c.source + arrivals) == listed && Page(listed, c.offset, n) == page
    ensures NextPage(FirstSync(n), c, Clean(arrivals))
            == if page == [] then c.(source := c.source + arrivals, phase := Drained)
               else Copy(c.source + arrivals, c.copied + page, c.offset + n, c.batches + 1,
                         if |page| < n then Drained else Fetching)
  {
  }

  lemma WitnessPages(n: nat)
    requires n > 0
    ensures var listed := NewRows(n) + NullRows(n);
            Page(NullRows(n), 0, n) == NullRows(n) &&
            Page(listed, n, n) == [NewRows(n)[n]] + NullRows(n)[..n - 1] &&
            Page(listed, 2 * n, n) == [NullRows(n)[n - 1]] && Page(listed, 3 * n, n) == []
    ensures |[NewRows(n)[n]] + NullRows(n)[..n - 1]| == n
  {
  }

  lemma CopyCons(q: PagedQuery, c: Copy, e: PageEvent, rest: seq<PageEvent>, k: Kind)
    requires c.phase.Fetching?
    ensures CopyPages(q, c, [e] + rest) == CopyPages(q, NextPage(q, c, e), rest)
    ensures ArriveAll(q, c, [e] + rest, k)
            <==> RowsFit(c.source + e.arrivals, k) && ArriveAll(q, NextPage(q, c, e), rest, k)
  {
    assert ([e] + rest)[1..] == rest;
  }

  lemma RowsArrive(n: nat)
    ensures RowsFit(NullRows(n) + [], IntKind) && RowsFit(NullRows(n) + NewRows(n), IntKind)
    ensures RowsFit(NullRows(n) + NewRows(n) + [], IntKind)
  {
    NullRowsArranged(n);
    GrownArranged(n);
    hide Select, DistinctKeys;
    assert NullRows(n) + [] == NullRows(n) && NullRows(n) + NewRows(n) + [] == NullRows(n) + NewRows(n);
  }

  /** The run as a whole. */
  lemma WitnessCopy(n: nat)
    requires n > 0
    ensures var events := [Clean([])] + ([Clean(NewRows(n))] + ([Clean([])] + ([Clean([])] + [])));
            var c := CopyPages(FirstSync(n), StartCopy(NullRows(n)), events);
            c.phase.Drained? && c.source == NullRows(n) + NewRows(n) && c.copied == CopiedBy(n, 3) &&
            ArriveAll(FirstSync(n), StartCopy(NullRows(n)), events, IntKind)
  {
    WitnessPasses(n);
    RowsArrive(n);
    hide NextPage, CopyPages, ArriveAll, RowsFit, CopiedBy, NullRows, NewRows;
    var q, e, rows, all := FirstSync(n), Clean([]), NullRows(n), NullRows(n) + NewRows(n);
    CopyCons(q, StartCopy(rows), e, [Clean(NewRows(n))] + ([e] + ([e] + [])), IntKind);
    CopyCons(q, Copy(rows, CopiedBy(n, 1), n, 1, Fetching), Clean(NewRows(n)), [e] + ([e] + []), IntKind);
    CopyCons(q, Copy(all, CopiedBy(n, 2), 2 * n, 2, Fetching), e, [e] + [], IntKind);
    var c := Copy(all, CopiedBy(n, 3), 3 * n, 3, if n > 1 then Drained else Fetching);
    if n == 1 {
      CopyCons(q, c, e, [], IntKind);
      StopsAt(q, c.(phase := Drained), [], IntKind);
    } else {
      StopsAt(q, c, [e] + [], IntKind);
    }
  }

  lemma StopsAt(q: PagedQuery, c: Copy, events: seq<PageEvent>, k: Kind)
    requires !c.phase.Fetching?
    ensures CopyPages(q, c, events) == c && ArriveAll(q, c, events, k)
  {
  }

  /**
   With NULLs sorted last, rows that arrive during a first sync push a page full of them back, for every page size.
   The pages that follow start inside the new rows: the first of these is never copied, and the checkpoint that the
   completed run stores lies above it.
   */
  lemma NullsCanHideARow(cfg: TableConfig)
    requires cfg.column.kind.IntKind? && cfg.dialect.Postgres?
    ensures var n := cfg.size;
            var t, s, m := TableState(NullRows(n), [], None), ArrivalScript(n), NewRows(n)[0];
            var u := AfterRun(t, cfg, s);
            Safe(t, cfg) && RunArrives(t, cfg, s) && Completes(t, cfg, s) && StoredFits(u, IntKind) &&
            m in u.source && m !in u.target && Settled(u, IntKind, m) && !Safe(u, cfg)
  {
    var n := cfg.size;
    var t, s, l := TableState(NullRows(n), [], None), ArrivalScript(n), NewRows(n)[n];
    WitnessRun(cfg);
    CopiedOrNot(n);
    hide CopyOf, NullRows, NewRows, CopiedBy, ArrivalScript, MarkAtEnd, MarkAtStart, BoundOf, RunArrives;
    MarkIsMaximum(t, cfg, s, l);
    SavedMark(t, cfg, s);
  }

  /** What this run does. */
  lemma WitnessRun(cfg: TableConfig)
    requires cfg.column.kind.IntKind? && cfg.dialect.Postgres?
    ensures var n := cfg.size; var t, s := TableState(NullRows(n), [], None), ArrivalScript(n);
            Safe(t, cfg) && RunArrives(t, cfg, s) && CopyOf(t, cfg, s).phase.Drained? &&
            CopyOf(t, cfg, s).source == NullRows(n) + NewRows(n) && CopyOf(t, cfg, s).copied == CopiedBy(n, 3) &&
            MarkAtStart(t, cfg) == NoMark
  {
    var n := cfg.size;
    var t, s := TableState(NullRows(n), [], None), ArrivalScript(n);
    var events := [Clean([])] + ([Clean(NewRows(n))] + ([Clean([])] + ([Clean([])] + [])));
    assert ResolveAll(s.events) == events;
    NullRowsArranged(n);
    FreshIsSafe(NullRows(n), cfg);
    WitnessCopy(n);
    hide NullRows, NewRows, CopiedBy, CopyPages, ArriveAll, Accounts, Select;
    assert BoundOf(t, cfg) == All;
    assert QueryOf(t, cfg) == FirstSync(n);
  }

  lemma CopiedOrNot(n: nat)
    requires n > 0
    ensures NewRows(n)[n] in CopiedBy(n, 3) && NewRows(n)[0] !in CopiedBy(n, 3)
    ensures NewRows(n)[0] in NullRows(n) + NewRows(n)
  {
    assert CopiedBy(n, 3)[n] == NewRows(n)[n];
    assert (NullRows(n) + NewRows(n))[n] == NewRows(n)[0];
  }
}
