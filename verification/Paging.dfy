/**
 Copying a query result page by page: the loop that both executors run
 (incremental_sync.py:330-403, full_sync.py:277-335) against the connector contract.
 fetch_batch evaluates the sorted query afresh and returns the slice at an offset
 (postgres.py:226-252); bulk_insert inserts a whole batch or nothing (postgres.py:456-483).
 */
module Paging {
    import opened Values
  import opened SqlText

  /** A source row: its primary key and the value of its incremental column. */
  datatype Row = Row(pk: int, val: Value)

  /** ORDER BY incremental column, primary key, where NULL sorts last or first; or ORDER BY primary key. */
  datatype Order = NullsLast | NullsFirst | ByKey

  /** PostgreSQL sorts NULL last, the other two databases sort it first. */
  function OrderOf(d: Dialect): Order { if d.Postgres? then NullsLast else NullsFirst }

  predicate SameRank(a: Value, b: Value) {
    (a.Null? && b.Null?) || (!a.Null? && !b.Null? && Key(a) == Key(b))
  }

  predicate Below(o: Order, a: Value, b: Value) {
    if a.Null? || b.Null? then a.Null? != b.Null? && a.Null? == o.NullsFirst?
    else Key(a) < Key(b)
  }

  predicate Before(o: Order, a: Row, b: Row) {
    if o.ByKey? then a.pk < b.pk
    else Below(o, a.val, b.val) || (SameRank(a.val, b.val) && a.pk < b.pk)
  }

  predicate Sorted(o: Order, s: seq<Row>) {
    forall i, j :: 0 <= i < j < |s| ==> Before(o, s[i], s[j])
  }

  predicate DistinctKeys(s: seq<Row>) {
    forall i, j :: 0 <= i < j < |s| ==> s[i].pk != s[j].pk
  }

  /** Any way the database may list the rows for a query ordered by o. */
  predicate Arrangement(o: Order, rows: seq<Row>, s: seq<Row>) {
    multiset(s) == multiset(rows) && Sorted(o, s)
  }

  function Insert(o: Order, r: Row, s: seq<Row>): seq<Row>
    decreases |s|
  {
    if s == [] || Before(o, r, s[0]) then [r] + s else [s[0]] + Insert(o, r, s[1..])
  }

  function Sort(o: Order, s: seq<Row>): seq<Row>
    decreases |s|
  {
    if s == [] then [] else Insert(o, s[0], Sort(o, s[1..]))
  }

  predicate Passes(r: Row, b: Bound) {
    b.All? || (b.Above? && !r.val.Null? && Key(r.val) > b.key)
  }

  /** The rows the WHERE clause lets through, in table order. */
  function Filter(s: seq<Row>, b: Bound): seq<Row>
    decreases |s|
  {
    if s == [] then [] else (if Passes(s[0], b) then [s[0]] else []) + Filter(s[1..], b)
  }

  /** The ordered result of the query. */
  function Select(o: Order, b: Bound, rows: seq<Row>): seq<Row> { Sort(o, Filter(rows, b)) }

  /** LIMIT size OFFSET offset */
  function Page(s: seq<Row>, offset: nat, size: nat): seq<Row> {
    if offset >= |s| then []
    else if offset + size <= |s| then s[offset..offset + size] else s[offset..]
  }

  // ---------------------------------------------------------------- the order is total

  lemma BeforeTotal(o: Order, a: Row, b: Row)
    requires a.pk != b.pk
    ensures Before(o, a, b) <==> !Before(o, b, a)
  {
  }

  // ---------------------------------------------------------------- sorting

  lemma MultisetHead(s: seq<Row>)
    requires s != []
    ensures multiset(s) == multiset{s[0]} + multiset(s[1..])
  {
    assert s == [s[0]] + s[1..];
  }

  /** A row before all of a sorted sequence may stand in front of it. */
  lemma SortedCons(o: Order, r: Row, s: seq<Row>)
    requires Sorted(o, s) && forall x :: x in s ==> Before(o, r, x)
    ensures Sorted(o, [r] + s)
  {
  }

  lemma AfterHead(o: Order, s: seq<Row>, r: Row)
    requires Sorted(o, s) && s != [] && (r == s[0] || Before(o, r, s[0]))
    ensures forall x :: x in s[1..] ==> Before(o, r, x)
  {
  }

  lemma {:induction false} InsertSpec(o: Order, r: Row, s: seq<Row>)
    requires Sorted(o, s) && forall i :: 0 <= i < |s| ==> s[i].pk != r.pk
    ensures multiset(Insert(o, r, s)) == multiset{r} + multiset(s)
    ensures Sorted(o, Insert(o, r, s))
    decreases |s|
  {
    hide Before, Sorted;
    if s == [] {
      SortedCons(o, r, s) by { assert Sorted(o, s); }
    } else {
      MultisetHead(s);
      assert s == [s[0]] + s[1..];
      if Before(o, r, s[0]) {
        AfterHead(o, s, r);
        SortedCons(o, r, s);
      } else {
        var t := Insert(o, r, s[1..]);
        SortedTail(o, s);
        InsertSpec(o, r, s[1..]);
        AfterHead(o, s, s[0]);
        BeforeTotal(o, r, s[0]);
        forall x | x in t ensures Before(o, s[0], x) {
          assert x in multiset(t);
          assert x == r || x in s[1..];
        }
        SortedCons(o, s[0], t);
      }
    }
  }

  lemma {:induction false} SortSpec(o: Order, rows: seq<Row>)
    requires DistinctKeys(rows)
    ensures Arrangement(o, rows, Sort(o, rows))
    decreases |rows|
  {
    if rows != [] {
      SortSpec(o, rows[1..]);
      var t := Sort(o, rows[1..]);
      MultisetHead(rows);
      forall i | 0 <= i < |t| ensures t[i].pk != rows[0].pk {
        assert t[i] in multiset(t);
        var k :| 0 <= k < |rows[1..]| && rows[1..][k] == t[i];
      }
      InsertSpec(o, rows[0], t);
    }
  }

  lemma {:induction false} DistinctOnce(s: seq<Row>, r: Row)
    requires DistinctKeys(s)
    ensures multiset(s)[r] == if r in s then 1 else 0
    decreases |s|
  {
    if s != [] {
      DistinctOnce(s[1..], r);
      MultisetHead(s);
      forall i | 0 <= i < |s[1..]| ensures s[1..][i] != s[0] {
        assert s[0].pk != s[i + 1].pk;
      }
    }
  }

  lemma SortedTail(o: Order, s: seq<Row>)
    requires Sorted(o, s) && s != []
    ensures Sorted(o, s[1..])
  {
  }

  lemma SortedDistinct(o: Order, s: seq<Row>)
    requires Sorted(o, s)
    ensures forall i, j :: 0 <= i < j < |s| ==> s[i] != s[j]
  {
  }

  /** Where a sorted sequence and one with more rows first differ, the longer one has a new and earlier row. */
  lemma {:induction false} FirstNew(o: Order, s: seq<Row>, t: seq<Row>, k: nat) returns (i: nat)
    requires Sorted(o, s) && Sorted(o, t) && k <= |s| && k <= |t| && s[..k] != t[..k]
    requires forall r :: r in s ==> r in t
    ensures i < k && s[..i] == t[..i] && t[i] !in s && Before(o, t[i], s[i])
  {
    if s[..k - 1] != t[..k - 1] {
      i := FirstNew(o, s, t, k - 1);
    } else {
      i := k - 1;
      assert s[..k] == s[..i] + [s[i]] && t[..k] == t[..i] + [t[i]];
      assert forall j :: 0 <= j < i ==> s[j] == s[..i][j] == t[..i][j] == t[j];
      SortedDistinct(o, s);
      SortedDistinct(o, t);
      assert s[i] in s;
      var j :| 0 <= j < |t| && t[j] == s[i];
      assert Before(o, t[i], s[i]);
      forall m | 0 <= m < |s| ensures s[m] != t[i] {
        if m > i { assert Before(o, s[i], s[m]); }
      }
    }
  }

  lemma SameLength(s: seq<Row>, t: seq<Row>)
    requires multiset(s) == multiset(t)
    ensures |s| == |t|
  {
    assert |multiset(s)| == |s| && |multiset(t)| == |t|;
  }

  /** A total order leaves one arrangement. */
  lemma SortedUnique(o: Order, a: seq<Row>, b: seq<Row>)
    requires Sorted(o, a) && Sorted(o, b) && multiset(a) == multiset(b)
    ensures a == b
  {
    hide Sorted, Before;
    SameLength(a, b);
    forall r ensures r in a <==> r in b {
      assert r in a <==> r in multiset(a);
    }
    assert a[..|a|] == a && b[..|a|] == b;
    if a != b {
      var i := FirstNew(o, a, b, |a|);
      assert false;
    }
  }

  lemma JoinRows(a: seq<Row>, b: seq<Row>, c: seq<Row>)
    ensures (a + b) + c == a + (b + c)
  {
  }

  // ---------------------------------------------------------------- filtering

  lemma {:induction false} FilterAppend(a: seq<Row>, c: seq<Row>, b: Bound)
    ensures Filter(a + c, b) == Filter(a, b) + Filter(c, b)
    decreases |a|
  {
    if a == [] {
      assert a + c == c;
    } else {
      hide Passes;
      FilterAppend(a[1..], c, b);
      var head := if Passes(a[0], b) then [a[0]] else [];
      assert (a + c)[1..] == a[1..] + c;
      assert Filter(a, b) == head + Filter(a[1..], b);
    }
  }

  /** Filtering keeps the multiplicity of the rows that pass and drops the others. */
  lemma {:induction false} FilterCount(s: seq<Row>, b: Bound, r: Row)
    ensures multiset(Filter(s, b))[r] == if Passes(r, b) then multiset(s)[r] else 0
    decreases |s|
  {
    if s != [] {
      FilterCount(s[1..], b, r);
      MultisetHead(s);
      if Passes(s[0], b) {
        assert Filter(s, b) == [s[0]] + Filter(s[1..], b);
      } else {
        assert Filter(s, b) == Filter(s[1..], b);
      }
    }
  }

  lemma InFilter(s: seq<Row>, b: Bound, r: Row)
    ensures r in Filter(s, b) <==> r in s && Passes(r, b)
  {
  }

  lemma {:induction false} FilterDistinct(s: seq<Row>, b: Bound)
    requires DistinctKeys(s)
    ensures DistinctKeys(Filter(s, b))
    decreases |s|
  {
    if s != [] {
      FilterDistinct(s[1..], b);
      var t := Filter(s[1..], b);
      forall i | 0 <= i < |t| ensures t[i].pk != s[0].pk {
        InFilter(s[1..], b, t[i]);
        var k :| 0 <= k < |s[1..]| && s[1..][k] == t[i];
      }
    }
  }

  lemma {:induction false} FilterAll(rows: seq<Row>)
    ensures Filter(rows, All) == rows
    decreases |rows|
  {
    if rows != [] { FilterAll(rows[1..]); }
  }

  /** The ordered result holds every row that passes, as often as the table does, and is in order. */
  lemma SelectSpec(o: Order, b: Bound, rows: seq<Row>)
    requires DistinctKeys(rows)
    ensures Arrangement(o, Filter(rows, b), Select(o, b, rows))
    ensures forall r :: r in Select(o, b, rows) <==> r in rows && Passes(r, b)
  {
    FilterDistinct(rows, b);
    SortSpec(o, Filter(rows, b));
    forall r ensures r in Select(o, b, rows) <==> r in rows && Passes(r, b) {
      assert r in Select(o, b, rows) <==> r in multiset(Filter(rows, b));
      InFilter(rows, b, r);
    }
  }

  /**
   However the database arranges the result for one page query, the page is a slice of the same sequence:
   a total order leaves one arrangement.
   */
  lemma AnyArrangementSamePage(o: Order, b: Bound, rows: seq<Row>, s: seq<Row>, offset: nat, size: nat)
    requires DistinctKeys(rows) && Arrangement(o, Filter(rows, b), s)
    ensures Page(s, offset, size) == Page(Select(o, b, rows), offset, size)
  {
    SelectSpec(o, b, rows);
    SortedUnique(o, s, Select(o, b, rows));
  }

  // ---------------------------------------------------------------- rows that arrive between two pages

  lemma DistinctPart(a: seq<Row>, b: seq<Row>)
    requires DistinctKeys(a + b)
    ensures DistinctKeys(a) && DistinctKeys(b)
    ensures forall r :: r in a ==> r !in b
  {
    assert forall i :: 0 <= i < |a| ==> (a + b)[i] == a[i];
    assert forall i :: 0 <= i < |b| ==> (a + b)[|a| + i] == b[i];
  }

  lemma AllInLonger(o: Order, b: Bound, rows: seq<Row>, arrivals: seq<Row>)
    requires DistinctKeys(rows + arrivals)
    ensures forall r :: r in Select(o, b, rows) ==> r in Select(o, b, rows + arrivals)
    ensures |Select(o, b, rows)| <= |Select(o, b, rows + arrivals)|
  {
    DistinctPart(rows, arrivals);
    SelectSpec(o, b, rows);
    SelectSpec(o, b, rows + arrivals);
    FilterAppend(rows, arrivals, b);
    SameLength(Select(o, b, rows), Filter(rows, b));
    SameLength(Select(o, b, rows + arrivals), Filter(rows + arrivals, b));
  }

  /** Rows that sort after the k-th row of the result leave its first k rows alone. */
  lemma PrefixSurvives(o: Order, b: Bound, rows: seq<Row>, arrivals: seq<Row>, k: nat)
    requires DistinctKeys(rows + arrivals) && k <= |Select(o, b, rows)|
    requires k > 0 ==> forall n :: n in arrivals && Passes(n, b) ==> Before(o, Select(o, b, rows)[k - 1], n)
    ensures k <= |Select(o, b, rows + arrivals)| && Select(o, b, rows + arrivals)[..k] == Select(o, b, rows)[..k]
  {
    DistinctPart(rows, arrivals);
    SelectSpec(o, b, rows);
    SelectSpec(o, b, rows + arrivals);
    AllInLonger(o, b, rows, arrivals);
    var s, t := Select(o, b, rows), Select(o, b, rows + arrivals);
    hide Select, DistinctKeys, Before, Sorted;
    forall x | 0 <= x < |t| && t[x] !in s ensures k > 0 ==> Before(o, s[k - 1], t[x]) {
      assert t[x] in t;
    }
    SamePart(o, s, t, k);
  }

  lemma SamePart(o: Order, s: seq<Row>, t: seq<Row>, k: nat)
    requires Sorted(o, s) && Sorted(o, t) && k <= |s| <= |t| && forall r :: r in s ==> r in t
    requires k > 0 ==> forall x :: 0 <= x < |t| && t[x] !in s ==> Before(o, s[k - 1], t[x])
    ensures s[..k] == t[..k]
  {
    assert forall x :: 0 <= x < k ==> s[x] == s[k - 1] || Before(o, s[x], s[k - 1]);
    if s[..k] != t[..k] {
      var i := FirstNew(o, s, t, k);
      assert false;
    }
  }

  /** A row that sorts before the k-th row of the result pushes a row out of the first k. */
  lemma PrefixBreaks(o: Order, b: Bound, rows: seq<Row>, arrivals: seq<Row>, k: nat, n: Row)
    requires DistinctKeys(rows + arrivals) && 0 < k <= |Select(o, b, rows)|
    requires n in arrivals && Passes(n, b) && !Before(o, Select(o, b, rows)[k - 1], n)
    ensures k <= |Select(o, b, rows + arrivals)| && Select(o, b, rows + arrivals)[..k] != Select(o, b, rows)[..k]
  {
    DistinctPart(rows, arrivals);
    SelectSpec(o, b, rows);
    SelectSpec(o, b, rows + arrivals);
    AllInLonger(o, b, rows, arrivals);
    var s, t := Select(o, b, rows), Select(o, b, rows + arrivals);
    assert n in t && n !in s;
    var j :| 0 <= j < |t| && t[j] == n;
    var x := if j < k then j else k - 1;
    assert t[..k][x] != s[..k][x];
  }

  /** The first k rows of the result survive exactly when no arrival that the query sees sorts before the k-th. */
  lemma PrefixSurvivesIff(o: Order, b: Bound, rows: seq<Row>, arrivals: seq<Row>, k: nat)
    requires DistinctKeys(rows + arrivals) && 0 < k <= |Select(o, b, rows)|
    ensures k <= |Select(o, b, rows + arrivals)|
    ensures Select(o, b, rows + arrivals)[..k] == Select(o, b, rows)[..k]
            <==> forall n :: n in arrivals && Passes(n, b) ==> Before(o, Select(o, b, rows)[k - 1], n)
  {
    AllInLonger(o, b, rows, arrivals);
    hide Select, Before, Passes;
    if n :| n in arrivals && Passes(n, b) && !Before(o, Select(o, b, rows)[k - 1], n) {
      PrefixBreaks(o, b, rows, arrivals, k, n);
    } else {
      PrefixSurvives(o, b, rows, arrivals, k);
    }
  }

  // ---------------------------------------------------------------- the loop

  datatype Query = Query(order: Order, bound: Bound, size: nat)

  type PagedQuery = q: Query | q.size > 0 && !q.bound.Invalid? witness Query(ByKey, All, 1)

  /**
   One pass through the loop: rows that arrived since the last query, and whether the fetch and the insert succeed.
   */
  datatype PageEvent = PageEvent(arrivals: seq<Row>, fetched: bool, inserted: bool)

  datatype Phase = Fetching | Drained | Aborted

  /** The loop's state; copied is what it has committed to the target. */
  datatype Copy = Copy(source: seq<Row>, copied: seq<Row>, offset: nat, batches: nat, phase: Phase)

  function NextPage(q: PagedQuery, c: Copy, e: PageEvent): Copy {
    var source := c.source + e.arrivals;
    if !e.fetched then c.(source := source, phase := Aborted)
    else
      var page := Page(Select(q.order, q.bound, source), c.offset, q.size);
      if page == [] then c.(source := source, phase := Drained)
      else if !e.inserted then c.(source := source, phase := Aborted)
      else Copy(source, c.copied + page, c.offset + q.size, c.batches + 1,
                if |page| < q.size then Drained else Fetching)
  }

  /** The loop over a script of events; a script that ends while fetching is a process that died. */
  function CopyPages(q: PagedQuery, c: Copy, events: seq<PageEvent>): Copy
    decreases |events|
  {
    if events == [] || !c.phase.Fetching? then c else CopyPages(q, NextPage(q, c, events[0]), events[1..])
  }

  function StartCopy(rows: seq<Row>): Copy { Copy(rows, [], 0, 0, Fetching) }

  /** No two rows ever share a key. */
  predicate Keyed(q: PagedQuery, c: Copy, events: seq<PageEvent>)
    decreases |events|
  {
    events == [] || !c.phase.Fetching? ||
    (DistinctKeys(c.source + events[0].arrivals) && Keyed(q, NextPage(q, c, events[0]), events[1..]))
  }

  /** No new row that the query sees sorts before the last row copied. */
  predicate Harmless(q: PagedQuery, copied: seq<Row>, arrivals: seq<Row>) {
    copied == [] ||
    forall n :: n in arrivals && Passes(n, q.bound) ==> Before(q.order, copied[|copied| - 1], n)
  }

  /** All arrivals are harmless when they come. */
  predicate Undisturbed(q: PagedQuery, c: Copy, events: seq<PageEvent>)
    decreases |events|
  {
    events == [] || !c.phase.Fetching? ||
    (Harmless(q, c.copied, events[0].arrivals) && Undisturbed(q, NextPage(q, c, events[0]), events[1..]))
  }

  /** The whole batches that n rows make. */
  function BatchesFor(n: nat, size: nat): nat
    requires size > 0
  {
    (n + size - 1) / size
  }

  predicate CopyInv(q: PagedQuery, c: Copy) {
    var all := Select(q.order, q.bound, c.source);
    DistinctKeys(c.source) &&
    |c.copied| <= |all| && c.copied == all[..|c.copied|] &&
    c.offset == c.batches * q.size &&
    (!c.phase.Drained? ==> |c.copied| == c.offset) &&
    (c.phase.Drained? ==> c.copied == all && c.offset - q.size < |all| <= c.offset)
  }

  /** A page continues the part before it; it is short exactly when it reaches the end. */
  lemma PageSpec(s: seq<Row>, offset: nat, size: nat)
    requires offset <= |s|
    ensures var p := Page(s, offset, size);
            s[..offset] + p == s[..offset + |p|] && |p| == if offset + size <= |s| then size else |s| - offset
  {
  }

  lemma StepKeeps(q: PagedQuery, c: Copy, e: PageEvent)
    requires CopyInv(q, c) && c.phase.Fetching?
    requires DistinctKeys(c.source + e.arrivals) && Harmless(q, c.copied, e.arrivals)
    ensures CopyInv(q, NextPage(q, c, e))
  {
    hide Select, Page, Before, Passes, DistinctKeys;
    var seen := Select(q.order, q.bound, c.source);
    var all := Select(q.order, q.bound, c.source + e.arrivals);
    assert c.copied == seen[..c.offset];
    if c.offset > 0 {
      assert c.copied[|c.copied| - 1] == seen[c.offset - 1];
    }
    PrefixSurvives(q.order, q.bound, c.source, e.arrivals, c.offset);
    PageSpec(all, c.offset, q.size);
    NextBatch(c.batches, q.size);
  }

  lemma NextBatch(batches: nat, size: nat)
    ensures (batches + 1) * size == batches * size + size
  {
  }

  /**
   At every moment of an undisturbed run the target has received an initial part of the ordered result, in whole
   batches.
   */
  lemma {:induction false} CopyKeeps(q: PagedQuery, c: Copy, events: seq<PageEvent>)
    requires CopyInv(q, c) && Keyed(q, c, events) && Undisturbed(q, c, events)
    ensures CopyInv(q, CopyPages(q, c, events))
    decreases |events|
  {
    if events != [] && c.phase.Fetching? {
      StepKeeps(q, c, events[0]);
      hide NextPage, CopyInv, Harmless;
      CopyKeeps(q, NextPage(q, c, events[0]), events[1..]);
    }
  }

  lemma {:induction false} RowsComeInBatches(q: PagedQuery, c: Copy, events: seq<PageEvent>)
    requires c.batches == 0 ==> c.copied == []
    ensures CopyPages(q, c, events).batches == 0 ==> CopyPages(q, c, events).copied == []
    decreases |events|
  {
    if events != [] && c.phase.Fetching? {
      RowsComeInBatches(q, NextPage(q, c, events[0]), events[1..]);
    }
  }

  // ---------------------------------------------------------------- disturbed runs

  /** A row that came during the loop, sorts before a row already copied, and will not be copied. */
  predicate Gap(q: PagedQuery, c: Copy, base: seq<Row>, m: Row, l: Row) {
    var all := Select(q.order, q.bound, c.source);
    DistinctKeys(c.source) && (forall r :: r in base ==> r in c.source) &&
    (forall r :: r in c.copied ==> r in c.source) &&
    m in all && m !in c.copied && m !in base && l in c.copied && Before(q.order, m, l) &&
    (c.phase.Fetching? ==> c.offset <= |all| && m in all[..c.offset])
  }

  /**
   Of a row among the first k of a sorted sequence, itself or a new and earlier one is among the first k of a longer
   one.
   */
  lemma EarlierInPrefix(o: Order, s: seq<Row>, t: seq<Row>, k: nat, m: Row) returns (m': Row)
    requires Sorted(o, s) && Sorted(o, t) && k <= |s| && k <= |t| && (forall r :: r in s ==> r in t) && m in s[..k]
    ensures m' in t[..k] && (m' == m || (m' !in s && Before(o, m', m)))
  {
    if s[..k] == t[..k] {
      m' := m;
    } else {
      var i := FirstNew(o, s, t, k);
      var j :| 0 <= j < k && s[..k][j] == m;
      if j < i {
        m' := m;
        assert t[..k][j] == t[..i][j] == s[..i][j] == s[j];
      } else {
        m' := t[i];
        assert t[..k][i] == t[i];
        assert s[i] == m || Before(o, s[i], m);
      }
    }
  }

  /** The first offset rows of the grown result still hold a row that is not copied. */
  lemma GapInPrefix(q: PagedQuery, c: Copy, arrivals: seq<Row>, base: seq<Row>, m: Row, l: Row) returns (m': Row)
    requires Gap(q, c, base, m, l) && c.phase.Fetching? && DistinctKeys(c.source + arrivals)
    ensures var all := Select(q.order, q.bound, c.source + arrivals);
            c.offset <= |all| && m' in all[..c.offset] && m' !in c.copied && m' !in base && Before(q.order, m', l)
  {
    var s, t := Select(q.order, q.bound, c.source), Select(q.order, q.bound, c.source + arrivals);
    SelectSpec(q.order, q.bound, c.source);
    SelectSpec(q.order, q.bound, c.source + arrivals);
    AllInLonger(q.order, q.bound, c.source, arrivals);
    hide Select, DistinctKeys, Passes, Sorted, Arrangement;
    m' := EarlierInPrefix(q.order, s, t, c.offset, m);
    assert m' in t;
  }

  /** Once there is a gap, each further pass leaves one. */
  lemma GapStays(q: PagedQuery, c: Copy, e: PageEvent, base: seq<Row>, m: Row, l: Row) returns (m': Row)
    requires Gap(q, c, base, m, l) && c.phase.Fetching? && DistinctKeys(c.source + e.arrivals)
    ensures NextPage(q, c, e).phase.Aborted? || Gap(q, NextPage(q, c, e), base, m', l)
  {
    m' := GapInPrefix(q, c, e.arrivals, base, m, l);
    NotOnLaterPage(q, c, e, m');
  }

  lemma NotOnLaterPage(q: PagedQuery, c: Copy, e: PageEvent, m: Row)
    requires DistinctKeys(c.source + e.arrivals)
    requires var all := Select(q.order, q.bound, c.source + e.arrivals); c.offset <= |all| && m in all[..c.offset]
    ensures var all := Select(q.order, q.bound, c.source + e.arrivals); var page := Page(all, c.offset, q.size);
            m in all && m !in page && (forall r :: r in page ==> r in c.source + e.arrivals) &&
            (|page| >= q.size ==> c.offset + q.size <= |all| && m in all[..c.offset + q.size])
  {
    var all := Select(q.order, q.bound, c.source + e.arrivals);
    SelectSpec(q.order, q.bound, c.source + e.arrivals);
    SortedDistinct(q.order, all);
    PageSpec(all, c.offset, q.size);
    hide Select, DistinctKeys, Before;
    var page := Page(all, c.offset, q.size);
    assert page == all[c.offset..c.offset + |page|];
    var j :| 0 <= j < c.offset && all[..c.offset][j] == m;
    assert all[j] == m;
    assert |page| >= q.size ==> all[..c.offset + q.size][j] == m;
  }

  lemma {:induction false} GapRemains(q: PagedQuery, c: Copy, events: seq<PageEvent>, base: seq<Row>, m: Row, l: Row)
    returns (m': Row)
    requires Gap(q, c, base, m, l) && Keyed(q, c, events)
    ensures CopyPages(q, c, events).phase.Aborted? || Gap(q, CopyPages(q, c, events), base, m', l)
    decreases |events|
  {
    hide Gap, NextPage;
    m' := m;
    if events != [] && c.phase.Fetching? {
      m' := GapStays(q, c, events[0], base, m, l);
      if NextPage(q, c, events[0]).phase != Aborted {
        m' := GapRemains(q, NextPage(q, c, events[0]), events[1..], base, m', l);
      }
    }
  }

  lemma HarmHidesRow(q: PagedQuery, c: Copy, arrivals: seq<Row>, base: seq<Row>) returns (m: Row, l: Row)
    requires CopyInv(q, c) && c.phase.Fetching? && (forall r :: r in base ==> r in c.source)
    requires DistinctKeys(c.source + arrivals) && !Harmless(q, c.copied, arrivals)
    ensures var all := Select(q.order, q.bound, c.source + arrivals);
            c.offset <= |all| && m in all[..c.offset] && m !in c.source && l in c.copied && Before(q.order, m, l)
  {
    var s, t := Select(q.order, q.bound, c.source), Select(q.order, q.bound, c.source + arrivals);
    var n :| n in arrivals && Passes(n, q.bound) && !Before(q.order, c.copied[|c.copied| - 1], n);
    DistinctPart(c.source, arrivals);
    SelectSpec(q.order, q.bound, c.source);
    SelectSpec(q.order, q.bound, c.source + arrivals);
    AllInLonger(q.order, q.bound, c.source, arrivals);
    PrefixBreaks(q.order, q.bound, c.source, arrivals, c.offset, n);
    hide Select, DistinctKeys;
    var i := FirstNew(q.order, s, t, c.offset);
    m, l := t[i], s[i];
    assert t[..c.offset][i] == m && m in t && c.copied[i] == s[i];
  }

  lemma CopiedFromSource(q: PagedQuery, c: Copy)
    requires CopyInv(q, c)
    ensures forall r :: r in c.copied ==> r in c.source
  {
    SelectSpec(q.order, q.bound, c.source);
    var all := Select(q.order, q.bound, c.source);
    forall r | r in c.copied ensures r in all {
      var i :| 0 <= i < |c.copied| && c.copied[i] == r;
      assert all[i] == r;
    }
  }

  /** A harmful arrival makes a gap. */
  lemma HarmMakesGap(q: PagedQuery, c: Copy, e: PageEvent, base: seq<Row>) returns (m: Row, l: Row)
    requires CopyInv(q, c) && c.phase.Fetching? && (forall r :: r in base ==> r in c.source)
    requires DistinctKeys(c.source + e.arrivals) && !Harmless(q, c.copied, e.arrivals)
    ensures NextPage(q, c, e).phase.Aborted? || Gap(q, NextPage(q, c, e), base, m, l)
  {
    m, l := HarmHidesRow(q, c, e.arrivals, base);
    CopiedFromSource(q, c);
    NotOnLaterPage(q, c, e, m);
    hide Select, DistinctKeys, Passes, Page, Before, CopyInv, Harmless;
  }

  lemma {:induction false} DisturbedLeavesGap(q: PagedQuery, c: Copy, events: seq<PageEvent>, base: seq<Row>)
    returns (m: Row, l: Row)
    requires CopyInv(q, c) && (forall r :: r in base ==> r in c.source)
    requires Keyed(q, c, events) && !Undisturbed(q, c, events)
    ensures CopyPages(q, c, events).phase.Aborted? || Gap(q, CopyPages(q, c, events), base, m, l)
    decreases |events|
  {
    var next := NextPage(q, c, events[0]);
    if Harmless(q, c.copied, events[0].arrivals) {
      StepKeeps(q, c, events[0]);
      m, l := DisturbedLeavesGap(q, next, events[1..], base);
    } else {
      m, l := HarmMakesGap(q, c, events[0], base);
      hide Gap, NextPage;
      if !next.phase.Aborted? {
        m := GapRemains(q, next, events[1..], base, m, l);
      }
    }
  }

  /** A loop that ends normally has copied every row its last query could see if and only if no arrival disturbed it. */
  lemma DrainedDeliversIff(q: PagedQuery, rows: seq<Row>, events: seq<PageEvent>)
    requires DistinctKeys(rows) && Keyed(q, StartCopy(rows), events)
    requires CopyPages(q, StartCopy(rows), events).phase.Drained?
    ensures var c := CopyPages(q, StartCopy(rows), events);
            (forall r :: r in c.source && Passes(r, q.bound) ==> r in c.copied)
            <==> Undisturbed(q, StartCopy(rows), events)
  {
    var c := CopyPages(q, StartCopy(rows), events);
    StartInv(q, rows);
    if Undisturbed(q, StartCopy(rows), events) {
      CopyKeeps(q, StartCopy(rows), events);
      SelectSpec(q.order, q.bound, c.source);
    } else {
      var m, l := DisturbedLeavesGap(q, StartCopy(rows), events, rows);
      SelectSpec(q.order, q.bound, c.source);
    }
  }

  /** Disturbed or not, the loop copies only rows that the query selects. */
  lemma {:induction false} CopiesSelected(q: PagedQuery, c: Copy, events: seq<PageEvent>)
    requires Keyed(q, c, events) && DistinctKeys(c.source)
    requires forall r :: r in c.copied ==> r in c.source && Passes(r, q.bound)
    ensures var d := CopyPages(q, c, events); forall r :: r in d.copied ==> r in d.source && Passes(r, q.bound)
    decreases |events|
  {
    if events != [] && c.phase.Fetching? {
      PageFromSource(q, c, events[0]);
      hide NextPage, DistinctKeys, Passes;
      CopiesSelected(q, NextPage(q, c, events[0]), events[1..]);
    }
  }

  lemma PageFromSource(q: PagedQuery, c: Copy, e: PageEvent)
    requires DistinctKeys(c.source + e.arrivals)
    requires forall r :: r in c.copied ==> r in c.source && Passes(r, q.bound)
    ensures var d := NextPage(q, c, e);
            d.source == c.source + e.arrivals && forall r :: r in d.copied ==> r in d.source && Passes(r, q.bound)
  {
    SelectSpec(q.order, q.bound, c.source + e.arrivals);
    hide Select, DistinctKeys, Passes;
  }

  // ---------------------------------------------------------------- how often a row is copied

  /** The rows that the next pass commits. */
  function NextBatchOf(q: PagedQuery, c: Copy, e: PageEvent): seq<Row> {
    if e.fetched && e.inserted then Page(Select(q.order, q.bound, c.source + e.arrivals), c.offset, q.size) else []
  }

  /** How many committed batches hold the row. */
  function BatchesWith(q: PagedQuery, c: Copy, events: seq<PageEvent>, r: Row): nat
    decreases |events|
  {
    if events == [] || !c.phase.Fetching? then 0
    else
      (if r in NextBatchOf(q, c, events[0]) then 1 else 0) + BatchesWith(q, NextPage(q, c, events[0]), events[1..], r)
  }

  lemma {:induction false} SortedOnce(o: Order, s: seq<Row>, r: Row)
    requires Sorted(o, s)
    ensures multiset(s)[r] == if r in s then 1 else 0
    decreases |s|
  {
    if s != [] {
      SortedOnce(o, s[1..], r);
      MultisetHead(s);
      forall i | 0 <= i < |s[1..]| ensures s[1..][i] != s[0] {
        assert Before(o, s[0], s[i + 1]);
      }
    }
  }

  lemma BatchOnce(q: PagedQuery, c: Copy, e: PageEvent, r: Row)
    requires DistinctKeys(c.source + e.arrivals)
    ensures NextPage(q, c, e).copied == c.copied + NextBatchOf(q, c, e)
    ensures multiset(NextBatchOf(q, c, e))[r] == if r in NextBatchOf(q, c, e) then 1 else 0
  {
    var all, page := Select(q.order, q.bound, c.source + e.arrivals), NextBatchOf(q, c, e);
    SelectSpec(q.order, q.bound, c.source + e.arrivals);
    assert c.copied + [] == c.copied;
    assert Sorted(q.order, page);
    SortedOnce(q.order, page, r);
  }

  /** Disturbed or not, each committed batch copies a row in it once. */
  lemma {:induction false} CopiesPerBatch(q: PagedQuery, c: Copy, events: seq<PageEvent>, r: Row)
    requires Keyed(q, c, events)
    ensures multiset(CopyPages(q, c, events).copied)[r] == multiset(c.copied)[r] + BatchesWith(q, c, events, r)
    decreases |events|
  {
    if events != [] && c.phase.Fetching? {
      BatchOnce(q, c, events[0], r);
      hide NextPage, NextBatchOf, DistinctKeys;
      CopiesPerBatch(q, NextPage(q, c, events[0]), events[1..], r);
    }
  }

  // ---------------------------------------------------------------- unrolling the loop

  lemma CopyUnroll(q: PagedQuery, c: Copy, events: seq<PageEvent>, i: nat)
    requires i < |events| && c.phase.Fetching?
    ensures CopyPages(q, c, events[i..]) == CopyPages(q, NextPage(q, c, events[i]), events[i + 1..])
  {
  }

  lemma CopyStops(q: PagedQuery, c: Copy, events: seq<PageEvent>)
    requires events == [] || !c.phase.Fetching?
    ensures CopyPages(q, c, events) == c
  {
  }

  lemma {:induction false} CopySplit(q: PagedQuery, c: Copy, events: seq<PageEvent>, i: nat)
    requires i <= |events|
    ensures CopyPages(q, c, events) == CopyPages(q, CopyPages(q, c, events[..i]), events[i..])
    decreases i
  {
    if i == 0 || !c.phase.Fetching? {
      assert events[..0] == [] && events[0..] == events;
    } else {
      var rest := events[1..];
      assert events[..i][1..] == rest[..i - 1] && events[i..] == rest[i - 1..];
      CopySplit(q, NextPage(q, c, events[0]), rest, i - 1);
    }
  }

  // ---------------------------------------------------------------- how the loop ends

  /** How many selected rows the query of a pass finds behind the offset. */
  function RowsLeft(q: PagedQuery, c: Copy, e: PageEvent): int {
    |Select(q.order, q.bound, c.source + e.arrivals)| - c.offset
  }

  /** A pass fails when its fetch does, or when there are rows left and its insert does. */
  predicate PassFails(q: PagedQuery, c: Copy, e: PageEvent) {
    !e.fetched || (!e.inserted && RowsLeft(q, c, e) > 0)
  }

  /** A pass is the last one when it finds nothing, or inserts less than a page. */
  predicate PassDrains(q: PagedQuery, c: Copy, e: PageEvent) {
    e.fetched && (RowsLeft(q, c, e) <= 0 || (e.inserted && RowsLeft(q, c, e) < q.size))
  }

  lemma PassEnds(q: PagedQuery, c: Copy, e: PageEvent)
    requires c.phase.Fetching?
    ensures var d := NextPage(q, c, e);
            (d.phase.Aborted? <==> PassFails(q, c, e)) && (d.phase.Drained? <==> PassDrains(q, c, e)) &&
            (d.phase.Aborted? ==> d.copied == c.copied && d.batches == c.batches) &&
            (d.phase.Fetching? ==> d.batches == c.batches + 1)
  {
    hide Select;
  }

  lemma {:induction false} BatchesGrow(q: PagedQuery, c: Copy, events: seq<PageEvent>)
    ensures CopyPages(q, c, events).batches >= c.batches
    decreases |events|
  {
    if events != [] && c.phase.Fetching? { BatchesGrow(q, NextPage(q, c, events[0]), events[1..]); }
  }

  /** A loop that has come to its i-th pass ends there, with nothing more committed, if and only if that pass fails. */
  lemma LoopAbortsAtIff(q: PagedQuery, c: Copy, events: seq<PageEvent>, i: nat)
    requires i < |events| && CopyPages(q, c, events[..i]).phase.Fetching?
    ensures var d, r := CopyPages(q, c, events[..i]), CopyPages(q, c, events);
            r.phase.Aborted? && r.copied == d.copied && r.batches == d.batches <==> PassFails(q, d, events[i])
  {
    var d := CopyPages(q, c, events[..i]);
    CopySplit(q, c, events, i);
    CopyUnroll(q, d, events, i);
    PassEnds(q, d, events[i]);
    hide NextPage, PassFails, PassDrains;
    var next := NextPage(q, d, events[i]);
    if next.phase.Fetching? {
      BatchesGrow(q, next, events[i + 1..]);
    } else {
      CopyStops(q, next, events[i + 1..]);
    }
  }

  /** The loop comes to its i-th pass. */
  predicate Comes(q: PagedQuery, c: Copy, events: seq<PageEvent>, i: nat)
    requires i < |events|
  {
    CopyPages(q, c, events[..i]).phase.Fetching?
  }

  /** The loop is aborted exactly when a pass it comes to fails, and drained exactly when one it comes to drains it. */
  lemma {:induction false} LoopEndsIff(q: PagedQuery, c: Copy, events: seq<PageEvent>)
    requires c.phase.Fetching?
    ensures CopyPages(q, c, events).phase.Aborted?
            <==> exists i :: 0 <= i < |events| && Comes(q, c, events, i) &&
                             PassFails(q, CopyPages(q, c, events[..i]), events[i])
    ensures CopyPages(q, c, events).phase.Drained?
            <==> exists i :: 0 <= i < |events| && Comes(q, c, events, i) &&
                             PassDrains(q, CopyPages(q, c, events[..i]), events[i])
    decreases |events|
  {
    forall i | 0 <= i < |events| && Comes(q, c, events, i)
      ensures PassFails(q, CopyPages(q, c, events[..i]), events[i]) ==> CopyPages(q, c, events).phase.Aborted?
      ensures PassDrains(q, CopyPages(q, c, events[..i]), events[i]) ==> CopyPages(q, c, events).phase.Drained?
    {
      EndsAt(q, c, events, i);
    }
    if !CopyPages(q, c, events).phase.Fetching? {
      var i := LastPass(q, c, events);
      EndsAt(q, c, events, i);
    }
  }

  lemma EndsAt(q: PagedQuery, c: Copy, events: seq<PageEvent>, i: nat)
    requires i < |events| && Comes(q, c, events, i)
    ensures var d := CopyPages(q, c, events[..i]);
            (PassFails(q, d, events[i]) ==> CopyPages(q, c, events).phase.Aborted?) &&
            (PassDrains(q, d, events[i]) ==> CopyPages(q, c, events).phase.Drained?) &&
            (!NextPage(q, d, events[i]).phase.Fetching? ==> CopyPages(q, c, events) == NextPage(q, d, events[i])) &&
            (NextPage(q, d, events[i]).phase.Aborted? ==> PassFails(q, d, events[i])) &&
            (NextPage(q, d, events[i]).phase.Drained? ==> PassDrains(q, d, events[i]))
  {
    var d := CopyPages(q, c, events[..i]);
    CopySplit(q, c, events, i);
    CopyUnroll(q, d, events, i);
    PassEnds(q, d, events[i]);
    hide NextPage, PassFails, PassDrains;
    if !NextPage(q, d, events[i]).phase.Fetching? { CopyStops(q, NextPage(q, d, events[i]), events[i + 1..]); }
  }

  /** The pass at which a loop that ended ended. */
  lemma {:induction false} LastPass(q: PagedQuery, c: Copy, events: seq<PageEvent>) returns (i: nat)
    requires c.phase.Fetching? && !CopyPages(q, c, events).phase.Fetching?
    ensures i < |events| && Comes(q, c, events, i)
    ensures !NextPage(q, CopyPages(q, c, events[..i]), events[i]).phase.Fetching?
    decreases |events|
  {
    var d := NextPage(q, c, events[0]);
    if d.phase.Fetching? {
      var j := LastPass(q, d, events[1..]);
      i := j + 1;
      assert events[..i][1..] == events[1..][..j] && events[1..][j] == events[i];
    } else {
      i := 0;
      assert events[..0] == [];
    }
  }

  /** Every batch but the last is a full page. */
  lemma {:induction false} BatchesAreFull(q: PagedQuery, c: Copy, events: seq<PageEvent>)
    requires |c.copied| == c.batches * q.size && c.phase.Fetching?
    ensures var d := CopyPages(q, c, events);
            |d.copied| <= d.batches * q.size && (d.batches > 0 ==> |d.copied| > (d.batches - 1) * q.size)
    decreases |events|
  {
    NextBatch(c.batches, q.size);
    if c.batches > 0 { NextBatch(c.batches - 1, q.size); }
    if events != [] {
      var d := NextPage(q, c, events[0]);
      hide Select;
      if d.phase.Fetching? { BatchesAreFull(q, d, events[1..]); }
    }
  }

  // ---------------------------------------------------------------- a fixed source

  predicate Quiet(events: seq<PageEvent>) {
    forall i :: 0 <= i < |events| ==> events[i].arrivals == [] && events[i].fetched && events[i].inserted
  }

  lemma QuietStep(q: PagedQuery, c: Copy, e: PageEvent)
    requires CopyInv(q, c) && c.phase.Fetching? && e.arrivals == [] && e.fetched && e.inserted
    ensures var c' := NextPage(q, c, e); var n := |Select(q.order, q.bound, c.source)|;
            CopyInv(q, c') && c'.source == c.source && !c'.phase.Aborted? &&
            (c'.phase.Drained? <==> c.offset + q.size > n) &&
            (c'.phase.Fetching? ==> c'.batches == c.batches + 1)
  {
    assert c.source + e.arrivals == c.source;
    StepKeeps(q, c, e);
    hide Select, Page;
    PageSpec(Select(q.order, q.bound, c.source), c.offset, q.size);
  }

  lemma Monotone(a: int, b: int, size: nat)
    ensures a <= b ==> a * size <= b * size
  {
  }

  /**
   Without faults and arrivals the loop ends at the first query that finds fewer rows than a page holds:
   it is done after k more queries exactly when the pages asked for exceed the rows.
   */
  lemma {:induction false} QuietCopy(q: PagedQuery, c: Copy, events: seq<PageEvent>)
    requires CopyInv(q, c) && c.phase.Fetching? && Quiet(events)
    ensures var r := CopyPages(q, c, events); var n := |Select(q.order, q.bound, c.source)|;
            CopyInv(q, r) && r.source == c.source && !r.phase.Aborted? &&
            (r.phase.Drained? <==> (c.batches + |events|) * q.size > n) &&
            (r.phase.Fetching? ==> r.batches == c.batches + |events|)
    decreases |events|
  {
    if events != [] {
      QuietStep(q, c, events[0]);
      var c' := NextPage(q, c, events[0]);
      if c'.phase.Fetching? {
        QuietCopy(q, c', events[1..]);
        assert c'.batches + |events[1..]| == c.batches + |events|;
      } else {
        Monotone(c.batches + 1, c.batches + |events|, q.size);
        NextBatch(c.batches, q.size);
      }
    }
  }

  lemma StartInv(q: PagedQuery, rows: seq<Row>)
    requires DistinctKeys(rows)
    ensures CopyInv(q, StartCopy(rows))
  {
  }

  /** A drained copy made ceil(n / size) batches, none of them empty. */
  lemma DrainedBatches(q: PagedQuery, c: Copy)
    requires CopyInv(q, c) && c.phase.Drained?
    ensures c.batches == BatchesFor(|Select(q.order, q.bound, c.source)|, q.size)
  {
    var n, b := |Select(q.order, q.bound, c.source)|, q.size;
    var m := n + b - 1;
    assert c.batches * b <= m < (c.batches + 1) * b;
    QuotientIs(m, b, c.batches);
  }

  lemma QuotientIs(m: nat, b: nat, k: nat)
    requires b > 0 && k * b <= m < (k + 1) * b
    ensures m / b == k
  {
    var d := m / b;
    assert d * b <= m < (d + 1) * b;
    Monotone(d + 1, k, b);
    Monotone(k + 1, d, b);
  }

  /**
   The loop over n rows needs exactly the queries that it takes to ask for more than n, and then has copied them all.
   */
  lemma FixedSourceTerminates(q: PagedQuery, rows: seq<Row>, events: seq<PageEvent>)
    requires DistinctKeys(rows) && Quiet(events)
    ensures var n := |Select(q.order, q.bound, rows)|; var r := CopyPages(q, StartCopy(rows), events);
            (r.phase.Drained? <==> |events| * q.size > n) &&
            (r.phase.Drained? ==> r.copied == Select(q.order, q.bound, rows) && r.batches == BatchesFor(n, q.size))
  {
    StartInv(q, rows);
    QuietCopy(q, StartCopy(rows), events);
    var r := CopyPages(q, StartCopy(rows), events);
    if r.phase.Drained? { DrainedBatches(q, r); }
  }
}
