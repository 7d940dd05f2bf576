/**
 Why the ORDER BY of a run ends in the primary key (incremental_sync.py:305-314, full_sync.py:236-250).
 When the sort key leaves ties, the database may list tied rows differently for every page query.
 The pages still tile the result exactly when no tie lies across a page boundary.
 */
module Ties {
  import opened Paging

  predicate WeaklySorted(rank: Row -> int, s: seq<Row>) {
    forall i, j :: 0 <= i < j < |s| ==> rank(s[i]) <= rank(s[j])
  }

  /** A listing the database may give for a query ordered by rank alone. */
  predicate Listing(rank: Row -> int, rows: seq<Row>, s: seq<Row>) {
    multiset(s) == multiset(rows) && WeaklySorted(rank, s)
  }

  /** The pages one after the other, the k-th cut from the k-th listing. */
  function Tiles(lists: seq<seq<Row>>, size: nat): seq<Row>
    decreases |lists|
  {
    if lists == [] then []
    else Tiles(lists[..|lists| - 1], size) + PageAt(lists, size, |lists| - 1)
  }

  /** What the k-th query finds. */
  function PageAt(lists: seq<seq<Row>>, size: nat, k: nat): seq<Row>
    requires k < |lists|
  {
    Page(lists[k], k * size, size)
  }

  predicate Listings(rank: Row -> int, rows: seq<Row>, lists: seq<seq<Row>>) {
    forall k :: 0 <= k < |lists| ==> Listing(rank, rows, lists[k])
  }

  /** Whatever listings the page queries see, the pages hold every row exactly once. */
  ghost predicate AlwaysTiles(rank: Row -> int, rows: seq<Row>, size: nat) {
    forall lists: seq<seq<Row>> :: Listings(rank, rows, lists) && |lists| * size >= |rows| ==>
      multiset(Tiles(lists, size)) == multiset(rows)
  }

  /** Row p and the row before it have the same rank. */
  predicate TieAt(rank: Row -> int, s: seq<Row>, p: nat) {
    0 < p < |s| && rank(s[p - 1]) == rank(s[p])
  }

  /** Besides, not all rows of that rank are equal: with equal rows it does not matter which comes first. */
  predicate MixedTieAt(rank: Row -> int, s: seq<Row>, p: nat) {
    TieAt(rank, s, p) && exists i :: 0 <= i < |s| && rank(s[i]) == rank(s[p]) && s[i] != s[p]
  }

  /** Some page boundary lies between rows of one rank, and the rows of that rank differ. */
  predicate TieAcrossBoundary(rank: Row -> int, s: seq<Row>, size: nat) {
    exists k: nat :: k <= |s| && MixedTieAt(rank, s, k * size)
  }

  // ---------------------------------------------------------------- without such a tie

  /** A part of a listing that takes the low ranks and leaves the high ones is the same multiset in every listing. */
  lemma LowPart(rank: Row -> int, s: seq<Row>, p: nat, c: int, r: Row)
    requires p <= |s| && (forall i :: 0 <= i < p ==> rank(s[i]) <= c) && (forall i :: p <= i < |s| ==> rank(s[i]) > c)
    ensures multiset(s[..p])[r] == if rank(r) <= c then multiset(s)[r] else 0
  {
    assert s == s[..p] + s[p..];
    if rank(r) <= c {
      assert r !in s[p..];
    } else {
      assert r !in s[..p];
    }
  }

  function FirstAbove(rank: Row -> int, s: seq<Row>, c: int): (p: nat)
    ensures p <= |s| && forall i :: 0 <= i < p ==> rank(s[i]) <= c
    ensures p < |s| ==> rank(s[p]) > c
  {
    if s == [] || rank(s[0]) > c then 0
    else
      var p := FirstAbove(rank, s[1..], c) + 1;
      assert forall i :: 0 < i < p ==> s[i] == s[1..][i - 1];
      p
  }

  /** The rows of rank up to c stand in front, the same ones in every listing. */
  lemma SameLowRows(rank: Row -> int, rows: seq<Row>, s: seq<Row>, t: seq<Row>, c: int)
    requires Listing(rank, rows, s) && Listing(rank, rows, t)
    ensures |t| == |s| && FirstAbove(rank, t, c) == FirstAbove(rank, s, c)
    ensures multiset(t[..FirstAbove(rank, t, c)]) == multiset(s[..FirstAbove(rank, s, c)])
  {
    var p, q := FirstAbove(rank, s, c), FirstAbove(rank, t, c);
    AboveFromThere(rank, s, c);
    AboveFromThere(rank, t, c);
    forall r ensures multiset(t[..q])[r] == multiset(s[..p])[r] {
      LowPart(rank, s, p, c, r);
      LowPart(rank, t, q, c, r);
    }
    assert multiset(t[..q]) == multiset(s[..p]);
    SameLength(t[..q], s[..p]);
    SameLength(t, s);
  }

  lemma AboveFromThere(rank: Row -> int, s: seq<Row>, c: int)
    requires WeaklySorted(rank, s)
    ensures forall i :: FirstAbove(rank, s, c) <= i < |s| ==> rank(s[i]) > c
  {
  }

  /** Without a mixed tie at p, the first p rows are the same in every listing. */
  lemma SamePrefix(rank: Row -> int, rows: seq<Row>, s: seq<Row>, t: seq<Row>, p: nat)
    requires Listing(rank, rows, s) && Listing(rank, rows, t) && 0 < p < |s| && !MixedTieAt(rank, s, p)
    ensures |t| == |s| && multiset(t[..p]) == multiset(s[..p])
  {
    var c := rank(s[p]);
    SameLowRows(rank, rows, s, t, c - 1);
    SameLowRows(rank, rows, s, t, c);
    var low, high := FirstAbove(rank, s, c - 1), FirstAbove(rank, s, c);
    assert low <= p < high;
    if rank(s[p - 1]) == c {
      EqualGroup(rank, rows, s, t, p);
      assert s[..p] == s[..low] + s[low..p] && t[..p] == t[..low] + t[low..p];
    } else {
      assert low == p;
    }
  }

  /** Rows of one rank that are all equal fill the same places in every listing. */
  lemma EqualGroup(rank: Row -> int, rows: seq<Row>, s: seq<Row>, t: seq<Row>, p: nat)
    requires Listing(rank, rows, s) && Listing(rank, rows, t) && TieAt(rank, s, p) && !MixedTieAt(rank, s, p)
    ensures var low := FirstAbove(rank, s, rank(s[p]) - 1); low <= p <= |t| && t[low..p] == s[low..p]
  {
    var c := rank(s[p]);
    SameLowRows(rank, rows, s, t, c - 1);
    SameLowRows(rank, rows, s, t, c);
    AboveFromThere(rank, s, c);
    var low := FirstAbove(rank, s, c - 1);
    assert low <= p < FirstAbove(rank, s, c);
    forall i | low <= i < p ensures t[i] == s[p] && s[i] == s[p] {
      RankInGroup(rank, s, c, i);
      RankInGroup(rank, t, c, i);
      hide FirstAbove, Listing;
      var j := PlaceIn(rank, rows, s, t, i);
    }
  }

  lemma RankInGroup(rank: Row -> int, s: seq<Row>, c: int, i: nat)
    requires WeaklySorted(rank, s) && FirstAbove(rank, s, c - 1) <= i < FirstAbove(rank, s, c)
    ensures i < |s| && rank(s[i]) == c
  {
    AboveFromThere(rank, s, c - 1);
  }

  lemma PlaceIn(rank: Row -> int, rows: seq<Row>, s: seq<Row>, t: seq<Row>, i: nat) returns (j: nat)
    requires Listing(rank, rows, s) && Listing(rank, rows, t) && i < |t|
    ensures j < |s| && s[j] == t[i]
  {
    assert t[i] in multiset(t) && t[i] in s;
    j :| 0 <= j < |s| && s[j] == t[i];
  }

  /** The end of the k-th page. */
  function Cut(s: seq<Row>, k: nat, size: nat): nat { if k * size <= |s| then k * size else |s| }

  lemma PrefixAtCut(rank: Row -> int, rows: seq<Row>, s: seq<Row>, t: seq<Row>, k: nat, size: nat)
    requires Listing(rank, rows, s) && Listing(rank, rows, t) && size > 0 && !TieAcrossBoundary(rank, s, size)
    ensures |t| == |s| && multiset(t[..Cut(s, k, size)]) == multiset(s[..Cut(s, k, size)])
  {
    var p := Cut(s, k, size);
    assert |multiset(t)| == |t| && |multiset(s)| == |s|;
    if 0 < p < |s| {
      Monotone(k, k * size, 1);
      AtLeast(k, size);
      assert !MixedTieAt(rank, s, k * size);
      SamePrefix(rank, rows, s, t, p);
    } else if p == |s| {
      assert t[..p] == t && s[..p] == s;
    }
  }

  lemma AtLeast(k: nat, size: nat)
    requires size > 0
    ensures k * size >= k
  {
  }

  lemma PageBetweenCuts(t: seq<Row>, k: nat, size: nat)
    ensures t[..Cut(t, k, size)] + Page(t, k * size, size) == t[..Cut(t, k + 1, size)]
  {
  }

  /** The k-th page of any listing holds the rows between two cuts of s. */
  lemma PageOfListing(rank: Row -> int, rows: seq<Row>, s: seq<Row>, t: seq<Row>, k: nat, size: nat)
    requires Listing(rank, rows, s) && Listing(rank, rows, t) && size > 0 && !TieAcrossBoundary(rank, s, size)
    ensures multiset(s[..Cut(s, k + 1, size)]) == multiset(s[..Cut(s, k, size)]) + multiset(Page(t, k * size, size))
  {
    PrefixAtCut(rank, rows, s, t, k, size);
    PrefixAtCut(rank, rows, s, t, k + 1, size);
    PageBetweenCuts(t, k, size);
    hide TieAcrossBoundary, Listing, Page;
    assert multiset(t[..Cut(t, k + 1, size)]) == multiset(t[..Cut(t, k, size)]) + multiset(Page(t, k * size, size));
  }

  lemma {:induction false} TilesOf(rank: Row -> int, rows: seq<Row>, s: seq<Row>, lists: seq<seq<Row>>, size: nat)
    requires Listing(rank, rows, s) && size > 0 && !TieAcrossBoundary(rank, s, size) && Listings(rank, rows, lists)
    ensures multiset(Tiles(lists, size)) == multiset(s[..Cut(s, |lists|, size)])
    decreases |lists|
  {
    if lists != [] {
      hide TieAcrossBoundary, Listing, Page, Cut;
      var k := |lists| - 1;
      TilesOf(rank, rows, s, lists[..k], size);
      PageOfListing(rank, rows, s, lists[k], k, size);
    }
  }

  // ---------------------------------------------------------------- with such a tie

  function Exchanged(s: seq<Row>, i: nat, j: nat): seq<Row>
    requires i < |s| && j < |s|
  {
    s[i := s[j]][j := s[i]]
  }

  lemma ExchangedIsListing(rank: Row -> int, rows: seq<Row>, s: seq<Row>, i: nat, j: nat)
    requires Listing(rank, rows, s) && i < j < |s| && rank(s[i]) == rank(s[j])
    ensures var t := Exchanged(s, i, j);
            Listing(rank, rows, t) && |t| == |s| && t[i] == s[j] && t[j] == s[i]
  {
    var t := Exchanged(s, i, j);
    assert s == s[..i] + [s[i]] + s[i + 1..j] + [s[j]] + s[j + 1..];
    assert t == s[..i] + [s[j]] + s[i + 1..j] + [s[i]] + s[j + 1..];
    assert forall k :: 0 <= k < |s| ==> rank(t[k]) == rank(s[k]);
  }

  /** Some listing has two different rows of one rank right at the boundary. */
  lemma DifferentAtBoundary(rank: Row -> int, rows: seq<Row>, s: seq<Row>, p: nat) returns (t: seq<Row>)
    requires Listing(rank, rows, s) && MixedTieAt(rank, s, p)
    ensures Listing(rank, rows, t) && |t| == |s| && TieAt(rank, t, p) && t[p - 1] != t[p]
  {
    if s[p - 1] != s[p] {
      t := s;
    } else {
      var i :| 0 <= i < |s| && rank(s[i]) == rank(s[p]) && s[i] != s[p];
      if i < p {
        t := BroughtTo(rank, rows, s, i, p - 1, p);
      } else {
        t := BroughtTo(rank, rows, s, i, p, p - 1);
      }
    }
  }

  /** A listing with row i in place j, and place k as it was. */
  lemma BroughtTo(rank: Row -> int, rows: seq<Row>, s: seq<Row>, i: nat, j: nat, k: nat) returns (t: seq<Row>)
    requires Listing(rank, rows, s) && i < |s| && j < |s| && k < |s| && i != j && k != i && k != j
    requires rank(s[i]) == rank(s[j])
    ensures Listing(rank, rows, t) && |t| == |s| && t[j] == s[i] && t[k] == s[k]
  {
    t := Exchanged(s, if i < j then i else j, if i < j then j else i);
    ExchangedIsListing(rank, rows, s, if i < j then i else j, if i < j then j else i);
    hide Listing;
  }

  /** Every query sees s, except the k-th, which sees t. */
  function OneOdd(s: seq<Row>, t: seq<Row>, k: nat, n: nat): (lists: seq<seq<Row>>)
    ensures |lists| == n && forall j :: 0 <= j < n ==> lists[j] == if j == k then t else s
  {
    seq(n, j requires 0 <= j < n => if j == k then t else s)
  }

  /**
   What the pages hold when only the query at boundary p sees the two rows there exchanged: the row before p twice.
   */
  lemma {:induction false} OddTiles(s: seq<Row>, k: nat, size: nat, n: nat, m: nat)
    requires size > 0 && 0 < k * size < |s| && m <= n
    ensures var p := k * size; var lists := OneOdd(s, Exchanged(s, p - 1, p), k, n);
            Tiles(lists[..m], size) == (if m <= k then s else s[p := s[p - 1]])[..Cut(s, m, size)]
  {
    var p := k * size;
    var lists := OneOdd(s, Exchanged(s, p - 1, p), k, n);
    if m > 0 {
      var j := m - 1;
      TilesStep(lists, size, j);
      OddPage(s, k, size, n, j);
      hide Page, Tiles, OneOdd, Exchanged, PageAt;
      OddTiles(s, k, size, n, j);
    } else {
      assert lists[..0] == [];
    }
  }

  lemma OddPage(s: seq<Row>, k: nat, size: nat, n: nat, j: nat)
    requires size > 0 && 0 < k * size < |s| && j < n
    ensures var p := k * size; var lists := OneOdd(s, Exchanged(s, p - 1, p), k, n);
            (if j <= k then s else s[p := s[p - 1]])[..Cut(s, j, size)] + PageAt(lists, size, j)
            == (if j < k then s else s[p := s[p - 1]])[..Cut(s, j + 1, size)]
  {
    var p := k * size;
    var odd := s[p := s[p - 1]];
    NextBatch(j, size);
    Monotone(j + 1, k, size);
    Monotone(k + 1, j, size);
    NextBatch(k, size);
    if j < k {
      PageBetweenCuts(s, j, size);
    } else if j == k {
      assert s[..p] == odd[..p];
      assert Page(Exchanged(s, p - 1, p), p, size) == Page(odd, p, size);
      PageBetweenCuts(odd, k, size);
    } else {
      assert Page(s, j * size, size) == Page(odd, j * size, size);
      PageBetweenCuts(odd, j, size);
    }
  }

  lemma TieBreaksTiling(rank: Row -> int, rows: seq<Row>, s: seq<Row>, k: nat, size: nat)
    requires Listing(rank, rows, s) && size > 0 && MixedTieAt(rank, s, k * size)
    ensures !AlwaysTiles(rank, rows, size)
  {
    var p := k * size;
    var t := DifferentAtBoundary(rank, rows, s, p);
    var n := |t| + k + 1;
    hide Tiles, Listings, OneOdd, Exchanged, MixedTieAt, AlwaysTiles;
    ExchangedIsListing(rank, rows, t, p - 1, p);
    OddListings(rank, rows, t, Exchanged(t, p - 1, p), k, n);
    AllOddTiles(t, k, size, n);
    OneLess(t, p);
    AtLeast(n, size);
    SameRows(rank, rows, t);
    NotAlways(rank, rows, size, OneOdd(t, Exchanged(t, p - 1, p), k, n));
  }

  lemma SameRows(rank: Row -> int, rows: seq<Row>, t: seq<Row>)
    requires Listing(rank, rows, t)
    ensures multiset(t) == multiset(rows) && |t| == |rows|
  {
    SameLength(t, rows);
  }

  lemma OddListings(rank: Row -> int, rows: seq<Row>, s: seq<Row>, t: seq<Row>, k: nat, n: nat)
    requires Listing(rank, rows, s) && Listing(rank, rows, t)
    ensures Listings(rank, rows, OneOdd(s, t, k, n))
  {
  }

  lemma NotAlways(rank: Row -> int, rows: seq<Row>, size: nat, lists: seq<seq<Row>>)
    requires Listings(rank, rows, lists) && |lists| * size >= |rows| && multiset(Tiles(lists, size)) != multiset(rows)
    ensures !AlwaysTiles(rank, rows, size)
  {
  }

  lemma AllOddTiles(t: seq<Row>, k: nat, size: nat, n: nat)
    requires size > 0 && 0 < k * size < |t| && n >= |t|
    ensures var p := k * size;
            Tiles(OneOdd(t, Exchanged(t, p - 1, p), k, n), size) == if n <= k then t else t[p := t[p - 1]]
  {
    var p := k * size;
    var lists := OneOdd(t, Exchanged(t, p - 1, p), k, n);
    OddTiles(t, k, size, n, n);
    AtLeast(n, size);
    assert lists[..n] == lists;
    hide Tiles, OneOdd, Exchanged;
    var all := if n <= k then t else t[p := t[p - 1]];
    assert all[..|t|] == all;
  }

  lemma OneLess(t: seq<Row>, p: nat)
    requires 0 < p < |t| && t[p - 1] != t[p]
    ensures multiset(t[p := t[p - 1]]) != multiset(t)
  {
    var odd := t[p := t[p - 1]];
    assert t == t[..p] + [t[p]] + t[p + 1..] && odd == t[..p] + [t[p - 1]] + t[p + 1..];
    assert multiset(odd)[t[p]] == multiset(t)[t[p]] - 1;
  }

  /**
   Pages of independently evaluated queries tile the result if and only if no mixed tie lies across a page boundary.
   */
  lemma TilesIffNoTieAcross(rank: Row -> int, rows: seq<Row>, s: seq<Row>, size: nat)
    requires Listing(rank, rows, s) && size > 0
    ensures AlwaysTiles(rank, rows, size) <==> !TieAcrossBoundary(rank, s, size)
  {
    if TieAcrossBoundary(rank, s, size) {
      var k: nat :| k <= |s| && MixedTieAt(rank, s, k * size);
      TieBreaksTiling(rank, rows, s, k, size);
    } else {
      SameLength(s, rows);
      forall lists: seq<seq<Row>> | Listings(rank, rows, lists) && |lists| * size >= |rows|
        ensures multiset(Tiles(lists, size)) == multiset(rows)
      {
        TilesOf(rank, rows, s, lists, size);
        assert s[..|s|] == s;
      }
    }
  }

  // ---------------------------------------------------------------- the loop over such listings

  /** What the copy loop commits from its k-th query on: it stops at a page that is short or empty. */
  function LoopOver(lists: seq<seq<Row>>, size: nat, k: nat): seq<Row>
    requires k <= |lists|
    decreases |lists| - k
  {
    if k == |lists| then []
    else
      var page := PageAt(lists, size, k);
      if |page| < size then page else page + LoopOver(lists, size, k + 1)
  }

  predicate SameLengths(lists: seq<seq<Row>>) {
    forall i, j :: 0 <= i < |lists| && 0 <= j < |lists| ==> |lists[i]| == |lists[j]|
  }

  lemma ShortThenEmpty(lists: seq<seq<Row>>, size: nat, k: nat, later: nat)
    requires SameLengths(lists) && k < later < |lists| && |PageAt(lists, size, k)| < size
    ensures PageAt(lists, size, later) == []
  {
    NextBatch(k, size);
    Monotone(k + 1, later, size);
  }

  lemma TilesStep(lists: seq<seq<Row>>, size: nat, k: nat)
    requires k < |lists|
    ensures Tiles(lists[..k + 1], size) == Tiles(lists[..k], size) + PageAt(lists, size, k)
  {
    assert lists[..k + 1][..k] == lists[..k];
  }

  /** Behind a short page all pages are empty. */
  lemma {:induction false} EmptyBehindShort(lists: seq<seq<Row>>, size: nat, k: nat, m: nat)
    requires SameLengths(lists) && k < m <= |lists| && |PageAt(lists, size, k)| < size
    ensures Tiles(lists[..m], size) == Tiles(lists[..k + 1], size)
  {
    if k + 1 < m {
      ShortThenEmpty(lists, size, k, m - 1);
      TilesStep(lists, size, m - 1);
      hide PageAt, Tiles, SameLengths;
      EmptyBehindShort(lists, size, k, m - 1);
    }
  }

  /** The loop commits the pages one after the other. */
  lemma {:induction false} LoopIsTiles(lists: seq<seq<Row>>, size: nat, k: nat)
    requires SameLengths(lists) && k <= |lists|
    ensures Tiles(lists, size) == Tiles(lists[..k], size) + LoopOver(lists, size, k)
    decreases |lists| - k
  {
    hide PageAt, Tiles;
    assert lists[..|lists|] == lists;
    if k < |lists| {
      TilesStep(lists, size, k);
      if |PageAt(lists, size, k)| < size {
        EmptyBehindShort(lists, size, k, |lists|);
      } else {
        LoopIsTiles(lists, size, k + 1);
      }
    }
  }

  /** Whatever listings its queries see, the loop copies every row of a source at rest exactly once. */
  ghost predicate AlwaysCopies(rank: Row -> int, rows: seq<Row>, size: nat) {
    forall lists: seq<seq<Row>> :: Listings(rank, rows, lists) && |lists| * size >= |rows| ==>
      multiset(LoopOver(lists, size, 0)) == multiset(rows)
  }

  /**
   So a full sync of a table without a primary key, which sorts by its first column, copies its source for sure
   if and only if no two rows with the same first value lie on both sides of a page boundary.
   */
  lemma LoopCopiesIffNoTieAcross(rank: Row -> int, rows: seq<Row>, s: seq<Row>, size: nat)
    requires Listing(rank, rows, s) && size > 0
    ensures AlwaysCopies(rank, rows, size) <==> !TieAcrossBoundary(rank, s, size)
  {
    forall lists: seq<seq<Row>> | Listings(rank, rows, lists)
      ensures LoopOver(lists, size, 0) == Tiles(lists, size)
    {
      forall i | 0 <= i < |lists| ensures |lists[i]| == |rows| {
        SameLength(lists[i], rows);
      }
      LoopIsTiles(lists, size, 0);
      assert lists[..0] == [];
    }
    TilesIffNoTieAcross(rank, rows, s, size);
  }

  predicate AllEqual(rows: seq<Row>) { forall i, j :: 0 <= i < |rows| && 0 <= j < |rows| ==> rows[i] == rows[j] }

  /**
   Without any ORDER BY, which is what a failed key lookup leaves a full sync with, one page is all that is safe,
   unless all rows are equal.
   */
  lemma UnorderedCopiesIffOnePage(rows: seq<Row>, size: nat)
    requires size > 0
    ensures AlwaysCopies((r: Row) => 0, rows, size) <==> |rows| <= size || AllEqual(rows)
  {
    var rank := (r: Row) => 0;
    LoopCopiesIffNoTieAcross(rank, rows, rows, size);
    hide AlwaysCopies;
    BoundaryInside(rank, rows, size);
  }

  lemma BoundaryInside(rank: Row -> int, s: seq<Row>, size: nat)
    requires size > 0 && forall r :: rank(r) == 0
    ensures TieAcrossBoundary(rank, s, size) <==> |s| > size && !AllEqual(s)
  {
    if |s| > size && !AllEqual(s) {
      var i, j :| 0 <= i < |s| && 0 <= j < |s| && s[i] != s[j];
      var d := if s[i] != s[size] then i else j;
      assert s[d] != s[size];
      assert MixedTieAt(rank, s, 1 * size);
    }
    if TieAcrossBoundary(rank, s, size) {
      var k: nat :| k <= |s| && MixedTieAt(rank, s, k * size);
      Monotone(1, k, size);
    }
  }

  // ---------------------------------------------------------------- the loop is the copy loop

  /** When every query sees the one listing of a total order, this loop and the copy loop commit the same rows. */
  lemma LoopIsCopy(q: PagedQuery, rows: seq<Row>, events: seq<PageEvent>)
    requires DistinctKeys(rows) && Quiet(events)
    ensures var all := Select(q.order, q.bound, rows);
            CopyPages(q, StartCopy(rows), events).copied
            == LoopOver(seq(|events|, i requires 0 <= i < |events| => all), q.size, 0)
  {
    var all := Select(q.order, q.bound, rows);
    var lists := seq(|events|, i requires 0 <= i < |events| => all);
    StartInv(q, rows);
    LoopFrom(q, StartCopy(rows), events, lists);
    assert events[0..] == events;
    var copied := LoopOver(lists, q.size, 0);
    assert [] + copied == copied;
  }

  lemma {:induction false} LoopFrom(q: PagedQuery, c: Copy, events: seq<PageEvent>, lists: seq<seq<Row>>)
    requires CopyInv(q, c) && c.phase.Fetching? && Quiet(events) && c.batches <= |events| == |lists|
    requires forall k :: 0 <= k < |lists| ==> lists[k] == Select(q.order, q.bound, c.source)
    ensures CopyPages(q, c, events[c.batches..]).copied == c.copied + LoopOver(lists, q.size, c.batches)
    decreases |events| - c.batches
  {
    var k := c.batches;
    if k == |events| {
      assert events[k..] == [] && c.copied + [] == c.copied;
    } else {
      var page := PageAt(lists, q.size, k);
      CopyUnroll(q, c, events, k);
      QuietStep(q, c, events[k]);
      var d := NextPage(q, c, events[k]);
      assert c.source + events[k].arrivals == c.source;
      assert d.copied == c.copied + page by {
        if page == [] { assert c.copied + page == c.copied; }
      }
      if d.phase.Fetching? {
        LoopFrom(q, d, events, lists);
        JoinRows(c.copied, page, LoopOver(lists, q.size, k + 1));
      } else {
        CopyStops(q, d, events[k + 1..]);
      }
    }
  }
}
