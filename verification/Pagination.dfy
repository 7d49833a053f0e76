/** Cursor pagination from the Evidence repository to the client loop that collects all pages. */
module Pagination {
  import opened Sequences
  import opened Sorting

  datatype Row<T> = Row(cursor: int, payload: T)

  datatype Page<T> = Page(data: seq<Row<T>>, hasMore: bool, nextAfterSeq: Option<int>, total: nat)

  datatype EvidencePage<T> = EvidencePage(rows: seq<Row<T>>, truncated: bool)

  const EVIDENCE_ROW_LIMIT := 5000
  const EVIDENCE_PAGE_LIMIT := 25

  // ---- the server ------------------------------------------------------------------------

  /** The cursor column is a key of the selected relation. */
  ghost predicate Keyed<T(!new)>(table: seq<Row<T>>) {
    forall i, j :: 0 <= i < j < |table| ==> table[i].cursor != table[j].cursor
  }

  predicate CursorLeq<T>(a: Row<T>, b: Row<T>) { a.cursor <= b.cursor }

  /** The WHERE clause: past the cursor, and every given filter. */
  function Matching<T>(table: seq<Row<T>>, filter: Row<T> -> bool, after: int): seq<Row<T>> {
    if table == [] then []
    else (if table[0].cursor > after && filter(table[0]) then [table[0]] else []) + Matching(table[1..], filter, after)
  }

  function Select<T>(table: seq<Row<T>>, filter: Row<T> -> bool, after: int): seq<Row<T>> {
    SortBy(CursorLeq<T>, Matching(table, filter, after))
  }

  /** One page: the query asks for one row more than the limit to learn whether more exist. */
  function Collection<T>(table: seq<Row<T>>, filter: Row<T> -> bool, after: int, limit: nat): Page<T> {
    var found := Select(table, filter, after);
    var rows := if |found| > limit + 1 then found[..limit + 1] else found;
    var selected := if |rows| > limit then rows[..limit] else rows;
    Page(selected, |rows| > limit,
         if selected == [] then None else Some(selected[|selected| - 1].cursor),
         |Matching(table, filter, 0)|)
  }

  lemma {:induction false} MatchingRows<T(!new)>(table: seq<Row<T>>, filter: Row<T> -> bool, after: int, r: Row<T>)
    ensures r in Matching(table, filter, after) <==> r in table && r.cursor > after && filter(r)
    decreases |table|
  {
    if table != [] {
      MatchingRows(table[1..], filter, after, r);
      assert table == [table[0]] + table[1..];
    }
  }

  lemma {:induction false} MatchingKeyed<T(!new)>(table: seq<Row<T>>, filter: Row<T> -> bool, after: int)
    requires Keyed(table)
    ensures Keyed(Matching(table, filter, after))
    decreases |table|
  {
    if table != [] {
      var rest := Matching(table[1..], filter, after);
      MatchingKeyed(table[1..], filter, after);
      forall j | 0 <= j < |rest| ensures rest[j].cursor != table[0].cursor {
        MatchingRows(table[1..], filter, after, rest[j]);
        var i :| 0 <= i < |table[1..]| && table[1..][i] == rest[j];
        assert table[i + 1] == rest[j];
      }
    }
  }

  lemma CursorOrder<T(!new)>()
    ensures TotalOrder(CursorLeq<T>)
  {
  }

  ghost function Cursors<T>(rows: seq<Row<T>>): seq<int> {
    seq(|rows|, i requires 0 <= i < |rows| => rows[i].cursor)
  }

  /** Sorting rearranges the matching rows. */
  lemma SelectRows<T(!new)>(table: seq<Row<T>>, filter: Row<T> -> bool, after: int)
    ensures multiset(Select(table, filter, after)) == multiset(Matching(table, filter, after))
    ensures |Select(table, filter, after)| == |Matching(table, filter, after)|
    ensures forall r :: r in Select(table, filter, after) <==> r in table && r.cursor > after && filter(r)
  {
    var m, s := Matching(table, filter, after), Select(table, filter, after);
    SortBySorts(CursorLeq<T>, m);
    assert multiset(s) == multiset(m);
    hide *;
    assert |s| == |multiset(s)| == |multiset(m)| == |m|;
    forall r ensures r in s <==> r in table && r.cursor > after && filter(r) {
      MatchingRows(table, filter, after, r);
      assert r in s <==> r in multiset(s);
      assert r in m <==> r in multiset(m);
    }
  }

  /** The selected rows come in strictly increasing cursor order and are exactly the matching ones. */
  lemma SelectExact<T(!new)>(table: seq<Row<T>>, filter: Row<T> -> bool, after: int)
    requires Keyed(table)
    ensures StrictlyIncreasing(Cursors(Select(table, filter, after)))
    ensures forall r :: r in Select(table, filter, after) <==> r in table && r.cursor > after && filter(r)
    ensures |Select(table, filter, after)| == |Matching(table, filter, after)|
  {
    var m, s := Matching(table, filter, after), Select(table, filter, after);
    CursorOrder<T>();
    SortBySorts(CursorLeq<T>, m);
    MatchingKeyed(table, filter, after);
    SelectRows(table, filter, after);
    hide SortBy, Select, Matching, Keyed, TotalOrder;
    forall i, j | 0 <= i < j < |s| ensures s[i].cursor < s[j].cursor {
      assert CursorLeq(s[i], s[j]);
      EqualCursorsEqualRows(m, s, i, j);
    }
  }

  /** A keyed list holds each row once, so no arrangement of it repeats a cursor. */
  lemma EqualCursorsEqualRows<T(!new)>(m: seq<Row<T>>, s: seq<Row<T>>, i: nat, j: nat)
    requires Keyed(m) && multiset(m) == multiset(s) && i < j < |s|
    ensures s[i].cursor != s[j].cursor
  {
    assert s[i] in multiset(m) && s[j] in multiset(m);
    assert s[i] in m && s[j] in m;
    if s[i] == s[j] {
      RowOnce(m, s[i]);
      Twice(s, i, j);
      assert false;
    }
  }

  lemma {:induction false} RowOnce<T(!new)>(m: seq<Row<T>>, r: Row<T>)
    requires Keyed(m)
    ensures multiset(m)[r] <= 1
    decreases |m|
  {
    if m != [] {
      var n := |m| - 1;
      assert m == m[..n] + [m[n]];
      RowOnce(m[..n], r);
      if r == m[n] { assert r !in m[..n]; }
    }
  }

  /** The cursor a client holds after reading `p` rows in order. */
  function CursorAt<T>(all: seq<Row<T>>, p: nat): int
    requires p <= |all|
  {
    if p == 0 then 0 else all[p - 1].cursor
  }

  /** The rows past the `p`-th cursor are those from position `p` on. */
  lemma RestRows<T>(all: seq<Row<T>>, p: nat, r: Row<T>)
    requires p <= |all|
    requires forall i, j :: 0 <= i < j < |all| ==> all[i].cursor < all[j].cursor
    requires forall x :: x in all ==> x.cursor > 0
    ensures r in all[p..] <==> r in all && r.cursor > CursorAt(all, p)
  {
    if r in all[p..] {
      var i :| 0 <= i < |all[p..]| && all[p..][i] == r;
      assert all[p + i] == r;
    }
    if r in all && r.cursor > CursorAt(all, p) {
      var i :| 0 <= i < |all| && all[i] == r;
      assert i >= p;
      assert all[p..][i - p] == r;
    }
  }

  /** Asking past the `p`-th cursor gives the rest of the list: no repeat and no gap. */
  lemma SelectContinues<T(!new)>(table: seq<Row<T>>, filter: Row<T> -> bool, p: nat)
    requires Keyed(table) && p <= |Select(table, filter, 0)|
    ensures Select(table, filter, CursorAt(Select(table, filter, 0), p)) == Select(table, filter, 0)[p..]
  {
    hide Select, Matching, Cursors;
    var all := Select(table, filter, 0);
    var c := CursorAt(all, p);
    SelectExact(table, filter, 0);
    SelectExact(table, filter, c);
    CursorsOrdered(all);
    hide StrictlyIncreasing, Keyed;
    if p > 0 { assert all[p - 1] in all; }
    assert c >= 0;
    hide CursorAt;
    forall r ensures r in Select(table, filter, c) <==> r in all[p..] {
      RestRows(all, p, r);
    }
    SameRows(Select(table, filter, c), all[p..], table);
  }

  lemma CursorsOrdered<T(!new)>(rows: seq<Row<T>>)
    requires StrictlyIncreasing(Cursors(rows))
    ensures forall i, j :: 0 <= i < j < |rows| ==> rows[i].cursor < rows[j].cursor
  {
    forall i, j | 0 <= i < j < |rows| ensures rows[i].cursor < rows[j].cursor {
      assert Cursors(rows)[i] < Cursors(rows)[j];
    }
  }

  /** Two lists of table rows in strict cursor order with the same rows are the same list. */
  lemma SameRows<T(!new)>(a: seq<Row<T>>, b: seq<Row<T>>, table: seq<Row<T>>)
    requires Keyed(table) && StrictlyIncreasing(Cursors(a))
    requires forall i, j :: 0 <= i < j < |b| ==> b[i].cursor < b[j].cursor
    requires forall r :: r in a <==> r in b
    requires forall r :: r in a ==> r in table
    ensures a == b
  {
    var ca, cb := Cursors(a), Cursors(b);
    forall x ensures x in ca <==> x in cb {
      if x in ca {
        var i :| 0 <= i < |a| && ca[i] == x;
        assert a[i] in b;
        var j :| 0 <= j < |b| && b[j] == a[i];
        assert cb[j] == x;
      }
      if x in cb {
        var i :| 0 <= i < |b| && cb[i] == x;
        assert b[i] in a;
        var j :| 0 <= j < |a| && a[j] == b[i];
        assert ca[j] == x;
      }
    }
    IncreasingUnique(ca, cb);
    forall i | 0 <= i < |a| ensures a[i] == b[i] {
      assert ca[i] == cb[i];
      assert a[i] in a && b[i] in b;
      assert a[i] in table && b[i] in table;
    }
  }

  // ---- the client ------------------------------------------------------------------------

  function Smaller(a: int, b: int): int { if a < b then a else b }

  /** The page a client receives after reading `p` rows in order. */
  lemma PageAt<T(!new)>(table: seq<Row<T>>, filter: Row<T> -> bool, limit: nat, p: nat)
    requires Keyed(table) && limit >= 1 && p <= |Select(table, filter, 0)|
    ensures var all := Select(table, filter, 0);
            var page := Collection(table, filter, CursorAt(all, p), limit);
            && page.data == all[p..Smaller(p + limit, |all|)]
            && (page.hasMore <==> |all| > p + limit)
            && (page.data != [] ==> page.nextAfterSeq == Some(CursorAt(all, p + |page.data|)))
            && page.nextAfterSeq != Some(CursorAt(all, p))
            && page.total == |all|
  {
    hide Select, Matching;
    var all := Select(table, filter, 0);
    SelectContinues(table, filter, p);
    SelectExact(table, filter, 0);
    CursorsOrdered(all);
    hide StrictlyIncreasing, Keyed, Cursors;
    assert forall i :: 0 <= i < |all| ==> all[i] in all;
    PageSlice(all, p, limit);
  }

  /** The first `limit` of the rows from `p` on, read with one row to spare. */
  lemma PageSlice<T>(all: seq<Row<T>>, p: nat, limit: nat)
    requires p <= |all|
    ensures var found := all[p..];
            var rows := if |found| > limit + 1 then found[..limit + 1] else found;
            var selected := if |rows| > limit then rows[..limit] else rows;
            selected == all[p..Smaller(p + limit, |all|)] && (|rows| > limit <==> |all| > p + limit)
  {
  }

  /**
    The loop over pages. `rows` is a prefix of the matching rows with positive cursor, in cursor
    order; `truncated` is true exactly when a matching row is missing.
   */
  method AllPages<T(!new)>(table: seq<Row<T>>, filter: Row<T> -> bool, limit: nat)
    returns (r: EvidencePage<T>, requests: nat)
    requires Keyed(table) && limit >= 1
    ensures var all := Select(table, filter, 0);
            && r.rows <= all
            && |r.rows| == Smaller(|all|, Smaller(5000, 25 * limit))
            && (r.truncated <==> r.rows != all)
    ensures 1 <= requests <= 25 && |r.rows| <= requests * limit
  {
    hide Select, Collection, CursorAt, Keyed;
    ghost var all := Select(table, filter, 0);
    var rows: seq<Row<T>> := [];
    var afterSeq := 0;
    var pageCount := 1;
    requests := 0;
    StartCursor(all);
    while pageCount <= EVIDENCE_PAGE_LIMIT
      invariant 1 <= pageCount <= EVIDENCE_PAGE_LIMIT + 1
      invariant requests == pageCount - 1
      invariant |rows| == (pageCount - 1) * limit
      invariant |rows| < EVIDENCE_ROW_LIMIT && |rows| <= |all| && rows == all[..|rows|]
      invariant pageCount > 1 ==> |rows| < |all|
      invariant afterSeq == CursorAt(all, |rows|)
    {
      PageAt(table, filter, limit, |rows|);
      LimitGrows(pageCount, limit);
      var page := Collection(table, filter, afterSeq, limit);
      requests := requests + 1;
      var remaining := EVIDENCE_ROW_LIMIT - |rows|;
      rows := rows + (if |page.data| > remaining then page.data[..remaining] else page.data);
      if !page.hasMore || page.nextAfterSeq.None? {
        r := EvidencePage(rows, |page.data| > remaining);
        return;
      }
      if |rows| >= EVIDENCE_ROW_LIMIT || pageCount >= EVIDENCE_PAGE_LIMIT || page.nextAfterSeq == Some(afterSeq) {
        r := EvidencePage(rows, true);
        return;
      }
      afterSeq := page.nextAfterSeq.value;
      pageCount := pageCount + 1;
    }
    r := EvidencePage(rows, true);
  }

  lemma StartCursor<T>(all: seq<Row<T>>)
    ensures CursorAt(all, 0) == 0
  {
  }

  lemma LimitGrows(pageCount: nat, limit: nat)
    requires 1 <= pageCount <= EVIDENCE_PAGE_LIMIT
    ensures pageCount * limit == (pageCount - 1) * limit + limit <= EVIDENCE_PAGE_LIMIT * limit
  {
    assert (EVIDENCE_PAGE_LIMIT - pageCount) * limit >= 0;
  }

  // ---- why the cursor has to be a key ----------------------------------------------------

  /** When a page ends between two rows with one cursor, the next page does not have the second. */
  lemma SharedCursorLosesRow<T(!new)>(table: seq<Row<T>>, filter: Row<T> -> bool, p: nat)
    requires 0 < p < |Select(table, filter, 0)|
    requires Select(table, filter, 0)[p].cursor == Select(table, filter, 0)[p - 1].cursor
    ensures Select(table, filter, 0)[p] !in Select(table, filter, CursorAt(Select(table, filter, 0), p))
  {
    var c := CursorAt(Select(table, filter, 0), p);
    var r := Select(table, filter, 0)[p];
    MatchingRows(table, filter, c, r);
    SortBySorts(CursorLeq<T>, Matching(table, filter, c));
    assert r in Select(table, filter, c) <==> r in multiset(Select(table, filter, c));
    assert r in Matching(table, filter, c) <==> r in multiset(Matching(table, filter, c));
  }
}
