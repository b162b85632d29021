/** The two tables the comparison works on: the per-page metrics that the
    search-analytics fetch yields for one period, and the outer-joined table
    with its two delta columns. */
module Metrics {

  datatype Option<+T> = None | Some(value: T)

  /** One row of a fetched table: a page, its clicks and its average position. */
  datatype MetricRow = MetricRow(page: string, clicks: int, position: real)

  /** One row of the joined table: the baseline ("old") and current ("new")
      metrics of one page, zero where that side had no row, and the two deltas. */
  datatype CombinedRow = CombinedRow(
    page: string,
    clicksOld: int,
    clicksNew: int,
    positionOld: real,
    positionNew: real,
    clickChange: int,
    posChange: real)

  /** The set of pages a fetched table mentions. */
  function Pages(rows: seq<MetricRow>): (ps: set<string>)
    ensures forall i :: 0 <= i < |rows| ==> rows[i].page in ps
  {
    if rows == [] then {} else {rows[0].page} + Pages(rows[1..])
  }

  /** The set of pages a joined table mentions. */
  function RowPages(rows: seq<CombinedRow>): (ps: set<string>)
    ensures forall i :: 0 <= i < |rows| ==> rows[i].page in ps
  {
    if rows == [] then {} else {rows[0].page} + RowPages(rows[1..])
  }

  /** A fetched table is keyed by page: no page occurs twice. */
  predicate UniquePages(rows: seq<MetricRow>) {
    forall i, j :: 0 <= i < j < |rows| ==> rows[i].page != rows[j].page
  }

  /** A joined table has one row per page. */
  predicate UniqueRowPages(rows: seq<CombinedRow>) {
    forall i, j :: 0 <= i < j < |rows| ==> rows[i].page != rows[j].page
  }

  /** The row of `rows` for `page`, if the table has one. */
  function Lookup(rows: seq<MetricRow>, page: string): (r: Option<MetricRow>)
    ensures r.Some? <==> page in Pages(rows)
    ensures r.Some? ==> r.value in rows && r.value.page == page
  {
    if rows == [] then None
    else if rows[0].page == page then Some(rows[0])
    else Lookup(rows[1..], page)
  }

  /** In a table keyed by page, looking up the page of any of its rows finds that very row. */
  lemma {:induction false} LookupFindsRow(rows: seq<MetricRow>, i: nat)
    requires UniquePages(rows)
    requires i < |rows|
    ensures Lookup(rows, rows[i].page) == Some(rows[i])
  {
    if i > 0 {
      assert rows[0].page != rows[i].page;
      assert UniquePages(rows[1..]) by {
        forall a, b | 0 <= a < b < |rows| - 1 ensures rows[1..][a].page != rows[1..][b].page {
          assert rows[1..][a] == rows[a + 1] && rows[1..][b] == rows[b + 1];
        }
      }
      LookupFindsRow(rows[1..], i - 1);
    }
  }

  /** A joined table with one row per page has exactly as many rows as pages. */
  lemma {:induction false} UniqueRowsCount(rows: seq<CombinedRow>)
    requires UniqueRowPages(rows)
    ensures |RowPages(rows)| == |rows|
  {
    if rows != [] {
      var tail := rows[1..];
      assert UniqueRowPages(tail) by {
        forall a, b | 0 <= a < b < |tail| ensures tail[a].page != tail[b].page {
          assert tail[a] == rows[a + 1] && tail[b] == rows[b + 1];
        }
      }
      UniqueRowsCount(tail);
      RowPagesMembers(tail, rows[0].page);
    }
  }

  /** A page is in RowPages exactly when some row carries it. */
  lemma {:induction false} RowPagesMembers(rows: seq<CombinedRow>, p: string)
    ensures p in RowPages(rows) <==> exists k :: 0 <= k < |rows| && rows[k].page == p
  {
    if rows != [] {
      RowPagesMembers(rows[1..], p);
      if p in RowPages(rows[1..]) {
        var k :| 0 <= k < |rows[1..]| && rows[1..][k].page == p;
        assert rows[k + 1].page == p;
      }
      if exists k :: 0 <= k < |rows| && rows[k].page == p {
        var k :| 0 <= k < |rows| && rows[k].page == p;
        if k > 0 { assert rows[1..][k - 1].page == p; }
      }
    }
  }

  /** A page is in Pages exactly when some row carries it. */
  lemma {:induction false} PagesMembers(rows: seq<MetricRow>, p: string)
    ensures p in Pages(rows) <==> exists k :: 0 <= k < |rows| && rows[k].page == p
  {
    if rows != [] {
      PagesMembers(rows[1..], p);
      if p in Pages(rows[1..]) {
        var k :| 0 <= k < |rows[1..]| && rows[1..][k].page == p;
        assert rows[k + 1].page == p;
      }
      if exists k :: 0 <= k < |rows| && rows[k].page == p {
        var k :| 0 <= k < |rows| && rows[k].page == p;
        if k > 0 { assert rows[1..][k - 1].page == p; }
      }
    }
  }

  /** The pages of two joined tables laid end to end. */
  lemma {:induction false} RowPagesAppend(a: seq<CombinedRow>, b: seq<CombinedRow>)
    ensures RowPages(a + b) == RowPages(a) + RowPages(b)
  {
    if a != [] {
      assert (a + b)[1..] == a[1..] + b;
      RowPagesAppend(a[1..], b);
    } else {
      assert a + b == b;
    }
  }

  /** Two joined tables, each with one row per page and no page in common,
      laid end to end still have one row per page. */
  lemma UniqueAppend(a: seq<CombinedRow>, b: seq<CombinedRow>)
    requires UniqueRowPages(a) && UniqueRowPages(b)
    requires RowPages(a) !! RowPages(b)
    ensures UniqueRowPages(a + b)
  {
    var ab := a + b;
    forall i, j | 0 <= i < j < |ab| ensures ab[i].page != ab[j].page {
      if i < |a| && |a| <= j {
        assert ab[i] == a[i] && ab[j] == b[j - |a|];
        assert a[i].page in RowPages(a) && b[j - |a|].page in RowPages(b);
      } else if |a| <= i {
        assert ab[i] == b[i - |a|] && ab[j] == b[j - |a|];
      }
    }
  }
}
