/** The outer join of the baseline and current tables on the page
    (identify_top_pages, first step): every page of either table gets one
    joined row, a side without a row for it is filled with zeros, and the
    click and position deltas are computed per row. */
module Join {
  import opened Metrics

  /** The clicks of an optional row, zero when the table had no row (the zero fill). */
  function ClicksOrZero(r: Option<MetricRow>): int {
    if r.Some? then r.value.clicks else 0
  }

  /** The position of an optional row, zero when the table had no row (the zero fill). */
  function PositionOrZero(r: Option<MetricRow>): real {
    if r.Some? then r.value.position else 0.0
  }

  /** The joined row of one page from its baseline and current rows, if any:
      each side zero-filled where its table has no row, then the two deltas. */
  function Combine(page: string, baseline: Option<MetricRow>, current: Option<MetricRow>): (c: CombinedRow)
    ensures c.page == page
    ensures baseline.None? ==> c.clicksOld == 0 && c.positionOld == 0.0
    ensures baseline.Some? ==> c.clicksOld == baseline.value.clicks && c.positionOld == baseline.value.position
    ensures current.None? ==> c.clicksNew == 0 && c.positionNew == 0.0
    ensures current.Some? ==> c.clicksNew == current.value.clicks && c.positionNew == current.value.position
    ensures c.clickChange == c.clicksNew - c.clicksOld && c.posChange == c.positionNew - c.positionOld
  {
    var clicksOld, clicksNew := ClicksOrZero(baseline), ClicksOrZero(current);
    var positionOld, positionNew := PositionOrZero(baseline), PositionOrZero(current);
    CombinedRow(page, clicksOld, clicksNew, positionOld, positionNew,
                clicksNew - clicksOld, positionNew - positionOld)
  }

  /** The joined rows of the baseline pages, in baseline order, each matched
      with the current table's row for the same page. */
  function Matched(olds: seq<MetricRow>, news: seq<MetricRow>): (rows: seq<CombinedRow>)
    ensures |rows| == |olds|
    ensures forall i :: 0 <= i < |olds| ==>
      rows[i] == Combine(olds[i].page, Some(olds[i]), Lookup(news, olds[i].page))
    ensures RowPages(rows) == Pages(olds)
  {
    if olds == [] then []
    else [Combine(olds[0].page, Some(olds[0]), Lookup(news, olds[0].page))] + Matched(olds[1..], news)
  }

  /** The joined rows of the current pages that the baseline lacks, in current order. */
  function NewOnly(news: seq<MetricRow>, olds: seq<MetricRow>): (rows: seq<CombinedRow>)
    requires UniquePages(news)
    ensures RowPages(rows) == Pages(news) - Pages(olds)
    ensures UniqueRowPages(rows)
    ensures forall c :: c in rows ==> c == Combine(c.page, None, Lookup(news, c.page))
  {
    if news == [] then []
    else
      assert UniquePages(news[1..]) by {
        forall a, b | 0 <= a < b < |news| - 1 ensures news[1..][a].page != news[1..][b].page {
          assert news[1..][a] == news[a + 1] && news[1..][b] == news[b + 1];
        }
      }
      var rest := NewOnly(news[1..], olds);
      PagesMembers(news[1..], news[0].page);
      if news[0].page in Pages(olds) then rest
      else
        var head := [Combine(news[0].page, None, Some(news[0]))];
        UniqueAppend(head, rest);
        RowPagesAppend(head, rest);
        head + rest
  }

  /** The full outer join of the baseline table `olds` and the current table
      `news` on the page, zero-filled. Row order: the baseline's rows in order,
      then the current-only rows in order. */
  function OuterJoin(olds: seq<MetricRow>, news: seq<MetricRow>): (joined: seq<CombinedRow>)
    requires UniquePages(olds) && UniquePages(news)
    ensures RowPages(joined) == Pages(olds) + Pages(news)
    ensures UniqueRowPages(joined)
    ensures |joined| == |Pages(olds) + Pages(news)|
    ensures forall c :: c in joined ==>
      c == Combine(c.page, Lookup(olds, c.page), Lookup(news, c.page))
  {
    var matched, rest := Matched(olds, news), NewOnly(news, olds);
    MatchedRows(olds, news);
    UniqueAppend(matched, rest);
    RowPagesAppend(matched, rest);
    UniqueRowsCount(matched + rest);
    matched + rest
  }

  /** The matched rows have one row per page, and each holds what both tables have for its page. */
  lemma MatchedRows(olds: seq<MetricRow>, news: seq<MetricRow>)
    requires UniquePages(olds)
    ensures UniqueRowPages(Matched(olds, news))
    ensures forall c :: c in Matched(olds, news) ==>
      c == Combine(c.page, Lookup(olds, c.page), Lookup(news, c.page))
  {
    var matched := Matched(olds, news);
    forall i, j | 0 <= i < j < |matched| ensures matched[i].page != matched[j].page {
      assert matched[i].page == olds[i].page && matched[j].page == olds[j].page;
    }
    forall c | c in matched ensures c == Combine(c.page, Lookup(olds, c.page), Lookup(news, c.page)) {
      var i :| 0 <= i < |matched| && matched[i] == c;
      LookupFindsRow(olds, i);
    }
  }

  /** Every page of either table has a row in the join. */
  lemma JoinCoversPages(olds: seq<MetricRow>, news: seq<MetricRow>, p: string)
    requires UniquePages(olds) && UniquePages(news)
    requires p in Pages(olds) + Pages(news)
    ensures exists c :: c in OuterJoin(olds, news) && c.page == p
  {
    var joined := OuterJoin(olds, news);
    RowPagesMembers(joined, p);
    var k :| 0 <= k < |joined| && joined[k].page == p;
    assert joined[k] in joined;
  }

  /** Each joined row carries the metrics of its page from each table, and
      zeros for a table that has no row for it; a page only in the current
      table thus has old clicks 0 and old position 0. */
  lemma JoinZeroFill(olds: seq<MetricRow>, news: seq<MetricRow>, c: CombinedRow)
    requires UniquePages(olds) && UniquePages(news)
    requires c in OuterJoin(olds, news)
    ensures c.page in Pages(olds) || c.page in Pages(news)
    ensures c.page in Pages(olds) ==>
      exists o :: o in olds && o.page == c.page && c.clicksOld == o.clicks && c.positionOld == o.position
    ensures c.page in Pages(news) ==>
      exists n :: n in news && n.page == c.page && c.clicksNew == n.clicks && c.positionNew == n.position
    ensures c.page !in Pages(olds) ==> c.clicksOld == 0 && c.positionOld == 0.0
    ensures c.page !in Pages(news) ==> c.clicksNew == 0 && c.positionNew == 0.0
  {
    var joined := OuterJoin(olds, news);
    RowPagesMembers(joined, c.page);
    if c.page in Pages(olds) {
      var o := Lookup(olds, c.page).value;
      assert o in olds && o.page == c.page && c.clicksOld == o.clicks && c.positionOld == o.position;
    }
    if c.page in Pages(news) {
      var n := Lookup(news, c.page).value;
      assert n in news && n.page == c.page && c.clicksNew == n.clicks && c.positionNew == n.position;
    }
  }

  /** Every joined row's delta columns are the current value minus the baseline value. */
  lemma JoinDeltas(olds: seq<MetricRow>, news: seq<MetricRow>)
    requires UniquePages(olds) && UniquePages(news)
    ensures forall c :: c in OuterJoin(olds, news) ==>
      c.clickChange == c.clicksNew - c.clicksOld && c.posChange == c.positionNew - c.positionOld
  {
  }

  /** With an empty current table the join is the baseline itself, row for
      row, with zero current clicks and positions, so every click change is
      the negated baseline clicks. */
  lemma JoinWithEmptyCurrent(olds: seq<MetricRow>)
    requires UniquePages(olds)
    ensures |OuterJoin(olds, [])| == |olds|
    ensures forall i :: 0 <= i < |olds| ==>
      var c := OuterJoin(olds, [])[i];
      && c.page == olds[i].page
      && c.clicksOld == olds[i].clicks && c.positionOld == olds[i].position
      && c.clicksNew == 0 && c.positionNew == 0.0
      && c.clickChange == -olds[i].clicks
  {
    assert NewOnly([], olds) == [];
    assert OuterJoin(olds, []) == Matched(olds, []);
  }
}
