# GSC top pages: week-over-week comparator and insights

A model of the comparison core of a small Search Console reporting tool, `app_top_pages.py`. The tool fetches per-page clicks and average positions for a baseline week and a current week. It outer-joins the two tables on the page and fills missing values with zero. It then computes each page's click change and position change and keeps the eight pages with the largest click change and the eight with the smallest. Finally it writes one templated insight per kept page.

Modules:

- `Metrics` (metrics.dfy): the fetched row `MetricRow(page, clicks, position)` and the joined row `CombinedRow(page, clicksOld, clicksNew, positionOld, positionNew, clickChange, posChange)`. Also the page sets of both tables, the "one row per page" predicates and a lookup by page. Positions are exact `real`s.
- `Join` (join.dfy): `identify_top_pages`' merge with `fillna(0)` and its two delta columns, as the function `OuterJoin`.
- `Ranking` (ranking.dfy): `nlargest(8, 'Click Change')` and `nsmallest(8, 'Click Change')`. Both are modelled as `Select` over a stable insertion sort. `IdentifyTopPages` composes the join and the two selections.
- `Insights` (insights.dfy): `generate_page_insights`. The decision lists are the specification functions `DescribeImprovement` and `DescribeDrop`. The loop that appends one insight per row is the method `GeneratePageInsights`, proved to produce exactly `Describe(rows[i], isImprovement)` at each index. The module also holds the `:+` signed-integer rendering with its parser and round trip, and the message text of each insight.
- `Scenario` (scenarios.dfy): a worked two-page example, proved about the model.

Modelling choices:

- Each input table has one row per page (`UniquePages`). That is how the search-analytics API groups rows. With duplicate keys, pandas would produce a cross product, which this model does not.
- Join order: baseline rows in baseline order, then the current-only rows in current order. pandas documents that an outer merge sorts the keys instead. The model characterises the join's contents independently of order: its page set, one row per page, and each row's values. The order still matters for ties in the ranking (see "## Left out").
- Ties in the ranking go to the row that comes earlier in the joined table. This is stated as: for every click-change value, the selected rows with that value are a prefix of the joined table's rows with that value, in the same order.
- The model's join also accepts empty tables. In the source, the caller skips the comparison when either fetched table is empty (app_top_pages.py:113). A fetch that returns no rows yields a pandas frame with no columns, and merging such a frame on `Page` would fail. The guard keeps that from happening.
- Clicks are integers. `int(row['Click Change'])` in the messages is therefore the click change itself.

## Model

| member | source | states |
|---|---|---|
| `Join.Combine` | app_top_pages.py:30-37 | The joined row of one page. Each side holds that table's clicks and position for the page, or 0 and 0 when the table has no row for it. The click change and position change are the current values minus the baseline values, exactly. |
| `Join.OuterJoin` | app_top_pages.py:30 | The join's pages are exactly the union of both tables' pages. It has one row per page, so its length is the size of that union. Each row holds its page's metrics from each table, or zero for a table without a row for that page. |
| `Join.JoinCoversPages` | app_top_pages.py:30 | Every page of either table has a row in the join. |
| `Join.JoinZeroFill` | app_top_pages.py:30 | A joined row's old (new) side equals the baseline (current) row of its page when one exists. Otherwise that side has clicks 0 and position 0, so a page only in the current table has `clicksOld == 0` and `positionOld == 0`. |
| `Join.JoinDeltas` | app_top_pages.py:36-37 | Every joined row has `clickChange == clicksNew - clicksOld` and `posChange == positionNew - positionOld`, exactly. |
| `Join.JoinWithEmptyCurrent` | app_top_pages.py:30-37 | With an empty current table, the join is the baseline row for row. Every current side is zero and every click change is the negated baseline clicks. |
| `Ranking.Sort` | app_top_pages.py:40-41 | The order both selections draw from: ranked by click change (descending for `Largest`, ascending for `Smallest`) and a permutation of its input. |
| `Ranking.SortStable` | app_top_pages.py:40-41 | The sort keeps rows of equal click change in input order. This is the earlier-row-wins tie-break. |
| `Ranking.Select` | app_top_pages.py:40-41 | Returns `min(k, n)` rows, ranked, a sub-multiset of the input, and all rows when `n <= k`. No unselected row ranks above a selected one. Ties keep input order. |
| `Ranking.IdentifyTopPages` | app_top_pages.py:27-42 | Two tables of `min(8, |join|)` rows each. The improved table is sorted by click change descending and the dropped table ascending. Both are drawn from the join. Every unselected row's click change is at most the improved table's (at least the dropped table's). Both are the whole join when it has at most 8 rows. Ties are broken by join order. |
| `Insights.DescribeImprovement` | app_top_pages.py:48-54 | The improved-row decision list, tried in order with the first match winning: "started ranking", then "position improved", then "fluctuation" (the exact condition of each is `Insights.ImprovementCategories`). The insight carries the row's page and click change. It is never "position decreased". "Started ranking" reports the current position; "position improved" reports both positions. |
| `Insights.DescribeDrop` | app_top_pages.py:55-59 | The dropped-row decision list, tried in order with the first match winning: "position decreased", then "fluctuation" (the exact conditions are `Insights.DropCategories`). The result is one of those two. The insight carries the row's page and click change, and "position decreased" reports both positions. |
| `Insights.Describe` | app_top_pages.py:48-59 | Dispatches on `is_improvement` between the two lists. An improved row never gets "position decreased"; a dropped row never gets "started ranking" or "position improved". |
| `Insights.GeneratePageInsights` | app_top_pages.py:44-60 | One insight per input row, in order. Insight `i` is the classification of row `i` alone, under the improved or the dropped decision list. |
| `Insights.DescribeReportsRow` | app_top_pages.py:50-59 | Every message names its row's page and reports its row's click change. |
| `Insights.ImprovementCategories` | app_top_pages.py:48-54 | Improved rows: "started ranking" exactly when `clicksOld == 0` and the change is positive, reporting the current position. "Position improved" exactly when clicks existed before, the change is positive and the position fell, reporting both positions. "Fluctuation" in every other case. Never "position decreased". |
| `Insights.DropCategories` | app_top_pages.py:55-59 | Dropped rows: "position decreased" exactly when the change is negative and the position rose, reporting both positions. Otherwise "fluctuation". Never "started ranking" or "position improved". |
| `Insights.NewPageStartsRanking` | app_top_pages.py:49-50 | A joined page with no baseline row and positive current clicks gets "started ranking", with its current clicks as the change and its current position. |
| `Insights.ZeroClickBaselineStartsRanking` | app_top_pages.py:49-50 | A page whose baseline row has 0 clicks also gets "started ranking" when it gains clicks. The zero fill cannot tell it from a page with no baseline row. |
| `Insights.FormatSigned` | app_top_pages.py:50 | The `:+` rendering of the click change: at least two characters, `+` first exactly for non-negative numbers (zero included) and `-` exactly for negative ones. |
| `Insights.Digits` | app_top_pages.py:50 | Decimal digits with no leading zero (only zero itself starts with `0`). |
| `Insights.FormatSignedRoundTrip` | app_top_pages.py:50 | Parsing the signed rendering gives back the click change. |
| `Insights.Render` | app_top_pages.py:50-59 | Every message starts with `<page> (<signed change>) ` and ends with a full stop. |
| `Scenario.ScenarioJoin` | app_top_pages.py:30-37 | Baseline `/a` (10 clicks, position 5) and current `/a` (20, 3) and `/b` (5, 8) join to two rows. `/a` changes by +10 clicks and -2 positions. `/b` has zero old clicks and position. |
| `Scenario.ScenarioSelect` | app_top_pages.py:40-41 | Those two rows rank `/a`, `/b` by largest change and `/b`, `/a` by smallest. |
| `Scenario.ScenarioTopPages` | app_top_pages.py:27-42 | For that input, the comparison returns `/a`, `/b` as the improved table and `/b`, `/a` as the dropped table. |
| `Scenario.TwoPageScenario` | app_top_pages.py:44-54 | The improved table of that input has two insights: `/a` as "position improved" from 5 to 3, then `/b` as "started ranking" at position 8. |

## Left out

- `fetch_search_console_data` (app_top_pages.py:7-25) is a call into the Google API client and reports errors to the UI. It is I/O and a foreign library. The model starts from the two fetched tables.
- The Streamlit UI (app_top_pages.py:62-134) is left out: credential upload and parsing, building the service client, the domain and date widgets with their validation messages, the empty-table guard at line 113, and the table and bullet rendering. All of it is presentation and I/O.
- The debug `st.write` of the merged frame (app_top_pages.py:33) is a UI side effect.
- Join row order: pandas sorts an outer merge's keys, so in the source a tie in click change across the eighth place goes to the page that sorts first. The model's join lists baseline rows first, then current-only rows, and ties go to the earlier row in that order. So when several rows tie at the cut-off, the join order decides which of them are kept in the ranked tables at all, not just the order they are shown in. For example, with three rows tied at a click change of -1 in join order `/c`, `/b`, `/a`, keeping two of them keeps `/c` and `/b`, where the source would keep `/a` and `/b`.
- pandas' exact tie-breaking in `nlargest`/`nsmallest` is replaced by the stable "earlier row wins" rule above.
- Duplicate pages within one input table are excluded by precondition. The real API never returns them.
- Float behaviour is not modelled: NaN beyond the zero fill, binary rounding of positions, and the `:.1f` rendering of positions. `Insights.Render` takes the position formatter as a parameter.
- Insights.Render: the contract states only the shared header and the trailing full stop. The exact wording of each message is given by its body.
- Idempotence (same inputs, same outputs) has no separate lemma, because every operation of the comparator is a pure function.
