/** generate_page_insights: one narrative insight per ranked row, chosen by a
    first-match-wins decision list that differs for the most-improved and
    the most-dropped table, and the text each insight is rendered as. */
module Insights {
  import opened Metrics
  import opened Join

  /** The four kinds of message, with the values each one reports. */
  datatype Insight =
    | StartedRanking(page: string, clickChange: int, positionNew: real)
    | PositionImproved(page: string, clickChange: int, positionOld: real, positionNew: real)
    | PositionDecreased(page: string, clickChange: int, positionOld: real, positionNew: real)
    | Fluctuation(page: string, clickChange: int)

  /** The insight for a row of the most-improved table, by the first of
      these that applies: started ranking, position improved, fluctuation. */
  function DescribeImprovement(r: CombinedRow): (d: Insight)
    ensures d.page == r.page && d.clickChange == r.clickChange
    ensures !d.PositionDecreased?
    ensures d.StartedRanking? ==> d.positionNew == r.positionNew
    ensures d.PositionImproved? ==> d.positionOld == r.positionOld && d.positionNew == r.positionNew
  {
    if r.clicksOld == 0 && r.clickChange > 0 then
      StartedRanking(r.page, r.clickChange, r.positionNew)
    else if r.clickChange > 0 && r.posChange < 0.0 then
      PositionImproved(r.page, r.clickChange, r.positionOld, r.positionNew)
    else
      Fluctuation(r.page, r.clickChange)
  }

  /** The insight for a row of the most-dropped table, by the first of
      these that applies: position decreased, fluctuation. */
  function DescribeDrop(r: CombinedRow): (d: Insight)
    ensures d.page == r.page && d.clickChange == r.clickChange
    ensures d.PositionDecreased? || d.Fluctuation?
    ensures d.PositionDecreased? ==> d.positionOld == r.positionOld && d.positionNew == r.positionNew
  {
    if r.clickChange < 0 && r.posChange > 0.0 then
      PositionDecreased(r.page, r.clickChange, r.positionOld, r.positionNew)
    else
      Fluctuation(r.page, r.clickChange)
  }

  /** The insight for a row of the table `isImprovement` selects: an
      improved row never gets the position-decreased message, a dropped row
      never gets a started-ranking or position-improved one. */
  function Describe(r: CombinedRow, isImprovement: bool): (d: Insight)
    ensures isImprovement ==> !d.PositionDecreased?
    ensures !isImprovement ==> !d.StartedRanking? && !d.PositionImproved?
  {
    if isImprovement then DescribeImprovement(r) else DescribeDrop(r)
  }

  /** generate_page_insights: walks the ranked rows in order and appends one
      insight per row. */
  method GeneratePageInsights(rows: seq<CombinedRow>, isImprovement: bool) returns (insights: seq<Insight>)
    ensures |insights| == |rows|
    ensures forall i :: 0 <= i < |rows| ==> insights[i] == Describe(rows[i], isImprovement)
  {
    insights := [];
    for i := 0 to |rows|
      invariant |insights| == i
      invariant forall k :: 0 <= k < i ==> insights[k] == Describe(rows[k], isImprovement)
    {
      var row := rows[i];
      if isImprovement {
        if row.clicksOld == 0 && row.clickChange > 0 {
          insights := insights + [StartedRanking(row.page, row.clickChange, row.positionNew)];
        } else if row.clickChange > 0 && row.posChange < 0.0 {
          insights := insights + [PositionImproved(row.page, row.clickChange, row.positionOld, row.positionNew)];
        } else {
          insights := insights + [Fluctuation(row.page, row.clickChange)];
        }
      } else {
        if row.clickChange < 0 && row.posChange > 0.0 {
          insights := insights + [PositionDecreased(row.page, row.clickChange, row.positionOld, row.positionNew)];
        } else {
          insights := insights + [Fluctuation(row.page, row.clickChange)];
        }
      }
    }
  }

  /** Every insight names its row's page and reports its row's click change. */
  lemma DescribeReportsRow(r: CombinedRow, isImprovement: bool)
    ensures Describe(r, isImprovement).page == r.page
    ensures Describe(r, isImprovement).clickChange == r.clickChange
  {
  }

  /** The improved-row categories, each by its own condition: exactly one
      of the three applies, and the started-ranking one reports only the
      current position. */
  lemma ImprovementCategories(r: CombinedRow)
    ensures DescribeImprovement(r).StartedRanking? <==> r.clicksOld == 0 && r.clickChange > 0
    ensures DescribeImprovement(r).PositionImproved? <==>
      r.clicksOld != 0 && r.clickChange > 0 && r.posChange < 0.0
    ensures DescribeImprovement(r).Fluctuation? <==>
      r.clickChange <= 0 || (r.clicksOld != 0 && r.posChange >= 0.0)
    ensures !DescribeImprovement(r).PositionDecreased?
    ensures DescribeImprovement(r).StartedRanking? ==> DescribeImprovement(r).positionNew == r.positionNew
    ensures DescribeImprovement(r).PositionImproved? ==>
      DescribeImprovement(r).positionOld == r.positionOld &&
      DescribeImprovement(r).positionNew == r.positionNew
  {
  }

  /** The dropped-row categories: a position that worsened while clicks
      fell, or a fluctuation; never a started-ranking or improved message. */
  lemma DropCategories(r: CombinedRow)
    ensures DescribeDrop(r).PositionDecreased? <==> r.clickChange < 0 && r.posChange > 0.0
    ensures DescribeDrop(r).Fluctuation? <==> r.clickChange >= 0 || r.posChange <= 0.0
    ensures !DescribeDrop(r).StartedRanking? && !DescribeDrop(r).PositionImproved?
    ensures DescribeDrop(r).PositionDecreased? ==>
      DescribeDrop(r).positionOld == r.positionOld && DescribeDrop(r).positionNew == r.positionNew
  {
  }

  /** A page that gained clicks and has no baseline row is reported as
      newly ranking, at its current position. */
  lemma NewPageStartsRanking(olds: seq<MetricRow>, news: seq<MetricRow>, c: CombinedRow)
    requires UniquePages(olds) && UniquePages(news)
    requires c in OuterJoin(olds, news)
    requires c.page !in Pages(olds) && c.clicksNew > 0
    ensures DescribeImprovement(c) == StartedRanking(c.page, c.clicksNew, c.positionNew)
  {
    JoinZeroFill(olds, news, c);
  }

  /** The zero fill makes a baseline row with zero clicks indistinguishable
      from a missing one: such a page is also reported as newly ranking. */
  lemma ZeroClickBaselineStartsRanking(olds: seq<MetricRow>, news: seq<MetricRow>, c: CombinedRow)
    requires UniquePages(olds) && UniquePages(news)
    requires c in OuterJoin(olds, news)
    requires exists o :: o in olds && o.page == c.page && o.clicks == 0
    requires c.clicksNew > 0
    ensures DescribeImprovement(c).StartedRanking?
  {
    var o :| o in olds && o.page == c.page && o.clicks == 0;
    JoinZeroFill(olds, news, c);
    var o' :| o' in olds && o'.page == c.page && c.clicksOld == o'.clicks && c.positionOld == o'.position;
    var i :| 0 <= i < |olds| && olds[i] == o;
    var j :| 0 <= j < |olds| && olds[j] == o';
    assert i == j;
  }

  /** The decimal digits of `n`, most significant first, without leading zeros. */
  function Digits(n: nat): (s: string)
    ensures |s| >= 1
    ensures forall k :: 0 <= k < |s| ==> '0' <= s[k] <= '9'
    ensures (s[0] == '0') == (n == 0)
    decreases n
  {
    if n < 10 then [DigitChar(n)]
    else Digits(n / 10) + [DigitChar(n % 10)]
  }

  function DigitChar(d: nat): (c: char)
    requires d < 10
  {
    (('0' as int) + d) as char
  }

  /** The value of a string of decimal digits. */
  function DigitsValue(s: string): nat
    requires forall k :: 0 <= k < |s| ==> '0' <= s[k] <= '9'
  {
    if s == [] then 0
    else 10 * DigitsValue(s[..|s| - 1]) + ((s[|s| - 1] as int) - ('0' as int))
  }

  /** An integer with an explicit sign, as Python's `:+` format writes it:
      "+" for zero and positive numbers, "-" for negative ones. */
  function FormatSigned(n: int): (s: string)
    ensures |s| >= 2
    ensures (s[0] == '+') == (n >= 0) && (s[0] == '-') == (n < 0)
  {
    (if n < 0 then "-" else "+") + Digits(if n < 0 then -n else n)
  }

  /** Reads back a signed integer in the format FormatSigned writes. */
  function ParseSigned(s: string): Option<int> {
    if |s| < 2 || (s[0] != '+' && s[0] != '-') then None
    else if exists k :: 1 <= k < |s| && !('0' <= s[k] <= '9') then None
    else
      var magnitude: int := DigitsValue(s[1..]);
      Some(if s[0] == '-' then -magnitude else magnitude)
  }

  lemma {:induction false} DigitsRoundTrip(n: nat)
    ensures DigitsValue(Digits(n)) == n
    decreases n
  {
    var s := Digits(n);
    if n >= 10 {
      var q, d := n / 10, n % 10;
      DigitsRoundTrip(q);
      assert s == Digits(q) + [DigitChar(d)];
      assert s[..|s| - 1] == Digits(q);
      assert DigitsValue(s) == 10 * q + d;
    }
  }

  /** The signed rendering of a click change loses nothing. */
  lemma FormatSignedRoundTrip(n: int)
    ensures ParseSigned(FormatSigned(n)) == Some(n)
  {
    var m: nat := if n < 0 then -n else n;
    var s := FormatSigned(n);
    assert s[1..] == Digits(m);
    DigitsRoundTrip(m);
  }

  /** The message text of an insight; `formatPosition` renders a position
      with one decimal (Python's `:.1f`). */
  function Render(insight: Insight, formatPosition: real -> string): (text: string)
    ensures insight.page + " (" + FormatSigned(insight.clickChange) + ") " <= text
    ensures text[|text| - 1] == '.'
  {
    var head := insight.page + " (" + FormatSigned(insight.clickChange) + ") ";
    match insight
    case StartedRanking(_, _, positionNew) =>
      head + "started ranking on SERP with avg position " + formatPosition(positionNew) + "."
    case PositionImproved(_, _, positionOld, positionNew) =>
      head + "avg position improved from " + formatPosition(positionOld) + " to " + formatPosition(positionNew) + "."
    case PositionDecreased(_, _, positionOld, positionNew) =>
      head + "avg position decreased from " + formatPosition(positionOld) + " to " + formatPosition(positionNew) + "."
    case Fluctuation(_, _) =>
      head + "general fluctuation observed."
  }
}
