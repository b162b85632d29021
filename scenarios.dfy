module Scenario {
  import opened Metrics
  import opened Join
  import opened Ranking
  import opened Insights

  function Olds(): seq<MetricRow> { [MetricRow("/a", 10, 5.0)] }
  function News(): seq<MetricRow> { [MetricRow("/a", 20, 3.0), MetricRow("/b", 5, 8.0)] }
  function A(): CombinedRow { CombinedRow("/a", 10, 20, 5.0, 3.0, 10, -2.0) }
  function B(): CombinedRow { CombinedRow("/b", 0, 5, 0.0, 8.0, 5, 8.0) }

  lemma ScenarioJoin()
    ensures UniquePages(Olds()) && UniquePages(News())
    ensures OuterJoin(Olds(), News()) == [A(), B()]
  {
    var olds, news := Olds(), News();
    assert "/a" != "/b" by { assert "/a"[1] != "/b"[1]; }
    assert Lookup(news, "/a") == Some(news[0]);
    assert Matched(olds[1..], news) == [];
    assert Matched(olds, news) == [A()];
    assert Pages(olds) == {"/a"};
    assert NewOnly(news[1..][1..], olds) == [];
    assert NewOnly(news[1..], olds) == [B()];
    assert NewOnly(news, olds) == [B()];
  }

  lemma ScenarioSort()
    ensures Sort(Largest, [A(), B()]) == [A(), B()]
    ensures Sort(Smallest, [A(), B()]) == [B(), A()]
  {
    assert [A(), B()][1..] == [B()];
    assert Sort(Largest, [B()]) == [B()];
    assert Sort(Smallest, [B()]) == [B()];
  }

  lemma ScenarioSelect()
    ensures Select(Largest, [A(), B()], TopCount) == [A(), B()]
    ensures Select(Smallest, [A(), B()], TopCount) == [B(), A()]
  {
    ScenarioSort();
    var rows := [A(), B()];
    assert Min(TopCount, |rows|) == 2;
    assert Sort(Largest, rows)[..2] == Sort(Largest, rows);
    assert Sort(Smallest, rows)[..2] == Sort(Smallest, rows);
  }

  lemma ScenarioTopPages()
    ensures UniquePages(Olds()) && UniquePages(News())
    ensures IdentifyTopPages(Olds(), News()) == TopPages([A(), B()], [B(), A()])
  {
    ScenarioJoin();
    ScenarioSelect();
    var joined := OuterJoin(Olds(), News());
    assert IdentifyTopPages(Olds(), News())
        == TopPages(Select(Largest, joined, TopCount), Select(Smallest, joined, TopCount));
  }

  /** The insights for the improved table of the example: "/a" improved
      its position from 5 to 3, "/b" started ranking at position 8. */
  lemma TwoPageScenario()
    ensures UniquePages(Olds()) && UniquePages(News())
    ensures var improved := IdentifyTopPages(Olds(), News()).improved;
      && |improved| == 2
      && Describe(improved[0], true) == PositionImproved("/a", 10, 5.0, 3.0)
      && Describe(improved[1], true) == StartedRanking("/b", 5, 8.0)
  {
    ScenarioTopPages();
  }
}
