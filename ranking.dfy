/** The ranking step of identify_top_pages: the joined rows with the largest
    click change (nlargest) and those with the smallest (nsmallest), eight of
    each or all rows when there are fewer. Ties are broken in favour of the
    row that comes earlier in the joined table. */
module Ranking {
  import opened Metrics
  import opened Join

  /** How many rows each ranked table keeps. */
  const TopCount: nat := 8

  /** Which end of the click-change scale a ranking keeps. */
  datatype Order = Largest | Smallest

  /** The ranking key: the higher, the earlier a row is ranked. */
  function Key(o: Order, r: CombinedRow): int {
    match o
    case Largest => r.clickChange
    case Smallest => -r.clickChange
  }

  /** `rows` is ranked best first under `o`. */
  predicate Ranked(o: Order, rows: seq<CombinedRow>) {
    forall i, j :: 0 <= i < j < |rows| ==> Key(o, rows[i]) >= Key(o, rows[j])
  }

  /** The rows of `rows` whose click change is `v`, in order. */
  function SameChange(rows: seq<CombinedRow>, v: int): seq<CombinedRow> {
    if rows == [] then []
    else (if rows[0].clickChange == v then [rows[0]] else []) + SameChange(rows[1..], v)
  }

  function Min(a: nat, b: nat): nat {
    if a <= b then a else b
  }

  /** Inserts `x` into ranked `ys` in front of every row it ranks no lower than. */
  function Insert(o: Order, x: CombinedRow, ys: seq<CombinedRow>): (r: seq<CombinedRow>)
    requires Ranked(o, ys)
    ensures Ranked(o, r)
    ensures multiset(r) == multiset(ys) + multiset{x}
    ensures forall z :: z in r ==> z == x || z in ys
    ensures |r| == |ys| + 1
  {
    if ys == [] || Key(o, x) >= Key(o, ys[0]) then [x] + ys
    else
      var rest := Insert(o, x, ys[1..]);
      RankedHeadBound(o, ys);
      RankedCons(o, ys[0], rest);
      assert ys == [ys[0]] + ys[1..];
      [ys[0]] + rest
  }

  /** The head of a ranked sequence ranks no lower than any of its rows. */
  lemma RankedHeadBound(o: Order, ys: seq<CombinedRow>)
    requires Ranked(o, ys) && ys != []
    ensures forall z :: z in ys ==> Key(o, z) <= Key(o, ys[0])
  {
    forall z | z in ys ensures Key(o, z) <= Key(o, ys[0]) {
      var k :| 0 <= k < |ys| && ys[k] == z;
    }
  }

  /** Putting a row in front of a ranked sequence whose rows it outranks keeps it ranked. */
  lemma RankedCons(o: Order, y: CombinedRow, rest: seq<CombinedRow>)
    requires Ranked(o, rest)
    requires forall z :: z in rest ==> Key(o, z) <= Key(o, y)
    ensures Ranked(o, [y] + rest)
  {
    var s := [y] + rest;
    forall i, j | 0 <= i < j < |s| ensures Key(o, s[i]) >= Key(o, s[j]) {
      assert s[j] == rest[j - 1];
      if i > 0 {
        assert s[i] == rest[i - 1];
      }
    }
  }

  /** A stable insertion sort: ranked under `o`, a permutation of `rows`. */
  function Sort(o: Order, rows: seq<CombinedRow>): (r: seq<CombinedRow>)
    ensures Ranked(o, r)
    ensures multiset(r) == multiset(rows)
    ensures |r| == |rows|
  {
    if rows == [] then []
    else
      assert rows == [rows[0]] + rows[1..];
      Insert(o, rows[0], Sort(o, rows[1..]))
  }

  lemma {:induction false} SameChangeAppend(a: seq<CombinedRow>, b: seq<CombinedRow>, v: int)
    ensures SameChange(a + b, v) == SameChange(a, v) + SameChange(b, v)
  {
    if a == [] {
      assert a + b == b;
    } else {
      assert (a + b)[1..] == a[1..] + b;
      SameChangeAppend(a[1..], b, v);
    }
  }

  lemma SameChangeSingle(x: CombinedRow, v: int)
    ensures SameChange([x], v) == if x.clickChange == v then [x] else []
  {
    assert [x][1..] == [];
  }

  /** Inserting keeps the rows of each click change in the order they had. */
  lemma {:induction false} InsertStable(o: Order, x: CombinedRow, ys: seq<CombinedRow>, v: int)
    requires Ranked(o, ys)
    ensures SameChange(Insert(o, x, ys), v) == SameChange([x] + ys, v)
  {
    if ys != [] && Key(o, x) < Key(o, ys[0]) {
      var y, tail := ys[0], ys[1..];
      assert ys == [y] + tail;
      var rest := Insert(o, x, tail);
      assert Insert(o, x, ys) == [y] + rest;
      InsertStable(o, x, tail, v);
      SameChangeAppend([y], rest, v);
      SameChangeAppend([x], tail, v);
      SameChangeAppend([x], ys, v);
      SameChangeAppend([y], tail, v);
      SameChangeSingle(x, v);
      SameChangeSingle(y, v);
      assert x.clickChange != y.clickChange;
    }
  }

  /** The sort is stable: it keeps the rows of each click change in input order. */
  lemma {:induction false} SortStable(o: Order, rows: seq<CombinedRow>, v: int)
    ensures SameChange(Sort(o, rows), v) == SameChange(rows, v)
  {
    if rows != [] {
      var x, tail := rows[0], rows[1..];
      var sorted := Sort(o, tail);
      calc {
        SameChange(Sort(o, rows), v);
        SameChange(Insert(o, x, sorted), v);
        { InsertStable(o, x, sorted, v); }
        SameChange([x] + sorted, v);
        { SameChangeAppend([x], sorted, v); }
        SameChange([x], v) + SameChange(sorted, v);
        { SortStable(o, tail, v); }
        SameChange([x], v) + SameChange(tail, v);
        { SameChangeAppend([x], tail, v); }
        SameChange([x] + tail, v);
        { assert rows == [x] + tail; }
        SameChange(rows, v);
      }
    }
  }

  /** The first `k` rows of `rows` under `o` (all of them when there are
      fewer): ranked, drawn from `rows`, no unselected row ranked above a
      selected one, and ties kept in input order. */
  function Select(o: Order, rows: seq<CombinedRow>, k: nat): (top: seq<CombinedRow>)
    ensures |top| == Min(k, |rows|)
    ensures Ranked(o, top)
    ensures multiset(top) <= multiset(rows)
    ensures |rows| <= k ==> multiset(top) == multiset(rows)
    ensures forall x, t :: x in multiset(rows) - multiset(top) && t in top ==> Key(o, x) <= Key(o, t)
    ensures forall v :: SameChange(top, v) <= SameChange(rows, v)
  {
    var sorted := Sort(o, rows);
    var m := Min(k, |rows|);
    PrefixExtremal(o, sorted, m);
    forall v ensures SameChange(sorted[..m], v) <= SameChange(rows, v) {
      SortStable(o, rows, v);
      PrefixSameChange(sorted, m, v);
    }
    sorted[..m]
  }

  /** Cutting a ranked sequence at `m`: the front is ranked, the two parts
      make up the whole, and nothing in the back ranks above the front. */
  lemma PrefixExtremal(o: Order, s: seq<CombinedRow>, m: nat)
    requires Ranked(o, s) && m <= |s|
    ensures Ranked(o, s[..m])
    ensures multiset(s) - multiset(s[..m]) == multiset(s[m..])
    ensures forall x, t :: x in multiset(s[m..]) && t in s[..m] ==> Key(o, x) <= Key(o, t)
  {
    var front, back := s[..m], s[m..];
    assert s == front + back;
    assert Ranked(o, front) by {
      forall i, j | 0 <= i < j < |front| ensures Key(o, front[i]) >= Key(o, front[j]) {
        assert front[i] == s[i] && front[j] == s[j];
      }
    }
    assert multiset(s) == multiset(front) + multiset(back);
    forall x, t | x in multiset(back) && t in front ensures Key(o, x) <= Key(o, t) {
      assert x in back;
      var i :| 0 <= i < |front| && front[i] == t;
      var j :| 0 <= j < |back| && back[j] == x;
      assert s[i] == t && s[m + j] == x;
    }
  }

  /** The rows of one click change in a prefix are a prefix of those in the whole. */
  lemma PrefixSameChange(s: seq<CombinedRow>, m: nat, v: int)
    requires m <= |s|
    ensures SameChange(s[..m], v) <= SameChange(s, v)
  {
    assert s == s[..m] + s[m..];
    SameChangeAppend(s[..m], s[m..], v);
  }

  /** The two ranked tables identify_top_pages returns. */
  datatype TopPages = TopPages(improved: seq<CombinedRow>, dropped: seq<CombinedRow>)

  /** identify_top_pages: joins the two tables and keeps the eight rows with
      the largest click change, largest first, and the eight with the
      smallest, smallest first. */
  function IdentifyTopPages(olds: seq<MetricRow>, news: seq<MetricRow>): (top: TopPages)
    requires UniquePages(olds) && UniquePages(news)
    ensures var joined := OuterJoin(olds, news);
      && |top.improved| == Min(TopCount, |joined|)
      && (forall i, j :: 0 <= i < j < |top.improved| ==>
            top.improved[i].clickChange >= top.improved[j].clickChange)
      && multiset(top.improved) <= multiset(joined)
      && (forall x, t :: x in multiset(joined) - multiset(top.improved) && t in top.improved ==>
            x.clickChange <= t.clickChange)
    ensures var joined := OuterJoin(olds, news);
      && |top.dropped| == Min(TopCount, |joined|)
      && (forall i, j :: 0 <= i < j < |top.dropped| ==>
            top.dropped[i].clickChange <= top.dropped[j].clickChange)
      && multiset(top.dropped) <= multiset(joined)
      && (forall x, t :: x in multiset(joined) - multiset(top.dropped) && t in top.dropped ==>
            x.clickChange >= t.clickChange)
    ensures var joined := OuterJoin(olds, news);
      |joined| <= TopCount ==>
        multiset(top.improved) == multiset(joined) && multiset(top.dropped) == multiset(joined)
    ensures var joined := OuterJoin(olds, news);
      forall v :: SameChange(top.improved, v) <= SameChange(joined, v)
               && SameChange(top.dropped, v) <= SameChange(joined, v)
  {
    var joined := OuterJoin(olds, news);
    var improved, dropped := Select(Largest, joined, TopCount), Select(Smallest, joined, TopCount);
    ByClickChange(Largest, improved, joined);
    ByClickChange(Smallest, dropped, joined);
    TopPages(improved, dropped)
  }

  /** Ranking and extremality under `o`, restated on the click change itself. */
  lemma ByClickChange(o: Order, top: seq<CombinedRow>, rows: seq<CombinedRow>)
    requires Ranked(o, top)
    requires forall x, t :: x in multiset(rows) - multiset(top) && t in top ==> Key(o, x) <= Key(o, t)
    ensures o == Largest ==> forall i, j :: 0 <= i < j < |top| ==> top[i].clickChange >= top[j].clickChange
    ensures o == Smallest ==> forall i, j :: 0 <= i < j < |top| ==> top[i].clickChange <= top[j].clickChange
    ensures o == Largest ==>
      forall x, t :: x in multiset(rows) - multiset(top) && t in top ==> x.clickChange <= t.clickChange
    ensures o == Smallest ==>
      forall x, t :: x in multiset(rows) - multiset(top) && t in top ==> x.clickChange >= t.clickChange
  {
    forall i, j | 0 <= i < j < |top| ensures Key(o, top[i]) >= Key(o, top[j]) { }
  }
}
