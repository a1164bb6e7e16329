/** What the left join of transform_data guarantees: every aggregation row is
    kept, trend columns are null exactly when no trend row matches, and each
    aggregation row comes out once, with the trend counts equal to its own
    totals, when the data cover a single year; across years, month-of-year
    keys make trend rows of different years match the same aggregation row. */
module JoinProperties {
  import opened Wrappers
  import opened Grouping
  import opened Transform
  import opened TransformProperties

  /** A joined row is well formed: its trend columns are null exactly when
      no trend row matches its key, and otherwise come from one matching trend row. */
  predicate WellJoined(e: JoinedRow, ts: seq<TrendRow>) {
    (e.monthlyRecalls.None? <==> MatchesOf(e.agg.key, ts) == [])
    && (e.monthlyRecalls.None? ==> e.window.None? && e.monthlyHighRisks.None?)
    && (e.monthlyRecalls.Some? ==> exists t :: t in ts && JoinMatches(e.agg.key, t.key) && e == Extend(e.agg, t))
  }

  /** The rows one aggregation row joins to are well formed and are never none. */
  lemma JoinOneRows(a: AggRow, ts: seq<TrendRow>)
    ensures |JoinOne(a, ts)| >= 1
    ensures forall e :: e in JoinOne(a, ts) ==> e.agg == a && WellJoined(e, ts)
  {
    var ms := MatchesOf(a.key, ts);
    if ms != [] {
      var r := ExtendAll(a, ms);
      forall e | e in r
        ensures e.agg == a && WellJoined(e, ts)
      {
        var i :| 0 <= i < |r| && r[i] == e;
        assert ms[i] in ms;
      }
    }
  }

  /** how="left": every aggregation row appears in the result, every result
      row extends an aggregation row, trend columns are null exactly when
      nothing matches, and the result is at least as long as the aggregation. */
  lemma {:induction false} LeftJoinKeepsEveryRow(aggs: seq<AggRow>, ts: seq<TrendRow>)
    ensures forall a :: a in aggs ==> exists e :: e in LeftJoin(aggs, ts) && e.agg == a
    ensures forall e :: e in LeftJoin(aggs, ts) ==> e.agg in aggs && WellJoined(e, ts)
    ensures |LeftJoin(aggs, ts)| >= |aggs|
  {
    if aggs != [] {
      var head := JoinOne(aggs[0], ts);
      LeftJoinKeepsEveryRow(aggs[1..], ts);
      JoinOneRows(aggs[0], ts);
      assert head[0] in head;
      assert forall a :: a in aggs ==> a == aggs[0] || a in aggs[1..];
    }
  }

  /** Each aggregation row contributes as many result rows as it has matches,
      and at least one. */
  lemma {:induction false} LeftJoinLength(aggs: seq<AggRow>, ts: seq<TrendRow>, i: int)
    requires 0 <= i < |aggs|
    ensures |LeftJoin(aggs, ts)| >= |aggs| - 1 + |JoinOne(aggs[i], ts)|
  {
    JoinOneRows(aggs[0], ts);
    LeftJoinKeepsEveryRow(aggs[1..], ts);
    if i > 0 {
      LeftJoinLength(aggs[1..], ts, i - 1);
    }
  }

  /** The number of result rows an aggregation row yields: one per matching
      trend row, or one null-extended row when nothing matches. */
  function JoinRowCount(a: AggRow, ts: seq<TrendRow>): nat {
    var n := |MatchesOf(a.key, ts)|;
    if n == 0 then 1 else n
  }

  /** The left join has exactly as many rows as its aggregation rows yield. */
  lemma {:induction false} LeftJoinSize(aggs: seq<AggRow>, ts: seq<TrendRow>)
    ensures |LeftJoin(aggs, ts)| == Sum(aggs, (a: AggRow) => JoinRowCount(a, ts))
  {
    if aggs != [] {
      LeftJoinSize(aggs[1..], ts);
    }
  }

  /** transform_data has exactly as many rows as its aggregation rows yield
      against the trend rows. */
  lemma TransformDataSize(rows: seq<Recall>)
    ensures |TransformData(rows)| == Sum(Aggregation(rows), (a: AggRow) => JoinRowCount(a, Trend(rows)))
  {
    LeftJoinSize(Aggregation(rows), Trend(rows));
  }

  /** When no aggregation row matches more than one trend row, the join
      returns exactly one row per aggregation row, in order. */
  lemma LeftJoinOnePerRow(aggs: seq<AggRow>, ts: seq<TrendRow>)
    requires forall i :: 0 <= i < |aggs| ==> |MatchesOf(aggs[i].key, ts)| <= 1
    ensures |LeftJoin(aggs, ts)| == |aggs|
    ensures forall i :: 0 <= i < |aggs| ==> LeftJoin(aggs, ts)[i] == JoinOne(aggs[i], ts)[0]
  {
    forall i | 0 <= i < |aggs|
      ensures |JoinOne(aggs[i], ts)| == 1
    {
      JoinOneSingle(aggs[i], ts);
    }
    LeftJoinFirsts(aggs, ts);
  }

  /** At most one match gives exactly one joined row. */
  lemma JoinOneSingle(a: AggRow, ts: seq<TrendRow>)
    requires |MatchesOf(a.key, ts)| <= 1
    ensures |JoinOne(a, ts)| == 1
  {
  }

  /** The join of aggregation rows that each give one joined row is those
      rows, in order. */
  lemma {:induction false} LeftJoinFirsts(aggs: seq<AggRow>, ts: seq<TrendRow>)
    requires forall i :: 0 <= i < |aggs| ==> |JoinOne(aggs[i], ts)| == 1
    ensures |LeftJoin(aggs, ts)| == |aggs|
    ensures forall i :: 0 <= i < |aggs| ==> LeftJoin(aggs, ts)[i] == JoinOne(aggs[i], ts)[0]
  {
    if aggs != [] {
      var head := JoinOne(aggs[0], ts);
      var rest := LeftJoin(aggs[1..], ts);
      assert forall i :: 0 <= i < |aggs| - 1 ==> aggs[1..][i] == aggs[i + 1];
      LeftJoinFirsts(aggs[1..], ts);
      assert LeftJoin(aggs, ts) == head + rest;
      assert |head| == 1;
      forall i | 0 <= i < |aggs|
        ensures (head + rest)[i] == JoinOne(aggs[i], ts)[0]
      {
        if i == 0 {
          assert (head + rest)[0] == head[0];
        } else {
          assert (head + rest)[i] == rest[i - 1];
          assert aggs[1..][i - 1] == aggs[i];
        }
      }
    }
  }

  /** A row whose category is null never finds a trend row: SQL equality
      with null is never true. */
  lemma NullCategoryUnmatched(a: AggRow, ts: seq<TrendRow>)
    requires a.key.category.None?
    ensures JoinOne(a, ts) == [JoinedRow(a, None, None, None)]
  {
  }

  /** The trend rows of the filtered rows, paired with their keys. */
  lemma TrendRowKeys(xs: seq<Recall>)
    ensures |TrendOf(xs)| == |TrendKeys(xs)|
    ensures forall j :: 0 <= j < |TrendOf(xs)| ==> TrendOf(xs)[j].key == TrendKeys(xs)[j]
    ensures NoDups(TrendOf(xs))
  {
    var ts := TrendOf(xs);
    TrendKeysPartition(xs);
    forall i, j | 0 <= i < j < |ts|
      ensures ts[i] != ts[j]
    {
      assert ts[i].key == TrendKeys(xs)[i] && ts[j].key == TrendKeys(xs)[j];
    }
  }

  /** Two different elements make a sequence at least two long. */
  lemma TwoElements<T>(ms: seq<T>, u: T, v: T)
    requires u in ms && v in ms && u != v
    ensures |ms| >= 2
  {
  }

  /** The rows of a single year `year` that passed the filter. */
  predicate AllInYear(xs: seq<Recall>, year: int) {
    forall x :: x in xs ==> YearOf(x) == Some(year)
  }

  /** In a single year, an aggregation key and the trend key of the same
      category and month pick out the same rows. */
  lemma SameRowsInYear(xs: seq<Recall>, year: int, c: string, m: Month)
    requires AllInYear(xs, year)
    ensures Select(xs, GroupKeyOf, GroupKey(Some(c), Some(m)))
         == Select(xs, TrendKeyOf, TrendKey(Some(MonthWindow(year, m)), Some(c)))
  {
    SelectSameRows(xs, GroupKeyOf, GroupKey(Some(c), Some(m)),
                   TrendKeyOf, TrendKey(Some(MonthWindow(year, m)), Some(c)));
  }

  /** No two trend rows share a key. */
  predicate DistinctTrendKeys(ts: seq<TrendRow>) {
    forall l, m :: 0 <= l < m < |ts| ==> ts[l].key != ts[m].key
  }

  /** When every trend row that matches `k` has the key `target`, and the
      keys are distinct, at most one trend row matches. */
  lemma {:induction false} AtMostOneMatch(k: GroupKey, ts: seq<TrendRow>, target: TrendKey)
    requires DistinctTrendKeys(ts)
    requires forall t :: t in ts && JoinMatches(k, t.key) ==> t.key == target
    ensures |MatchesOf(k, ts)| <= 1
  {
    if ts != [] {
      var rest := ts[1..];
      assert forall l :: 0 <= l < |rest| ==> rest[l] == ts[l + 1];
      assert forall t :: t in rest ==> t in ts;
      AtMostOneMatch(k, rest, target);
      if JoinMatches(k, ts[0].key) {
        assert forall t :: t in rest ==> t.key != ts[0].key;
      }
    }
  }

  /** When every trend row that matches `k` has the key `target`, and the
      keys are distinct, the row with that key is the only match. */
  lemma OnlyMatch(k: GroupKey, ts: seq<TrendRow>, j: int, target: TrendKey)
    requires DistinctTrendKeys(ts) && 0 <= j < |ts| && ts[j].key == target
    requires JoinMatches(k, target)
    requires forall t :: t in ts && JoinMatches(k, t.key) ==> t.key == target
    ensures MatchesOf(k, ts) == [ts[j]]
  {
    AtMostOneMatch(k, ts, target);
    assert ts[j] in ts;
  }

  /** The trend rows of the filtered rows have distinct keys. */
  lemma TrendOfDistinct(xs: seq<Recall>)
    ensures DistinctTrendKeys(TrendOf(xs))
  {
    TrendRowKeys(xs);
    TrendKeysPartition(xs);
  }

  /** Each trend row's key is the key of a filtered row. */
  lemma TrendOfKeys(xs: seq<Recall>)
    ensures forall t :: t in TrendOf(xs) ==> exists y :: y in xs && TrendKeyOf(y) == t.key
  {
    var ts := TrendOf(xs);
    var tks := TrendKeys(xs);
    TrendRowKeys(xs);
    TrendKeysPartition(xs);
    forall t | t in ts
      ensures exists y :: y in xs && TrendKeyOf(y) == t.key
    {
      var l :| 0 <= l < |ts| && ts[l] == t;
      assert tks[l] in tks;
    }
  }

  /** Each filtered row has a trend row with its key. */
  lemma TrendRowOf(xs: seq<Recall>, y: Recall)
    requires y in xs
    ensures exists j :: 0 <= j < |TrendOf(xs)| && TrendOf(xs)[j].key == TrendKeyOf(y)
  {
    var ts := TrendOf(xs);
    var tks := TrendKeys(xs);
    TrendRowKeys(xs);
    TrendKeysPartition(xs);
    var j :| 0 <= j < |tks| && tks[j] == TrendKeyOf(y);
    assert ts[j].key == tks[j];
  }

  /** In a single year, the only trend row matching aggregation key (c, m)
      is the one of the window (year, m) and category c. */
  lemma SingleYearMatch(xs: seq<Recall>, year: int, k: GroupKey, ts: seq<TrendRow>, j: int)
    requires AllInYear(xs, year)
    requires DistinctTrendKeys(ts)
    requires forall t :: t in ts ==> exists y :: y in xs && TrendKeyOf(y) == t.key
    requires k.category.Some? && k.month.Some?
    requires 0 <= j < |ts| && ts[j].key == TrendKey(Some(MonthWindow(year, k.month.value)), k.category)
    ensures MatchesOf(k, ts) == [ts[j]]
  {
    forall t | t in ts && JoinMatches(k, t.key)
      ensures t.key == ts[j].key
    {
      var y :| y in xs && TrendKeyOf(y) == t.key;
      assert YearOf(y) == Some(year);
    }
    OnlyMatch(k, ts, j, ts[j].key);
  }

  /** Join correctness when the filtered rows all fall in one year: the
      result has exactly one row per aggregation row, in order, and a row
      with a category carries trend counts equal to its own totals (both
      aggregations see the same rows); a row without one carries nulls. */
  lemma SingleYearJoin(rows: seq<Recall>, year: int)
    requires AllInYear(Filtered(rows), year)
    ensures |TransformData(rows)| == |Aggregation(rows)|
    ensures forall i :: 0 <= i < |Aggregation(rows)| ==> TransformData(rows)[i].agg == Aggregation(rows)[i]
    ensures forall i :: 0 <= i < |Aggregation(rows)| && Aggregation(rows)[i].key.category.Some? ==>
              TransformData(rows)[i].monthlyRecalls == Some(Aggregation(rows)[i].totalRecalls)
              && TransformData(rows)[i].monthlyHighRisks == Some(Aggregation(rows)[i].totalHighRisks)
    ensures forall i :: 0 <= i < |Aggregation(rows)| && Aggregation(rows)[i].key.category.None? ==>
              TransformData(rows)[i].monthlyRecalls.None? && TransformData(rows)[i].monthlyHighRisks.None?
  {
    var xs := Filtered(rows);
    var aggs := Aggregation(rows);
    var ts := Trend(rows);
    AggregationKeys(rows);
    forall i | 0 <= i < |aggs|
      ensures |MatchesOf(aggs[i].key, ts)| <= 1
      ensures JoinOne(aggs[i], ts)[0].agg == aggs[i]
      ensures aggs[i].key.category.Some? ==>
                JoinOne(aggs[i], ts)[0].monthlyRecalls == Some(aggs[i].totalRecalls)
                && JoinOne(aggs[i], ts)[0].monthlyHighRisks == Some(aggs[i].totalHighRisks)
      ensures aggs[i].key.category.None? ==>
                JoinOne(aggs[i], ts)[0].monthlyRecalls.None? && JoinOne(aggs[i], ts)[0].monthlyHighRisks.None?
    {
      SingleYearRow(rows, year, i);
    }
    LeftJoinOnePerRow(aggs, ts);
  }

  /** One aggregation row of `SingleYearJoin`. */
  lemma SingleYearRow(rows: seq<Recall>, year: int, i: int)
    requires AllInYear(Filtered(rows), year)
    requires 0 <= i < |Aggregation(rows)|
    ensures |MatchesOf(Aggregation(rows)[i].key, Trend(rows))| <= 1
    ensures JoinOne(Aggregation(rows)[i], Trend(rows))[0].agg == Aggregation(rows)[i]
    ensures Aggregation(rows)[i].key.category.Some? ==>
              JoinOne(Aggregation(rows)[i], Trend(rows))[0].monthlyRecalls == Some(Aggregation(rows)[i].totalRecalls)
              && JoinOne(Aggregation(rows)[i], Trend(rows))[0].monthlyHighRisks == Some(Aggregation(rows)[i].totalHighRisks)
    ensures Aggregation(rows)[i].key.category.None? ==>
              JoinOne(Aggregation(rows)[i], Trend(rows))[0].monthlyRecalls.None?
              && JoinOne(Aggregation(rows)[i], Trend(rows))[0].monthlyHighRisks.None?
  {
    var a := Aggregation(rows)[i];
    var ts := Trend(rows);
    if a.key.category.Some? {
      var t := SingleYearPartner(Filtered(rows), year, i);
      JoinedTotals(a, t, ts);
    } else {
      NullCategoryUnmatched(a, ts);
    }
  }

  /** The one trend row an aggregation row with a category joins with, in a
      single year: it summarises the same rows. */
  lemma SingleYearPartner(xs: seq<Recall>, year: int, i: int) returns (t: TrendRow)
    requires AllInYear(xs, year)
    requires 0 <= i < |Aggregate(xs)| && Aggregate(xs)[i].key.category.Some?
    ensures MatchesOf(Aggregate(xs)[i].key, TrendOf(xs)) == [t]
    ensures exists g :: Aggregate(xs)[i] == Summarize(g, Aggregate(xs)[i].key) && t == SummarizeTrend(g, t.key)
  {
    var k := AggKeys(xs)[i];
    var x := AggregateRowWitness(xs, i);
    assert YearOf(x) == Some(year);
    var target := TrendKeyOf(x);
    assert k.month.Some? && target == TrendKey(Some(MonthWindow(year, k.month.value)), k.category);
    var j := TrendRowAt(xs, x);
    SingleYearMatchOf(xs, year, k, j);
    SameRowsInYear(xs, year, k.category.value, k.month.value);
    t := TrendOf(xs)[j];
    var g := GroupOf(xs, k);
    assert g == TrendGroupOf(xs, target);
    assert Aggregate(xs)[i] == Summarize(g, Aggregate(xs)[i].key);
    assert t == SummarizeTrend(g, t.key);
  }

  /** An aggregation row is the summary of its group, and the group holds a
      filtered row with the row's key. */
  lemma AggregateRowWitness(xs: seq<Recall>, i: int) returns (x: Recall)
    requires 0 <= i < |Aggregate(xs)|
    ensures Aggregate(xs)[i].key == AggKeys(xs)[i]
    ensures Aggregate(xs)[i] == Summarize(GroupOf(xs, AggKeys(xs)[i]), AggKeys(xs)[i])
    ensures x in xs && GroupKeyOf(x) == AggKeys(xs)[i]
  {
    var k := AggKeys(xs)[i];
    assert k in AggKeys(xs);
    AggKeysPartition(xs);
    x :| x in xs && GroupKeyOf(x) == k;
  }

  /** The trend row of a filtered row's key, and what it summarises. */
  lemma TrendRowAt(xs: seq<Recall>, y: Recall) returns (j: int)
    requires y in xs
    ensures 0 <= j < |TrendOf(xs)| && TrendOf(xs)[j].key == TrendKeyOf(y)
    ensures TrendOf(xs)[j] == SummarizeTrend(TrendGroupOf(xs, TrendKeyOf(y)), TrendKeyOf(y))
  {
    TrendRowKeys(xs);
    TrendKeysPartition(xs);
    j :| 0 <= j < |TrendKeys(xs)| && TrendKeys(xs)[j] == TrendKeyOf(y);
  }

  /** `SingleYearMatch` for the trend rows of `xs`. */
  lemma SingleYearMatchOf(xs: seq<Recall>, year: int, k: GroupKey, j: int)
    requires AllInYear(xs, year)
    requires k.category.Some? && k.month.Some?
    requires 0 <= j < |TrendOf(xs)| && TrendOf(xs)[j].key == TrendKey(Some(MonthWindow(year, k.month.value)), k.category)
    ensures MatchesOf(k, TrendOf(xs)) == [TrendOf(xs)[j]]
  {
    TrendOfDistinct(xs);
    TrendOfKeys(xs);
    SingleYearMatch(xs, year, k, TrendOf(xs), j);
  }

  /** An aggregation row whose only match summarises the same rows joins to
      one row carrying its own totals as the trend counts. */
  lemma JoinedTotals(a: AggRow, t: TrendRow, ts: seq<TrendRow>)
    requires MatchesOf(a.key, ts) == [t]
    requires exists g :: a == Summarize(g, a.key) && t == SummarizeTrend(g, t.key)
    ensures JoinOne(a, ts) == [Extend(a, t)]
    ensures Extend(a, t).monthlyRecalls == Some(a.totalRecalls)
    ensures Extend(a, t).monthlyHighRisks == Some(a.totalHighRisks)
  {
    var g :| a == Summarize(g, a.key) && t == SummarizeTrend(g, t.key);
  }

  /** Month-of-year keys: two filtered rows of the same category and month
      but different years fall into one aggregation row, yet into two trend
      windows that both match it, so the join returns more rows than the
      aggregation has and that aggregation row appears twice or more. */
  lemma JoinRepeatsAcrossYears(rows: seq<Recall>, r1: Recall, r2: Recall)
    requires r1 in Filtered(rows) && r2 in Filtered(rows)
    requires r1.productCategory.Some? && r1.productCategory == r2.productCategory
    requires MonthOf(r1) == MonthOf(r2) && YearOf(r1) != YearOf(r2)
    ensures GroupKeyOf(r1) == GroupKeyOf(r2)
    ensures |TransformData(rows)| > |Aggregation(rows)|
  {
    var xs := Filtered(rows);
    CrossYearKeys(r1, r2);
    var i := RepeatedRow(xs, r1, r2);
    LeftJoinLength(Aggregate(xs), TrendOf(xs), i);
  }

  /** The aggregation row shared by `r1` and `r2` joins with both their
      trend rows. */
  lemma RepeatedRow(xs: seq<Recall>, r1: Recall, r2: Recall) returns (i: int)
    requires r1 in xs && r2 in xs
    requires GroupKeyOf(r1) == GroupKeyOf(r2) && TrendKeyOf(r1) != TrendKeyOf(r2)
    requires JoinMatches(GroupKeyOf(r1), TrendKeyOf(r1)) && JoinMatches(GroupKeyOf(r1), TrendKeyOf(r2))
    ensures 0 <= i < |Aggregate(xs)| && |JoinOne(Aggregate(xs)[i], TrendOf(xs))| >= 2
  {
    i := AggregateRowOf(xs, r1);
    var j1 := TrendRowAt(xs, r1);
    var j2 := TrendRowAt(xs, r2);
    TwoMatches(Aggregate(xs)[i], TrendOf(xs), j1, j2, GroupKeyOf(r1), TrendKeyOf(r1), TrendKeyOf(r2));
  }

  /** Two dated rows of one category and month but different years share
      their aggregation key, and both their trend keys match it. */
  lemma CrossYearKeys(r1: Recall, r2: Recall)
    requires r1.publicationDate.Some? && r2.publicationDate.Some?
    requires r1.productCategory.Some? && r1.productCategory == r2.productCategory
    requires MonthOf(r1) == MonthOf(r2) && YearOf(r1) != YearOf(r2)
    ensures GroupKeyOf(r1) == GroupKeyOf(r2)
    ensures TrendKeyOf(r1) != TrendKeyOf(r2)
    ensures JoinMatches(GroupKeyOf(r1), TrendKeyOf(r1)) && JoinMatches(GroupKeyOf(r1), TrendKeyOf(r2))
  {
  }

  /** The aggregation row of a filtered row's key. */
  lemma AggregateRowOf(xs: seq<Recall>, y: Recall) returns (i: int)
    requires y in xs
    ensures 0 <= i < |Aggregate(xs)| && Aggregate(xs)[i].key == GroupKeyOf(y)
  {
    AggKeysPartition(xs);
    i :| 0 <= i < |AggKeys(xs)| && AggKeys(xs)[i] == GroupKeyOf(y);
  }

  /** Two trend rows with different keys that both match give at least two
      matches, hence at least two joined rows. */
  lemma TwoMatches(a: AggRow, ts: seq<TrendRow>, j1: int, j2: int, g: GroupKey, k1: TrendKey, k2: TrendKey)
    requires 0 <= j1 < |ts| && 0 <= j2 < |ts|
    requires a.key == g && ts[j1].key == k1 && ts[j2].key == k2 && k1 != k2
    requires JoinMatches(g, k1) && JoinMatches(g, k2)
    ensures |JoinOne(a, ts)| >= 2
  {
    TwoElements(MatchesOf(a.key, ts), ts[j1], ts[j2]);
  }
}
