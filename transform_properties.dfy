/** What transform_data guarantees about its output: the derived columns,
    which rows are counted, the partition into groups, the conservation of
    totals, the order of the aggregation, windows, and the left join. */
module TransformProperties {
  import opened Wrappers
  import opened Grouping
  import opened SqlFunctions
  import opened Transform

  // ---------------------------------------------------------------------
  // Derived columns
  // ---------------------------------------------------------------------

  /** A description longer than the high-risk threshold. */
  predicate LongDescription(r: Recall) {
    r.riskDescription.Some? && |r.riskDescription.value| > HighRiskLength
  }

  /** A non-empty compensation text. */
  predicate OffersCompensation(r: Recall) {
    r.compensationMethods.Some? && r.compensationMethods.value != ""
  }

  /** A non-null reference sheet. */
  predicate HasReference(r: Recall) {
    r.referenceSheet.Some?
  }

  /** total_high_risks and monthly_high_risks count exactly the rows whose
      description is non-null and longer than 100 characters. */
  lemma HighRisksCountLongDescriptions(group: seq<Recall>)
    ensures Sum(group, HighRiskFlag) == |Filter(group, LongDescription)| <= |group|
  {
    SumCountsFilter(group, HighRiskFlag, LongDescription);
  }

  /** total_compensations counts exactly the rows with a non-empty compensation text. */
  lemma CompensationsCountOffers(group: seq<Recall>)
    ensures Sum(group, Compensated) == |Filter(group, OffersCompensation)| <= |group|
  {
    SumCountsFilter(group, Compensated, OffersCompensation);
  }

  /** total_recalls and monthly_recalls count the rows with a non-null reference sheet. */
  lemma RecallsCountReferences(group: seq<Recall>)
    ensures Sum(group, Recalled) == |Filter(group, HasReference)| <= |group|
  {
    SumCountsFilter(group, Recalled, HasReference);
  }

  /** A non-null risk description. */
  predicate HasDescription(r: Recall) {
    r.riskDescription.Some?
  }

  /** The character length of a risk description (0 when there is none). */
  function DescriptionLength(r: Recall): int {
    match r.riskDescription
    case Some(d) => |d|
    case None => 0
  }

  /** avg(risk_length) skips null lengths: its divisor counts the rows with a
      description and its dividend adds up their lengths. */
  lemma RiskLengthsOfDescriptions(group: seq<Recall>)
    ensures Sum(group, HasRiskLength) == |Filter(group, HasDescription)|
    ensures Sum(group, RiskLengthValue) == Sum(Filter(group, HasDescription), DescriptionLength)
  {
    SumCountsFilter(group, HasRiskLength, HasDescription);
    SumOverFilter(group, RiskLengthValue, DescriptionLength, HasDescription);
  }

  /** The counts of an aggregation group: total_recalls counts its non-null
      reference sheets, total_high_risks its long descriptions,
      total_compensations its non-empty compensation texts, and the count and
      sum behind average_risk_length are over its non-null descriptions. */
  lemma SummaryCounts(group: seq<Recall>, key: GroupKey)
    ensures Summarize(group, key).totalRecalls == |Filter(group, HasReference)|
    ensures Summarize(group, key).totalHighRisks == |Filter(group, LongDescription)|
    ensures Summarize(group, key).totalCompensations == |Filter(group, OffersCompensation)|
    ensures Summarize(group, key).riskLengthCount == |Filter(group, HasDescription)|
    ensures Summarize(group, key).riskLengthSum == Sum(Filter(group, HasDescription), DescriptionLength)
  {
    RecallsCountReferences(group);
    HighRisksCountLongDescriptions(group);
    CompensationsCountOffers(group);
    RiskLengthsOfDescriptions(group);
  }

  /** max_distributors and min_distributors of a non-empty group are the
      largest and smallest distributor counts of its rows. */
  lemma SummaryDistributors(group: seq<Recall>, key: GroupKey)
    requires group != []
    ensures var a := Summarize(group, key);
            a.maxDistributors.Some? && a.minDistributors.Some?
            && (exists x :: x in group && NumDistributors(x) == a.maxDistributors.value)
            && (exists x :: x in group && NumDistributors(x) == a.minDistributors.value)
            && (forall x :: x in group ==>
                  a.minDistributors.value <= NumDistributors(x) <= a.maxDistributors.value)
  {
  }

  /** The counts of a trend window: monthly_recalls counts its non-null
      reference sheets and monthly_high_risks its long descriptions. */
  lemma TrendSummaryCounts(group: seq<Recall>, key: TrendKey)
    ensures SummarizeTrend(group, key).monthlyRecalls == |Filter(group, HasReference)|
    ensures SummarizeTrend(group, key).monthlyHighRisks == |Filter(group, LongDescription)|
  {
    RecallsCountReferences(group);
    HighRisksCountLongDescriptions(group);
  }

  /** Each aggregation row's counts, in terms of the filtered recalls of its key. */
  lemma AggregationRowCounts(rows: seq<Recall>, i: int)
    requires 0 <= i < |Aggregation(rows)|
    ensures var a := Aggregation(rows)[i];
            var g := GroupOf(Filtered(rows), a.key);
            a.totalRecalls == |Filter(g, HasReference)|
            && a.totalHighRisks == |Filter(g, LongDescription)|
            && a.totalCompensations == |Filter(g, OffersCompensation)|
            && a.riskLengthCount == |Filter(g, HasDescription)|
            && a.riskLengthSum == Sum(Filter(g, HasDescription), DescriptionLength)
  {
    var a := Aggregation(rows)[i];
    SummaryCounts(GroupOf(Filtered(rows), a.key), a.key);
  }

  /** Each trend row's counts, in terms of the filtered recalls of its window and category. */
  lemma TrendRowCounts(rows: seq<Recall>, i: int)
    requires 0 <= i < |Trend(rows)|
    ensures var t := Trend(rows)[i];
            var g := TrendGroupOf(Filtered(rows), t.key);
            t.monthlyRecalls == |Filter(g, HasReference)|
            && t.monthlyHighRisks == |Filter(g, LongDescription)|
  {
    var t := Trend(rows)[i];
    TrendSummaryCounts(TrendGroupOf(Filtered(rows), t.key), t.key);
  }

  /** A description mentioning "serious", "severe" or "critical" anywhere is
      High, whatever else it mentions: the first `when` wins. */
  lemma SevereWordingIsHigh(before: string, word: string, after: string)
    requires word == "serious" || word == "severe" || word == "critical"
    ensures RiskLevelOf(Some(before + word + after)) == High
  {
    var s := before + word + after;
    assert s[|before|..|before| + |word|] == word;
    assert OccursAt(s, word, |before|);
  }

  /** A description mentioning "moderate" or "medium" but none of the High
      words is Medium. */
  lemma ModerateWordingIsMedium(before: string, word: string, after: string)
    requires word == "moderate" || word == "medium"
    requires !SevereWording(before + word + after)
    ensures RiskLevelOf(Some(before + word + after)) == Medium
  {
    var s := before + word + after;
    assert s[|before|..|before| + |word|] == word;
    assert OccursAt(s, word, |before|);
  }

  /** Low is exactly: null, or no occurrence of any of the five words. */
  lemma LowMeansNoKeyword(description: Option<string>)
    ensures RiskLevelOf(description) == Low <==>
      description.None? ||
      forall i :: !OccursAt(description.value, "serious", i) && !OccursAt(description.value, "severe", i)
               && !OccursAt(description.value, "critical", i) && !OccursAt(description.value, "moderate", i)
               && !OccursAt(description.value, "medium", i)
  {
  }

  /** The match is case-sensitive: an upper-case keyword does not count. */
  lemma RiskLevelIsCaseSensitive()
    ensures RiskLevelOf(Some("SEVERE")) == Low
  {
    var s := "SEVERE";
    forall i ensures !OccursAt(s, "severe", i) && !OccursAt(s, "serious", i) && !OccursAt(s, "critical", i)
                  && !OccursAt(s, "moderate", i) && !OccursAt(s, "medium", i)
    {
      if 0 <= i && i + 6 <= |s| {
        assert s[i] != 's' && s[i] != 'c' && s[i] != 'm';
      }
    }
    LowMeansNoKeyword(Some(s));
  }

  // ---------------------------------------------------------------------
  // The year filter
  // ---------------------------------------------------------------------

  /** A row with a null date, or published before 2023, changes nothing in the
      result wherever it sits among the input rows: it reaches neither
      aggregation. */
  lemma EarlyOrUndatedRowIgnored(before: seq<Recall>, r: Recall, after: seq<Recall>)
    requires r.publicationDate.None? || r.publicationDate.value.year < CutoffYear
    ensures Filtered(before + [r] + after) == Filtered(before + after)
    ensures Aggregation(before + [r] + after) == Aggregation(before + after)
    ensures Trend(before + [r] + after) == Trend(before + after)
    ensures TransformData(before + [r] + after) == TransformData(before + after)
  {
    FilterSkipsRejected(before, r, after, Eligible);
  }

  // ---------------------------------------------------------------------
  // The aggregation
  // ---------------------------------------------------------------------

  /** The aggregation keys are distinct, every filtered row's key is among
      them, and each is the key of some filtered row. */
  lemma AggKeysPartition(xs: seq<Recall>)
    ensures NoDups(AggKeys(xs))
    ensures forall x :: x in xs ==> GroupKeyOf(x) in AggKeys(xs)
    ensures forall k :: k in AggKeys(xs) ==> exists x :: x in xs && GroupKeyOf(x) == k
  {
    SortByMonthFacts(KeysOf(xs, GroupKeyOf));
  }

  /** The aggregation has one row per key of `AggKeys`, in that order. */
  lemma AggregationKeys(rows: seq<Recall>)
    ensures |Aggregation(rows)| == |AggKeys(Filtered(rows))|
    ensures forall i :: 0 <= i < |Aggregation(rows)| ==> Aggregation(rows)[i].key == AggKeys(Filtered(rows))[i]
  {
    assert Aggregation(rows) == SummarizeAll(Filtered(rows), AggKeys(Filtered(rows)));
  }

  /** Every filtered row lands in exactly one aggregation row: there is one
      whose key is the row's (category, month), no two rows share a key, and
      the row belongs to a group exactly when the group's key is its key. */
  lemma RowInExactlyOneGroup(rows: seq<Recall>, r: Recall)
    requires r in Filtered(rows)
    ensures exists i :: 0 <= i < |Aggregation(rows)| && Aggregation(rows)[i].key == GroupKeyOf(r)
    ensures forall i, j :: 0 <= i < j < |Aggregation(rows)| ==> Aggregation(rows)[i].key != Aggregation(rows)[j].key
    ensures forall i :: 0 <= i < |Aggregation(rows)| ==>
              (r in GroupOf(Filtered(rows), Aggregation(rows)[i].key) <==> Aggregation(rows)[i].key == GroupKeyOf(r))
  {
    var xs := Filtered(rows);
    var ks := AggKeys(xs);
    var aggs := Aggregation(rows);
    AggregationKeys(rows);
    AggKeysPartition(xs);
    var i :| 0 <= i < |ks| && ks[i] == GroupKeyOf(r);
    assert aggs[i].key == GroupKeyOf(r);
  }

  /** Only rows published in 2023 or later are counted: each aggregation row
      summarises rows of the input whose year is at least 2023 and whose key
      is the row's key, and the group is never empty. */
  lemma OnlyRecentRowsCounted(rows: seq<Recall>, i: int)
    requires 0 <= i < |Aggregation(rows)|
    ensures Aggregation(rows)[i] == Summarize(GroupOf(Filtered(rows), Aggregation(rows)[i].key), Aggregation(rows)[i].key)
    ensures GroupOf(Filtered(rows), Aggregation(rows)[i].key) != []
    ensures forall x :: x in GroupOf(Filtered(rows), Aggregation(rows)[i].key) ==>
              x in rows && x.publicationDate.Some? && x.publicationDate.value.year >= CutoffYear
              && GroupKeyOf(x) == Aggregation(rows)[i].key
  {
    var xs := Filtered(rows);
    var k := AggKeys(xs)[i];
    AggregationKeys(rows);
    assert k in AggKeys(xs);
    AggKeysPartition(xs);
    var x :| x in xs && GroupKeyOf(x) == k;
    assert x in GroupOf(xs, k);
  }

  /** The group sizes add up to the number of rows that passed the filter. */
  lemma GroupSizesAddUp(rows: seq<Recall>)
    ensures GroupSizes(AggKeys(Filtered(rows)), Filtered(rows), GroupKeyOf) == |Filtered(rows)|
  {
    AggKeysPartition(Filtered(rows));
    GroupSizesPartition(AggKeys(Filtered(rows)), Filtered(rows), GroupKeyOf);
  }

  function TotalRecallsOf(a: AggRow): int { a.totalRecalls }
  function TotalHighRisksOf(a: AggRow): int { a.totalHighRisks }
  function TotalCompensationsOf(a: AggRow): int { a.totalCompensations }
  function RiskLengthSumOf(a: AggRow): int { a.riskLengthSum }
  function RiskLengthCountOf(a: AggRow): int { a.riskLengthCount }

  /** Summing one aggregate over the rows of `SummarizeAll` sums the per-row
      quantity it aggregates over each group. */
  lemma {:induction false} SumOverSummaries(xs: seq<Recall>, ks: seq<GroupKey>, pick: AggRow -> int, f: Recall -> int)
    requires forall g, k :: pick(Summarize(g, k)) == Sum(g, f)
    ensures Sum(SummarizeAll(xs, ks), pick) == GroupTotal(ks, xs, GroupKeyOf, f)
  {
    if ks != [] {
      var r := SummarizeAll(xs, ks);
      assert r[1..] == SummarizeAll(xs, ks[1..]);
      SumOverSummaries(xs, ks[1..], pick, f);
    }
  }

  /** One aggregate, added up over all aggregation rows, equals the same
      quantity added up over all filtered rows. */
  lemma AggregateConserves(xs: seq<Recall>, pick: AggRow -> int, f: Recall -> int)
    requires forall g, k :: pick(Summarize(g, k)) == Sum(g, f)
    ensures Sum(Aggregate(xs), pick) == Sum(xs, f)
  {
    AggKeysPartition(xs);
    SumOverSummaries(xs, AggKeys(xs), pick, f);
    GroupTotalPartition(AggKeys(xs), xs, GroupKeyOf, f);
  }

  /** Grouping loses and duplicates nothing: the totals over all aggregation
      rows are the totals over the filtered rows. */
  lemma TotalsConserved(rows: seq<Recall>)
    ensures Sum(Aggregation(rows), TotalRecallsOf) == |Filter(Filtered(rows), HasReference)|
    ensures Sum(Aggregation(rows), TotalHighRisksOf) == |Filter(Filtered(rows), LongDescription)|
    ensures Sum(Aggregation(rows), TotalCompensationsOf) == |Filter(Filtered(rows), OffersCompensation)|
    ensures Sum(Aggregation(rows), RiskLengthSumOf) == Sum(Filtered(rows), RiskLengthValue)
    ensures Sum(Aggregation(rows), RiskLengthCountOf) == Sum(Filtered(rows), HasRiskLength)
  {
    var xs := Filtered(rows);
    AggregateConserves(xs, TotalRecallsOf, Recalled);
    AggregateConserves(xs, TotalHighRisksOf, HighRiskFlag);
    AggregateConserves(xs, TotalCompensationsOf, Compensated);
    AggregateConserves(xs, RiskLengthSumOf, RiskLengthValue);
    AggregateConserves(xs, RiskLengthCountOf, HasRiskLength);
    RecallsCountReferences(xs);
    HighRisksCountLongDescriptions(xs);
    CompensationsCountOffers(xs);
  }

  /** orderBy("month"): the aggregation rows come out in ascending month. */
  lemma AggregationSortedByMonth(rows: seq<Recall>)
    ensures forall i, j :: 0 <= i < j < |Aggregation(rows)| ==>
              KeyRank(Aggregation(rows)[i].key) <= KeyRank(Aggregation(rows)[j].key)
  {
    AggregationKeys(rows);
    SortByMonthFacts(KeysOf(Filtered(rows), GroupKeyOf));
    SortedPairs(AggKeys(Filtered(rows)));
  }

  /** Per group: at most as many high risks, compensations and recalls as
      rows, and max_distributors >= min_distributors >= SizeOfNull. */
  lemma AggRowBounds(rows: seq<Recall>, i: int)
    requires 0 <= i < |Aggregation(rows)|
    ensures var a := Aggregation(rows)[i];
            var n := |GroupOf(Filtered(rows), a.key)|;
            0 <= a.totalHighRisks <= n && 0 <= a.totalCompensations <= n && 0 <= a.totalRecalls <= n
            && a.maxDistributors.Some? && a.minDistributors.Some?
            && SizeOfNull <= a.minDistributors.value <= a.maxDistributors.value
  {
    OnlyRecentRowsCounted(rows, i);
  }

  // ---------------------------------------------------------------------
  // Monthly windows and the trend rollup
  // ---------------------------------------------------------------------

  /** Each date lies in exactly one monthly window: the month it falls in. */
  lemma ExactlyOneWindow(d: Date, w: MonthWindow)
    ensures InWindow(d, w) <==> w == MonthWindow(d.year, d.month)
  {
  }

  /** The trend keys are distinct and are exactly the keys of the filtered rows. */
  lemma TrendKeysPartition(xs: seq<Recall>)
    ensures NoDups(TrendKeys(xs))
    ensures forall x :: x in xs ==> TrendKeyOf(x) in TrendKeys(xs)
    ensures forall k :: k in TrendKeys(xs) ==> exists x :: x in xs && TrendKeyOf(x) == k
  {
  }

  function MonthlyRecallsOf(t: TrendRow): int { t.monthlyRecalls }
  function MonthlyHighRisksOf(t: TrendRow): int { t.monthlyHighRisks }

  /** Summing one trend aggregate over `SummarizeTrends` sums the per-row
      quantity over each trend group. */
  lemma {:induction false} SumOverTrends(xs: seq<Recall>, ks: seq<TrendKey>, pick: TrendRow -> int, f: Recall -> int)
    requires forall g, k :: pick(SummarizeTrend(g, k)) == Sum(g, f)
    ensures Sum(SummarizeTrends(xs, ks), pick) == GroupTotal(ks, xs, TrendKeyOf, f)
  {
    if ks != [] {
      var r := SummarizeTrends(xs, ks);
      assert r[1..] == SummarizeTrends(xs, ks[1..]);
      SumOverTrends(xs, ks[1..], pick, f);
    }
  }

  /** The trend rollup also loses and duplicates nothing. */
  lemma TrendTotalsConserved(rows: seq<Recall>)
    ensures Sum(Trend(rows), MonthlyRecallsOf) == |Filter(Filtered(rows), HasReference)|
    ensures Sum(Trend(rows), MonthlyHighRisksOf) == |Filter(Filtered(rows), LongDescription)|
  {
    var xs := Filtered(rows);
    TrendKeysPartition(xs);
    SumOverTrends(xs, TrendKeys(xs), MonthlyRecallsOf, Recalled);
    GroupTotalPartition(TrendKeys(xs), xs, TrendKeyOf, Recalled);
    SumOverTrends(xs, TrendKeys(xs), MonthlyHighRisksOf, HighRiskFlag);
    GroupTotalPartition(TrendKeys(xs), xs, TrendKeyOf, HighRiskFlag);
    RecallsCountReferences(xs);
    HighRisksCountLongDescriptions(xs);
  }
}
