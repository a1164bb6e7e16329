/** transform_data of src/transform.py: the per-row derived columns, the
    publication-year filter, the (category, month) aggregation ordered by
    month, the monthly trend rollup and the left join of the two. */
module Transform {
  import opened Wrappers
  import opened Grouping
  import opened SqlFunctions

  /** The column names of the record schema the stream is read with. */
  const Schema: seq<string> := [
    "reference_sheet", "version", "legal_nature", "product_category",
    "sub_category", "brand_name", "product_models", "risk_description",
    "consumer_recommendations", "compensation_methods", "additional_information",
    "date_of_publication", "distributors", "image_url"
  ]

  /** Rows published before this year are filtered out. */
  const CutoffYear: int := 2023
  /** A risk description longer than this many characters is high risk. */
  const HighRiskLength: int := 100
  /** Spark's `size` of a null array (the default, non-ANSI setting). */
  const SizeOfNull: int := -1

  type Month = m: int | 1 <= m <= 12 witness 1
  type Day = d: int | 1 <= d <= 31 witness 1

  /** A calendar date: `to_date` of the publication timestamp. */
  datatype Date = Date(year: int, month: Month, day: Day)

  /** The columns of an incoming record that reach the output of transform_data. */
  datatype Recall = Recall(
    referenceSheet: Option<string>,
    productCategory: Option<string>,
    riskDescription: Option<string>,
    compensationMethods: Option<string>,
    publicationDate: Option<Date>,
    distributors: Option<string>)

  // ---------------------------------------------------------------------
  // Per-row derived columns
  // ---------------------------------------------------------------------

  /** year(publication_date); null for a null date. */
  function YearOf(r: Recall): Option<int> {
    if r.publicationDate.Some? then Some(r.publicationDate.value.year) else None
  }

  /** month(publication_date), the month of the year; null for a null date. */
  function MonthOf(r: Recall): Option<Month> {
    if r.publicationDate.Some? then Some(r.publicationDate.value.month) else None
  }

  /** risk_length: length(risk_description), null for a null description. */
  function RiskLength(r: Recall): Option<int> {
    if r.riskDescription.Some? then Some(|r.riskDescription.value|) else None
  }

  /** high_risk_flag: a null length compares as unknown and takes the `otherwise` branch. */
  function HighRiskFlag(r: Recall): (flag: int)
    ensures 0 <= flag <= 1
    ensures flag == 1 <==> r.riskDescription.Some? && |r.riskDescription.value| > HighRiskLength
  {
    if RiskLength(r).Some? && RiskLength(r).value > HighRiskLength then 1 else 0
  }

  /** is_compensation_provided. */
  function IsCompensationProvided(r: Recall): (answer: string)
    ensures answer == "Yes" || answer == "No"
    ensures answer == "Yes" <==> r.compensationMethods.Some? && r.compensationMethods.value != ""
  {
    if r.compensationMethods.Some? && |r.compensationMethods.value| > 0 then "Yes" else "No"
  }

  /** num_distributors: size(split(distributors, ",")), one more than the
      number of commas; size(null) for a null list. */
  function NumDistributors(r: Recall): (n: int)
    ensures r.distributors.Some? ==> n == Occurrences(r.distributors.value, ',') + 1 >= 1
    ensures r.distributors.None? ==> n == SizeOfNull
  {
    if r.distributors.Some? then |Split(r.distributors.value, ',')| else SizeOfNull
  }

  datatype RiskLevel = High | Medium | Low

  /** risk_level: the first `when` whose pattern matches wins; a null
      description matches nothing. */
  function RiskLevelOf(description: Option<string>): (level: RiskLevel)
    ensures level != Low ==> description.Some?
    ensures level == High <==>
              description.Some?
              && (Contains(description.value, "serious") || Contains(description.value, "severe")
                  || Contains(description.value, "critical"))
    ensures level == Medium <==>
              description.Some? && !SevereWording(description.value)
              && (Contains(description.value, "moderate") || Contains(description.value, "medium"))
  {
    if description.Some? && SevereWording(description.value) then High
    else if description.Some? && ModerateWording(description.value) then Medium
    else Low
  }

  /** rlike("serious|severe|critical"). */
  predicate SevereWording(s: string) {
    Contains(s, "serious") || Contains(s, "severe") || Contains(s, "critical")
  }

  /** rlike("moderate|medium"). */
  predicate ModerateWording(s: string) {
    Contains(s, "moderate") || Contains(s, "medium")
  }

  // ---------------------------------------------------------------------
  // Year filter
  // ---------------------------------------------------------------------

  /** filter(year >= 2023): a null year makes the condition null, which drops the row. */
  predicate Eligible(r: Recall) {
    YearOf(r).Some? && YearOf(r).value >= CutoffYear
  }

  /** The rows that reach both aggregations, in their original order. */
  function Filtered(rows: seq<Recall>): (f: seq<Recall>)
    ensures |f| <= |rows|
    ensures forall r :: r in f <==> r in rows && YearOf(r).Some? && YearOf(r).value >= CutoffYear
    ensures forall r | r in rows :: multiset(f)[r] == if Eligible(r) then multiset(rows)[r] else 0
  {
    Filter(rows, Eligible)
  }

  // ---------------------------------------------------------------------
  // Aggregation by (product_category, month)
  // ---------------------------------------------------------------------

  /** The grouping key; Spark groups null values together. */
  datatype GroupKey = GroupKey(category: Option<string>, month: Option<Month>)

  function GroupKeyOf(r: Recall): GroupKey {
    GroupKey(r.productCategory, MonthOf(r))
  }

  /** One output row of the aggregation. average_risk_length is kept as the
      sum and the count of the non-null risk lengths it divides. */
  datatype AggRow = AggRow(
    key: GroupKey,
    totalRecalls: int,
    totalHighRisks: int,
    totalCompensations: int,
    riskLengthSum: int,
    riskLengthCount: int,
    maxDistributors: Option<int>,
    minDistributors: Option<int>)

  /** count(reference_sheet) counts the non-null values. */
  function Recalled(r: Recall): int {
    if r.referenceSheet.Some? then 1 else 0
  }

  /** count(when(is_compensation_provided == "Yes", True)). */
  function Compensated(r: Recall): int {
    if IsCompensationProvided(r) == "Yes" then 1 else 0
  }

  /** The contribution of a row to avg(risk_length)'s sum and count. */
  function RiskLengthValue(r: Recall): int {
    if RiskLength(r).Some? then RiskLength(r).value else 0
  }

  function HasRiskLength(r: Recall): int {
    if RiskLength(r).Some? then 1 else 0
  }

  /** The aggregates of one group of rows. */
  function Summarize(group: seq<Recall>, key: GroupKey): (a: AggRow)
    ensures a.key == key
    ensures 0 <= a.totalRecalls <= |group|
    ensures 0 <= a.totalHighRisks <= |group|
    ensures 0 <= a.totalCompensations <= |group|
    ensures 0 <= a.riskLengthCount <= |group| && 0 <= a.riskLengthSum
    ensures a.maxDistributors.None? <==> group == []
    ensures a.minDistributors.None? <==> group == []
    ensures group != [] ==> SizeOfNull <= a.minDistributors.value <= a.maxDistributors.value
  {
    SumOfIndicator(group, Recalled);
    SumOfIndicator(group, HighRiskFlag);
    SumOfIndicator(group, Compensated);
    SumOfIndicator(group, HasRiskLength);
    SumNonNegative(group, RiskLengthValue);
    DistributorBounds(group);
    AggRow(key, Sum(group, Recalled), Sum(group, HighRiskFlag), Sum(group, Compensated),
           Sum(group, RiskLengthValue), Sum(group, HasRiskLength),
           MaxOf(group, NumDistributors), MinOf(group, NumDistributors))
  }

  /** In a non-empty group the smallest distributor count is at least
      SizeOfNull and at most the largest. */
  lemma DistributorBounds(group: seq<Recall>)
    ensures group != [] ==>
      SizeOfNull <= MinOf(group, NumDistributors).value <= MaxOf(group, NumDistributors).value
  {
    if group != [] {
      var mn := MinOf(group, NumDistributors);
      var w :| w in group && NumDistributors(w) == mn.value;
      assert mn.value <= NumDistributors(group[0]) <= MaxOf(group, NumDistributors).value;
    }
  }

  /** The rows of group `k`. */
  function GroupOf(xs: seq<Recall>, k: GroupKey): seq<Recall> {
    Select(xs, GroupKeyOf, k)
  }

  /** One aggregate row per key, in the order of `ks`. */
  function SummarizeAll(xs: seq<Recall>, ks: seq<GroupKey>): (r: seq<AggRow>)
    ensures |r| == |ks|
    ensures forall i :: 0 <= i < |ks| ==> r[i] == Summarize(GroupOf(xs, ks[i]), ks[i])
  {
    if ks == [] then [] else [Summarize(GroupOf(xs, ks[0]), ks[0])] + SummarizeAll(xs, ks[1..])
  }

  /** The rank orderBy("month") sorts on: ascending, nulls first. */
  function KeyRank(k: GroupKey): (rank: int)
    ensures 0 <= rank <= 12
  {
    if k.month.None? then 0 else k.month.value
  }

  /** Each key's month rank is at most the next one's. */
  predicate SortedByMonth(s: seq<GroupKey>) {
    |s| < 2 || (KeyRank(s[0]) <= KeyRank(s[1]) && SortedByMonth(s[1..]))
  }

  /** `k` placed into the sorted `s` just before the first key of equal or
      higher rank, so that it precedes the keys of its own rank. */
  function InsertByMonth(k: GroupKey, s: seq<GroupKey>): seq<GroupKey> {
    if s == [] || KeyRank(k) <= KeyRank(s[0]) then [k] + s
    else [s[0]] + InsertByMonth(k, s[1..])
  }

  /** Insertion adds exactly `k`, keeps a sorted sequence sorted, and keeps
      the keys distinct when `k` is new. */
  lemma {:induction false} InsertByMonthFacts(k: GroupKey, s: seq<GroupKey>)
    ensures |InsertByMonth(k, s)| == |s| + 1
    ensures InsertByMonth(k, s)[0] == k || (s != [] && InsertByMonth(k, s)[0] == s[0])
    ensures forall x :: x in InsertByMonth(k, s) <==> x == k || x in s
    ensures SortedByMonth(s) ==> SortedByMonth(InsertByMonth(k, s))
    ensures NoDups(s) && k !in s ==> NoDups(InsertByMonth(k, s))
  {
    if s != [] && KeyRank(k) > KeyRank(s[0]) {
      var rest := InsertByMonth(k, s[1..]);
      InsertByMonthFacts(k, s[1..]);
      assert forall x :: x in s ==> x == s[0] || x in s[1..];
      assert ([s[0]] + rest)[1..] == rest;
      assert NoDups(s) ==> NoDups(s[1..]) && s[0] !in s[1..];
    }
  }

  /** Sorted by month, stated over every pair of positions. */
  lemma {:induction false} SortedPairs(s: seq<GroupKey>)
    requires SortedByMonth(s)
    ensures forall i, j :: 0 <= i < j < |s| ==> KeyRank(s[i]) <= KeyRank(s[j])
  {
    if |s| >= 2 {
      SortedPairs(s[1..]);
      assert forall j :: 1 <= j < |s| ==> s[j] == s[1..][j - 1];
    }
  }

  /** orderBy("month"): an insertion sort on the month rank, nulls first;
      keys of equal month keep their relative order. */
  function SortByMonth(ks: seq<GroupKey>): seq<GroupKey> {
    if ks == [] then [] else InsertByMonth(ks[0], SortByMonth(ks[1..]))
  }

  /** Sorting keeps exactly the same keys, keeps them distinct, and sorts
      them by month. */
  lemma {:induction false} SortByMonthFacts(ks: seq<GroupKey>)
    ensures forall k :: k in SortByMonth(ks) <==> k in ks
    ensures NoDups(ks) ==> NoDups(SortByMonth(ks))
    ensures SortedByMonth(SortByMonth(ks))
  {
    if ks != [] {
      SortByMonthFacts(ks[1..]);
      InsertByMonthFacts(ks[0], SortByMonth(ks[1..]));
      assert forall x :: x in ks ==> x == ks[0] || x in ks[1..];
      assert NoDups(ks) ==> NoDups(ks[1..]) && ks[0] !in ks[1..];
    }
  }

  /** The distinct group keys of the rows that pass the filter, sorted by month. */
  function AggKeys(xs: seq<Recall>): seq<GroupKey> {
    SortByMonth(KeysOf(xs, GroupKeyOf))
  }

  /** aggregation_df, over the rows that passed the filter. */
  function Aggregate(xs: seq<Recall>): (r: seq<AggRow>)
    ensures forall i :: 0 <= i < |r| ==> r[i] == Summarize(GroupOf(xs, r[i].key), r[i].key)
  {
    SummarizeAll(xs, AggKeys(xs))
  }

  /** aggregation_df of transform_data. */
  function Aggregation(rows: seq<Recall>): seq<AggRow> {
    Aggregate(Filtered(rows))
  }

  // ---------------------------------------------------------------------
  // Monthly trend rollup
  // ---------------------------------------------------------------------

  /** A tumbling one-month window: the calendar month `month` of `year`. */
  datatype MonthWindow = MonthWindow(year: int, month: Month)

  /** The first day of the window. */
  function WindowStart(w: MonthWindow): Date {
    Date(w.year, w.month, 1)
  }

  /** The first day after the window. */
  function WindowEnd(w: MonthWindow): Date {
    if w.month == 12 then Date(w.year + 1, 1, 1) else Date(w.year, w.month + 1, 1)
  }

  /** Chronological order of dates. */
  predicate Before(d: Date, e: Date) {
    d.year < e.year
    || (d.year == e.year && d.month < e.month)
    || (d.year == e.year && d.month == e.month && d.day < e.day)
  }

  /** The window covers `d`: start <= d < end. */
  predicate InWindow(d: Date, w: MonthWindow) {
    !Before(d, WindowStart(w)) && Before(d, WindowEnd(w))
  }

  /** window(publication_date, "1 month"): the month the date falls in. */
  function WindowOf(r: Recall): Option<MonthWindow> {
    if r.publicationDate.Some? then
      Some(MonthWindow(r.publicationDate.value.year, r.publicationDate.value.month))
    else None
  }

  /** The trend grouping key. */
  datatype TrendKey = TrendKey(window: Option<MonthWindow>, category: Option<string>)

  function TrendKeyOf(r: Recall): TrendKey {
    TrendKey(WindowOf(r), r.productCategory)
  }

  /** One output row of the trend rollup. */
  datatype TrendRow = TrendRow(key: TrendKey, monthlyRecalls: int, monthlyHighRisks: int)

  /** The rows of trend group `k`. */
  function TrendGroupOf(xs: seq<Recall>, k: TrendKey): seq<Recall> {
    Select(xs, TrendKeyOf, k)
  }

  /** The trend aggregates of one group of rows. */
  function SummarizeTrend(group: seq<Recall>, key: TrendKey): (t: TrendRow)
    ensures t.key == key
    ensures 0 <= t.monthlyHighRisks <= |group|
    ensures 0 <= t.monthlyRecalls <= |group|
  {
    SumOfIndicator(group, Recalled);
    SumOfIndicator(group, HighRiskFlag);
    TrendRow(key, Sum(group, Recalled), Sum(group, HighRiskFlag))
  }

  /** One trend row per key, in the order of `ks`. */
  function SummarizeTrends(xs: seq<Recall>, ks: seq<TrendKey>): (r: seq<TrendRow>)
    ensures |r| == |ks|
    ensures forall i :: 0 <= i < |ks| ==> r[i] == SummarizeTrend(TrendGroupOf(xs, ks[i]), ks[i])
  {
    if ks == [] then [] else [SummarizeTrend(TrendGroupOf(xs, ks[0]), ks[0])] + SummarizeTrends(xs, ks[1..])
  }

  /** The distinct trend keys of the rows that pass the filter. */
  function TrendKeys(xs: seq<Recall>): seq<TrendKey> {
    KeysOf(xs, TrendKeyOf)
  }

  /** trend_df, over the rows that passed the filter (its row order is unspecified). */
  function TrendOf(xs: seq<Recall>): (r: seq<TrendRow>)
    ensures forall i :: 0 <= i < |r| ==> r[i] == SummarizeTrend(TrendGroupOf(xs, r[i].key), r[i].key)
  {
    SummarizeTrends(xs, TrendKeys(xs))
  }

  /** trend_df of transform_data. */
  function Trend(rows: seq<Recall>): seq<TrendRow> {
    TrendOf(Filtered(rows))
  }

  // ---------------------------------------------------------------------
  // Left join on (product_category, month)
  // ---------------------------------------------------------------------

  /** trend_df has no `month` column of its own, so Spark's analysis would
      reject the join on `month`, and `window(..., "1 month")` itself is
      refused since a month has no fixed length. The model chooses
      calendar-month windows and joins a trend row on the calendar month of
      its window start. */
  function TrendMonth(k: TrendKey): Option<Month> {
    if k.window.Some? then Some(WindowStart(k.window.value).month) else None
  }

  /** The equi-join condition: both keys equal and non-null (null never equals null). */
  predicate JoinMatches(a: GroupKey, t: TrendKey) {
    a.category.Some? && t.category == a.category
    && a.month.Some? && TrendMonth(t) == a.month
  }

  /** The trend rows that join with aggregation key `a`. */
  function MatchesOf(a: GroupKey, ts: seq<TrendRow>): (ms: seq<TrendRow>)
    ensures |ms| <= |ts|
    ensures forall t :: t in ms ==> t in ts && JoinMatches(a, t.key)
    ensures forall t :: t in ts && JoinMatches(a, t.key) ==> t in ms
    ensures NoDups(ts) ==> NoDups(ms)
    ensures (forall t :: t in ts ==> !JoinMatches(a, t.key)) ==> ms == []
  {
    if ts == [] then []
    else
      var rest := MatchesOf(a, ts[1..]);
      assert forall t :: t in ts ==> t == ts[0] || t in ts[1..];
      assert NoDups(ts) ==> NoDups(ts[1..]) && ts[0] !in ts[1..];
      if JoinMatches(a, ts[0].key) then [ts[0]] + rest else rest
  }

  /** One row of result_df: the aggregation row, then the trend window and
      counts of the matching trend row, or nulls. */
  datatype JoinedRow = JoinedRow(
    agg: AggRow,
    window: Option<MonthWindow>,
    monthlyRecalls: Option<int>,
    monthlyHighRisks: Option<int>)

  /** The aggregation row extended with one matching trend row. */
  function Extend(a: AggRow, t: TrendRow): JoinedRow {
    JoinedRow(a, t.key.window, Some(t.monthlyRecalls), Some(t.monthlyHighRisks))
  }

  /** The aggregation row extended with each trend row of `ms`. */
  function ExtendAll(a: AggRow, ms: seq<TrendRow>): (r: seq<JoinedRow>)
    ensures |r| == |ms|
    ensures forall i :: 0 <= i < |ms| ==> r[i] == Extend(a, ms[i])
  {
    if ms == [] then [] else [Extend(a, ms[0])] + ExtendAll(a, ms[1..])
  }

  /** The joined rows of one aggregation row: one per matching trend row, or
      a single row with null trend columns when nothing matches. */
  function JoinOne(a: AggRow, ts: seq<TrendRow>): (r: seq<JoinedRow>)
    ensures |r| == if MatchesOf(a.key, ts) == [] then 1 else |MatchesOf(a.key, ts)|
    ensures forall k :: 0 <= k < |r| ==> r[k].agg == a
    ensures forall k :: 0 <= k < |r| ==> (r[k].monthlyRecalls.None? <==> MatchesOf(a.key, ts) == [])
    ensures forall t :: t in ts && JoinMatches(a.key, t.key) ==> Extend(a, t) in r
  {
    var ms := MatchesOf(a.key, ts);
    if ms == [] then [JoinedRow(a, None, None, None)]
    else
      var r := ExtendAll(a, ms);
      assert forall t :: t in ms ==> Extend(a, t) in r by {
        forall t | t in ms
          ensures Extend(a, t) in r
        {
          var i :| 0 <= i < |ms| && ms[i] == t;
          assert r[i] == Extend(a, t);
        }
      }
      r
  }

  /** aggregation_df.join(trend_df, on=["product_category", "month"], how="left"),
      in aggregation order: every aggregation row is kept. */
  function LeftJoin(aggs: seq<AggRow>, ts: seq<TrendRow>): (r: seq<JoinedRow>)
    ensures |r| >= |aggs|
    ensures forall k :: 0 <= k < |r| ==> r[k].agg in aggs
    ensures forall a :: a in aggs ==> exists e :: e in r && e.agg == a
    ensures forall a, t :: a in aggs && t in ts && JoinMatches(a.key, t.key) ==> Extend(a, t) in r
  {
    if aggs == [] then []
    else
      var head := JoinOne(aggs[0], ts);
      var rest := LeftJoin(aggs[1..], ts);
      assert head[0] in head + rest;
      assert forall a :: a in aggs ==> a == aggs[0] || a in aggs[1..];
      head + rest
  }

  /** transform_data. */
  function TransformData(rows: seq<Recall>): (r: seq<JoinedRow>)
    ensures |r| >= |Aggregation(rows)|
    ensures forall k :: 0 <= k < |r| ==> r[k].agg in Aggregation(rows)
    ensures forall a :: a in Aggregation(rows) ==> exists e :: e in r && e.agg == a
    ensures forall a, t :: a in Aggregation(rows) && t in Trend(rows) && JoinMatches(a.key, t.key)
              ==> Extend(a, t) in r
  {
    LeftJoin(Aggregation(rows), Trend(rows))
  }
}
