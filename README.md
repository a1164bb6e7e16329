# RappelConso pipeline, modelled in Dafny

This project models the two programs of the RappelConso recall pipeline.

- The ingester (`src/ingest.py`) pages through the RappelConso recall-notice
  API. It remembers its position in an offset file. It cleans, translates and
  merges the fields of each record. It then publishes each record as a message.
- The transformation job (`src/transform.py`, `transform_data`) reads those
  messages. It keeps the recalls published from 2023 on and derives per-row
  columns. It aggregates the rows per product category and month, and
  separately per one-month window and category. It then left-joins the two
  results.

The modules are:

| file | module | what it holds |
|---|---|---|
| `wrappers.dfy` | `Wrappers` | `Option` (Python `None` / SQL null) |
| `normalize.dfy` | `Normalize` | `clean_text`, `translate_text`, `merge_columns`, `transform_row`, and the word-level theory of whitespace collapsing |
| `ingest.dfy` | `Ingest` | the offset file, and the `Ingester` class: one pass of the `fetch_and_publish` loop (`Step`), its inner publish loop (`PublishPage`), and a run over many pages (`Run`) |
| `grouping.dfy` | `Grouping` | generic `filter`, `groupBy`, `sum`, `count`, `max` and `min` over sequences, and the partition lemmas |
| `sql_functions.dfy` | `SqlFunctions` | Spark's `split` on a literal separator, and `rlike` on a literal alternation as substring search |
| `transform.dfy` | `Transform` | `transform_data`: derived columns, the year filter, the aggregation, `orderBy("month")`, the monthly trend and the left join |
| `transform_properties.dfy` | `TransformProperties` | what the aggregation and the trend compute |
| `join_properties.dfy` | `JoinProperties` | what the left join yields, in a single year and across years |
| `pipeline.dfy` | `Pipeline` | the published message against the job's input schema, and a worked example |

Translation is a parameter `translate: string -> Option<string>`. `None`
stands for a call that raised. The API page and the outcome of each publish
are also parameters of `Ingester.Step`. A publish outcome is given by the
record's position in the page.

The month key of the aggregation is `month(publication_date)`, the month of
the year only. Two recalls of one category in March 2023 and March 2024 fall
into the same aggregation row. They fall into two different trend windows.
`trend_df` has no `month` column. The model takes the join month of a trend
row to be the calendar month of its window's start. With that choice both
windows join with the one aggregation row, so that row appears twice in the
result (`JoinProperties.JoinRepeatsAcrossYears`). Within a single year every
aggregation row joins with at most one trend row, and that row carries the
same counts (`JoinProperties.SingleYearJoin`).

## Model

| member | source | states |
|---|---|---|
| Normalize.CleanText | src/ingest.py:70-75 | a falsy text (None or "") gives None; otherwise the result is the words of the text joined by single spaces |
| Normalize.SkipSpaces | src/ingest.py:73 | the left half of `strip()`: a suffix of the text that does not start with whitespace, and everything dropped is whitespace |
| Normalize.SkipTrailingSpaces | src/ingest.py:73 | the right half of `strip()`: a prefix of the text that does not end with whitespace, and everything dropped is whitespace |
| Normalize.StripFramed | src/ingest.py:73 | `strip()` removes one space on either side of a text that starts and ends with non-whitespace, and nothing else |
| Normalize.CollapseShape | src/ingest.py:73 | `re.sub(r'\s+', ' ', s)` gives the words of the text joined by single spaces, with one space in front when the text starts with whitespace and one at the end when it ends with whitespace after a word |
| Normalize.CleanNormalized | src/ingest.py:73 | a cleaned text has no leading or trailing whitespace and no whitespace other than single spaces between words |
| Normalize.CleanKeepsNonSpace | src/ingest.py:73 | cleaning keeps every non-whitespace character, in order, and adds none |
| Normalize.CleanKeepsWords | src/ingest.py:73 | the cleaned text has exactly the words of the input |
| Normalize.CleanIdempotent | src/ingest.py:70-75 | cleaning a text whose clean result is non-empty a second time changes nothing |
| Normalize.CleanBlank | src/ingest.py:72-75 | a non-empty whitespace-only text cleans to "", and cleaning that again gives None, so clean_text is not idempotent there |
| Normalize.CleanFalsy | src/ingest.py:72-75 | clean_text(None) and clean_text("") are both None |
| Normalize.TranslateText | src/ingest.py:77-92 | a falsy text gives None without calling the service; otherwise the service's answer, None when it raised |
| Normalize.TranslateSkipsFalsy | src/ingest.py:79-92 | for a falsy text the result does not depend on the translation service |
| Normalize.MergeColumns | src/ingest.py:94-98 | the result is truthy iff either input is; it is None iff the second is None and the first is falsy; with both truthy it is the first, ". ", then the second; otherwise it is `col1 or col2`: the first when truthy, else the second unchanged |
| Normalize.MergeCases | src/ingest.py:94-98 | the individual cases, including `col1 or col2` passing "" through and the merge not being commutative |
| Normalize.TransformRow | src/ingest.py:100-124 | each output field is computed from its own source key: reference sheet, brand name, product models and distributors are that key cleaned (null or normalised text); legal nature, category, sub-category, compensation and additional information are that key cleaned then translated; the risk description and the recommendations merge their two translated keys in source order; version, publication date and image links are the raw values (a key is read by the helper `Field`, as `record.get`, null when missing; clean then translate is the helper `Enrich`) |
| Normalize.MissingCleanedFieldsAreNull | src/ingest.py:102-123 | a missing or null source key gives a null reference sheet, brand name, product models or distributors |
| Normalize.MissingTranslatedFieldsAreNull | src/ingest.py:105-119 | a missing or null source key gives a null translated field, whatever the translation service answers |
| Normalize.MissingMergedFieldsAreNull | src/ingest.py:110-117 | a merged field is null when both its source keys are missing or null |
| Normalize.RiskDescriptionOrder | src/ingest.py:110-113 | with both parts truthy the risk description is the translated risks, ". ", then the translated complementary description; otherwise it is the first part when truthy, else the second |
| Normalize.RecommendationsOrder | src/ingest.py:114-117 | with both parts truthy the recommendations are the translated health advice, ". ", then the translated conduct to follow; otherwise the first part when truthy, else the second |
| Normalize.ToMessage | src/ingest.py:102-123 | the published dictionary has exactly the fourteen output keys |
| Pipeline.MessageMatchesSchema | src/transform.py:9-24 | the keys the ingester publishes are exactly the columns of the job's input schema, in the same order and without repeats |
| Ingest.GetOffset | src/ingest.py:28-33 | a missing file or a missing "offset" entry reads as 0; otherwise the stored value |
| Ingest.UpdateOffset | src/ingest.py:35-37 | get_offset after update_offset(o) reads back o |
| Ingest.NextOffsetFile | src/ingest.py:51-66 | an empty page leaves the offset file alone; a non-empty page moves the offset on by LIMIT |
| Ingest.PublishedPositions | src/ingest.py:55-64 | the positions whose publish succeeds, strictly increasing, each below the page length, and all of them |
| Ingest.Delivered | src/ingest.py:55-64 | the page's messages: the k-th is the transform of the record at the k-th successful position |
| Ingest.Ingester.constructor | src/ingest.py:100-124 | the ingester transforms every record with transform_row over the given translation service and starts with nothing published |
| Ingest.Ingester.Step | src/ingest.py:39-68 | one pass of the loop appends exactly the page's delivered messages and sets the offset file to `NextOffsetFile` |
| Ingest.Ingester.PublishPage | src/ingest.py:55-64 | the record loop appends the delivered messages in page order and leaves the offset file alone |
| Ingest.Ingester.Run | src/ingest.py:39-68 | after many passes the offset has grown by LIMIT per non-empty page and the published messages are the pages' deliveries in order |
| Ingest.OffsetNonDecreasing | src/ingest.py:42-66 | over any sequence of pages the offset never decreases and grows by exactly LIMIT per non-empty page |
| Ingest.PublishedExactlyOnce | src/ingest.py:55-64 | a record's position is published iff its publish succeeds, and then it appears in the published positions |
| Ingest.AllPublished | src/ingest.py:55-64 | when every publish succeeds the page's messages are the transforms of all its records, in order |
| Ingest.OneFailure | src/ingest.py:59-66 | one failed publish loses exactly that record, keeps the others in order, and the offset still moves by LIMIT |
| SqlFunctions.Split | src/transform.py:41 | split on a one-character separator gives one more piece than separators, the pieces join back to the input, and no piece contains the separator |
| SqlFunctions.Contains | src/transform.py:49-50 | rlike on a literal word holds iff the word occurs at some position of the text |
| Transform.IsCompensationProvided | src/transform.py:39-40 | "Yes" iff the compensation text is non-null and non-empty, otherwise "No" |
| Transform.HighRiskFlag | src/transform.py:34-36 | the flag is 1 iff the risk description is non-null and longer than 100 characters, otherwise 0 (risk_length is the helper `RiskLength`, null for a null description) |
| Transform.RiskLevelOf | src/transform.py:47-52 | High iff the description contains serious, severe or critical; Medium iff it contains moderate or medium and none of those; a null description is Low |
| Transform.NumDistributors | src/transform.py:41-42 | a distributor list counts one more than its commas (at least 1); a null list has size -1 |
| TransformProperties.SevereWordingIsHigh | src/transform.py:47-52 | a description containing serious, severe or critical is High |
| TransformProperties.ModerateWordingIsMedium | src/transform.py:47-52 | a description containing moderate or medium and none of the High words is Medium |
| TransformProperties.LowMeansNoKeyword | src/transform.py:47-52 | Low iff the description is null or contains none of the five words |
| TransformProperties.RiskLevelIsCaseSensitive | src/transform.py:49 | "SEVERE" is Low: the match is case-sensitive |
| TransformProperties.EarlyOrUndatedRowIgnored | src/transform.py:44-45 | inserting a recall published before 2023, or without a date, at any position of the input changes neither the filtered rows, nor the aggregation, nor the trend, nor the result |
| Grouping.FilterSkipsRejected | src/transform.py:44-45 | inserting a row the condition rejects, at any position, leaves the filtered rows unchanged |
| TransformProperties.HighRisksCountLongDescriptions | src/transform.py:34-36 | summing high_risk_flag counts the rows whose description is longer than 100 characters |
| TransformProperties.CompensationsCountOffers | src/transform.py:58 | total_compensations counts the rows with a non-empty compensation text |
| TransformProperties.RecallsCountReferences | src/transform.py:56 | total_recalls counts the rows with a non-null reference sheet |
| TransformProperties.SummaryCounts | src/transform.py:56-59 | a group's total_recalls, total_high_risks and total_compensations are the numbers of its rows with a reference sheet, a description over 100 characters and a non-empty compensation text; the divisor of average_risk_length is the number of its rows with a description and the dividend the sum of their lengths |
| TransformProperties.RiskLengthsOfDescriptions | src/transform.py:34-59 | avg(risk_length) skips null lengths: summing `HasRiskLength` counts the rows with a non-null description, and summing `RiskLengthValue` adds up exactly those descriptions' lengths |
| TransformProperties.SummaryDistributors | src/transform.py:60-61 | a non-empty group's max_distributors and min_distributors are attained by some row and bound every row's distributor count |
| TransformProperties.AggregationRowCounts | src/transform.py:54-59 | each aggregation row's three counts, and the count and sum behind its average_risk_length, are those values over the filtered recalls of its key |
| TransformProperties.TrendSummaryCounts | src/transform.py:66-68 | a window's monthly_recalls and monthly_high_risks are the numbers of its rows with a reference sheet and with a description over 100 characters |
| TransformProperties.TrendRowCounts | src/transform.py:65-68 | each trend row's two counts are those numbers over the filtered recalls of its window and category |
| Transform.Summarize | src/transform.py:55-62 | a group's counts lie between 0 and its size; max and min are null only for no rows; otherwise size(null) <= min <= max; the exact values of the counts and of the sum and count behind average_risk_length are stated by `SummaryCounts` |
| Transform.Filtered | src/transform.py:30-45 | the kept recalls are exactly those dated in 2023 or later, each kept as often as it occurs (year and month are the helpers `YearOf` and `MonthOf`, null for a null date) |
| Transform.Aggregate | src/transform.py:54-62 | every aggregation row summarises exactly the filtered recalls that have its key |
| Transform.SummarizeAll | src/transform.py:54-62 | one aggregation row per key, in key order, each summarising exactly that key's rows |
| Transform.InsertByMonthFacts | src/transform.py:63 | inserting a key adds exactly that key, keeps a month-sorted sequence sorted and keeps keys distinct |
| Transform.SortByMonthFacts | src/transform.py:63 | the sort `SortByMonth` keeps exactly the same keys, keeps them distinct and orders them by month, nulls first |
| TransformProperties.AggKeysPartition | src/transform.py:54 | the group keys are distinct, every filtered row's key is one of them, and each is some filtered row's key |
| TransformProperties.AggregationKeys | src/transform.py:54-63 | the aggregation has one row per sorted key, in that order |
| TransformProperties.RowInExactlyOneGroup | src/transform.py:54 | every filtered recall belongs to exactly one aggregation row, and the rows' keys are distinct |
| TransformProperties.OnlyRecentRowsCounted | src/transform.py:44-62 | each aggregation row summarises a non-empty group of recalls from 2023 on, all with that row's key |
| TransformProperties.GroupSizesAddUp | src/transform.py:54-56 | the group sizes add up to the number of filtered recalls |
| TransformProperties.TotalsConserved | src/transform.py:54-59 | summed over all aggregation rows, the recalls, high risks, compensations and risk-length sums and counts equal their totals over the filtered recalls |
| TransformProperties.AggregationSortedByMonth | src/transform.py:63 | the aggregation rows come out in ascending month, nulls first |
| TransformProperties.AggRowBounds | src/transform.py:56-61 | each row's counts are at most its group size, and size(null) <= min_distributors <= max_distributors |
| TransformProperties.ExactlyOneWindow | src/transform.py:65 | a date lies in exactly one one-month window, the one of its own year and month (the window of a recall is the helper `WindowOf`, null for a null date) |
| TransformProperties.TrendKeysPartition | src/transform.py:65 | the trend keys are distinct, and they are exactly the (window, category) pairs of the filtered recalls |
| Transform.SummarizeTrend | src/transform.py:66-68 | a window's monthly counts lie between 0 and its number of recalls |
| Transform.SummarizeTrends | src/transform.py:65-69 | one trend row per trend key, each summarising exactly that key's recalls |
| Transform.TrendOf | src/transform.py:65-69 | every trend row summarises exactly the filtered recalls of its window and category |
| TransformProperties.TrendTotalsConserved | src/transform.py:65-69 | summed over all trend rows, monthly_recalls and monthly_high_risks equal their totals over the filtered recalls |
| Transform.MatchesOf | src/transform.py:71-75 | the trend rows an aggregation row joins with are exactly those whose category and month equal its own, both non-null (a trend row's month is the helper `TrendMonth`, the calendar month of its window start) |
| Transform.JoinOne | src/transform.py:71-75 | an aggregation row gives as many output rows as it has matching trend rows, or one row when nothing matches; every matching trend row appears extended with it; each output row carries it, and its trend columns are null iff nothing matches |
| Transform.LeftJoin | src/transform.py:71-75 | every aggregation row appears in some output row, every output row carries an aggregation row, every matching (aggregation row, trend row) pair appears as that aggregation row extended with that trend row's window and counts, and there are at least as many output rows as aggregation rows |
| Transform.TransformData | src/transform.py:27-77 | every aggregation row appears in the result, every result row carries one of them, every matching (aggregation row, trend row) pair appears extended, and the result has at least as many rows as the aggregation |
| JoinProperties.LeftJoinSize | src/transform.py:71-75 | the left join has exactly as many rows as the aggregation rows yield: one per matching trend row, or one null-extended row when none matches (`JoinRowCount`) |
| JoinProperties.TransformDataSize | src/transform.py:71-77 | the result of transform_data has exactly that many rows over its aggregation and trend rows |
| JoinProperties.JoinOneRows | src/transform.py:71-75 | an aggregation row joins to at least one output row, each carrying it unchanged and either a matching trend row or nulls when there is none |
| JoinProperties.LeftJoinKeepsEveryRow | src/transform.py:71-75 | the left join keeps every aggregation row, adds no other, and has at least as many rows as the aggregation |
| JoinProperties.LeftJoinOnePerRow | src/transform.py:71-75 | when no row has two matches the join has exactly one output row per aggregation row, in order |
| JoinProperties.LeftJoinFirsts | src/transform.py:71-75 | when each aggregation row joins to exactly one output row, the i-th output row is the i-th aggregation row's |
| JoinProperties.NullCategoryUnmatched | src/transform.py:73 | an aggregation row with a null category never matches and gets null trend columns |
| JoinProperties.AtMostOneMatch | src/transform.py:71-75 | when every matching trend row has the same key and keys are distinct there is at most one match |
| JoinProperties.SameRowsInYear | src/transform.py:54-69 | within one year the (category, month) group and the (window, category) group hold the same recalls |
| JoinProperties.SingleYearJoin | src/transform.py:54-75 | with all filtered recalls in one year, the result has one row per aggregation row, and its monthly counts equal that row's totals (null for a null category) |
| JoinProperties.JoinRepeatsAcrossYears | src/transform.py:31-75 | two recalls of one category and month in different years share one aggregation row, and the result then has more rows than the aggregation |
| JoinProperties.CrossYearKeys | src/transform.py:31 | two dated recalls of one category and month in different years share their group key but not their trend key, and both trend keys join with it |
| Pipeline.ToySummary | src/transform.py:55-61 | a worked group of two toy recalls of March 2023 gives 2 recalls, 1 high risk, 1 compensation, a risk-length average of 200 / 2 and -1 distributors |
| Pipeline.ToyAggregation | src/transform.py:54-63 | the aggregation of those two recalls is the single row of their category and month with those totals |
| Pipeline.OneRowJoin | src/transform.py:54-77 | when all filtered recalls lie in one year and the aggregation is one row with a category, the result is one row whose monthly counts are that row's totals |
| Pipeline.TwoToysExample | src/transform.py:27-77 | on those two recalls transform_data yields one row whose monthly counts are 2 and 1 |
| Grouping.GroupTotalPartition | src/transform.py:54-59 | summing a column group by group over distinct keys that cover every row gives the column's total |
| Grouping.KeysOf | src/transform.py:54 | the distinct keys of the rows, each the key of some row, every row's key among them |
| Grouping.MaxOf | src/transform.py:60 | null for no rows; otherwise the value of some row and at least every row's value |
| Grouping.MinOf | src/transform.py:61 | null for no rows; otherwise the value of some row and at most every row's value |
| Grouping.Filter | src/transform.py:44-45 | the rows kept are exactly the rows that satisfy the condition, each as many times as it occurs in the input |
| Grouping.SelectCounts | src/transform.py:54 | a group holds every row with its key as many times as it occurs, and no other row |

## Left out

- The Google Cloud clients (Translation, Pub/Sub Lite, BigQuery) and the HTTP request are left out. Instead, the translation result, the fetched page and the publish outcomes are parameters. Also left out: the 60-second sleep, the prints, and JSON encoding.
- `fetch_and_publish` loops forever. `Ingester.Run` models any finite prefix of its passes.
- An exception from `requests.get` or from `response.json()` is not caught in the source, and it ends the process. The model only covers passes that received a page.
- The offset file is written in place, not atomically. The model treats a write as all-or-nothing and does not model a crash half-way through.
- `Ingest.GetOffset`: a file holding `{"offset": null}`, a non-integer offset or malformed JSON is not modelled. The source would return `None` or raise there.
- The offset moves on by LIMIT after a non-empty page even when publishes failed or the page was short. The model states this behaviour. It does not model re-fetching those records.
- Raw records are maps from field name to a string or null. JSON values of other types are not modelled.
- `\s` is modelled as the fixed set of code points for which Python's `str.isspace` holds. Unicode data tables and normalisation are not modelled.
- The translation service is modelled as a function: the same text always gets the same answer.
- `to_date` on the timestamp column is not modelled. A recall carries an optional calendar date, and time zones are not modelled.
- `cleaned_legal_nature`, `day`, `combined_risk`, `category_hierarchy` and `brand_count` are not modelled. No later step of `transform_data` reads them, so they never reach the result.
- `risk_level` is modelled and its properties are proved. It is not part of the result, because the aggregation drops it.
- `rlike("serious|severe|critical")` is modelled as case-sensitive substring search, which is what this regular expression matches.
- `size(split(null))` is -1, the default (non-ANSI) Spark setting. Under ANSI mode it would be null.
- `avg(risk_length)` is kept as its sum and count of non-null lengths. Floating-point division is not modelled.
- Spark does not specify the row order of `groupBy` results or of a join's output. The model takes first-occurrence order for keys, orders the join by aggregation row and then by trend row, and keeps keys of equal month in their existing order under `orderBy`.
- `Transform.TrendMonth`: `trend_df` has no `month` column. A join `on=[..., "month"]` needs that column on both sides, so Spark's analysis rejects the join as written. Spark's `window(..., "1 month")` also rejects a month interval, because window durations must be fixed lengths. The job as written therefore does not get past analysis. The model chooses calendar-month windows and joins a trend row on the calendar month of its window start.
- The streaming execution (micro-batches, watermarks, checkpoints, append mode to BigQuery) is not modelled. `transform_data` is modelled as a function over a finite set of rows.
- `Normalize.ToMessage`: only the key set is stated, not that each key holds its field.
- The ingester's offset file field is named `store`, because `offset` is the name of the file's own entry.
- One might expect idempotent cleaning, case-insensitive matching, atomic offset writes, fetch retries and one joined row per aggregation row. The code does otherwise, and the model follows the code:
  - `clean_text` is not idempotent on whitespace-only input (`Normalize.CleanBlank`).
  - `risk_level` is case-sensitive (`TransformProperties.RiskLevelIsCaseSensitive`).
  - The offset write is not atomic.
  - Fetch errors are not retried.
  - The join can repeat an aggregation row across years (`JoinProperties.JoinRepeatsAcrossYears`).
- `Normalize.Strip` has no contract of its own. Its two halves (`SkipSpaces`, `SkipTrailingSpaces`) and `StripFramed` state what it does.
