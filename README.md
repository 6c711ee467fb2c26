# Snap Insight: column profiling and upload admission

This project models the part of Snap Insight that turns an uploaded CSV into
a dataset profile:

- **Type inference** (`inferType`). Each column becomes one of `string`, `integer`, `float`, `boolean`, `datetime`
  or `categorical`. The type comes from how many of its non-null values are
  boolean words, numbers or dates, and how many distinct values it has.
- **Column profiling** (`profileColumns`). For each header the profile holds:
  - the null and distinct counts;
  - up to 30 samples in first-seen order;
  - the numeric summary (min, max, mean, median) or the datetime summary (earliest, latest value);
  - whether the column is a primary-key candidate or a categorical candidate.
- **Dataset summary** (`computeDatasetProfile`). It counts key candidates and categorical, datetime and
  numeric columns, and computes a 0–100 quality score: the rounded share of
  columns with a type other than string.
- **Client mapping** (`mapApiTypeToUi`, `mapApiResponseToDatasetInfo`). The
  API's type names become the five UI types, and optional fields get their defaults.
- **The upload endpoint's decisions**:
  - which plan tier the caller is on (`resolveTier`);
  - the per-tier limits (`TIERS`);
  - the chain of early returns: no file, not a CSV, file too large, too many rows, no headers or rows;
  - the expiry time and the 50,000-row cut before profiling.

Everything is modelled as values: the source's functions only compute values.

- The JavaScript `Number` and `Date.parse` functions are left abstract. They
  are the two fields of a `Parsers` value, and every lemma holds for any
  implementation of them; `None` stands for `NaN`.
- Numbers are exact reals.
- `Math.round` rounds halves up.
- `String.prototype.trim` removes the ECMAScript whitespace and line-terminator characters.
- The case-insensitive tests (`/_?id$/i`, `toLowerCase().endsWith(".csv")`) fold ASCII letters only.

A few facts worth knowing:

- The identifier-name test matches any name that ends in `id`, such as "valid" or "paid"; the underscore is optional (`DataProfiler.IdLikeExamples`).
- A column with no non-null value is both a string column and a categorical candidate.
- One byte over the 10 MB limit is refused, yet reported as "10.0 MB against a limit of 10"; the size is rounded to one decimal.

`detected_relationships` is the constant 0, marked as a TODO (`data-profiler.ts` line 143): no relationship is computed, and `mapApiResponseToDatasetInfo` only passes the response's relationships through.

Modules:

| module | file | what it holds |
|---|---|---|
| `Wrappers` | wrappers.dfy | `Option` |
| `JsSemantics` | js_semantics.dfy | trim, ASCII case folding, `Math.round`, the fractional-part test, the abstract parsers |
| `SeqUtil` | seq_util.dfy | filtering, distinct values, first-seen de-duplication, prefixes |
| `NumericStats` | numeric_stats.dfy | min, max, mean, sorted copy, median |
| `DataProfiler` | data_profiler.dfy | `inferType`, `profileColumns`, `computeDatasetProfile` and their properties |
| `ProfilerExamples` | profiler_examples.dfy | concrete columns and their types |
| `DatasetApi` | dataset_api.dfy | `mapApiTypeToUi`, `mapApiResponseToDatasetInfo` |
| `Tiers` | tiers.dfy | the three tiers and their limits |
| `UploadRoute` | upload_route.dfy | `resolveTier`, the admission checks, the upload outcome |

## Model

| member | source | states |
|---|---|---|
| JsSemantics.TrimStart | webapp/src/lib/data-profiler.ts:36 | The result is a suffix of the input; everything dropped is whitespace, and the result does not start with whitespace. |
| JsSemantics.TrimEnd | webapp/src/lib/data-profiler.ts:36 | The result is a prefix of the input; everything dropped is whitespace, and the result does not end with whitespace. |
| JsSemantics.TrimIdempotent | webapp/src/lib/data-profiler.ts:36 | `trim` is idempotent: trimming a trimmed value changes nothing. |
| JsSemantics.EndsWithIgnoringCaseIff | webapp/src/app/api/upload/route.ts:53 | The case-insensitive suffix test holds exactly when each of the last characters, case-folded, is the suffix's character at that place. |
| JsSemantics.HasFractionFacts | webapp/src/lib/data-profiler.ts:48 | `n % 1 !== 0` is false for whole numbers, and unchanged by negating n or adding a whole number to it. |
| JsSemantics.TrimEmptyIffAllWhitespace | webapp/src/lib/data-profiler.ts:36 | A value trims to "" (counts as null) exactly when every character of it is whitespace. |
| JsSemantics.LowerAscii | webapp/src/lib/data-profiler.ts:43 | Upper-case ASCII letters map to their lower-case letter; every other character is unchanged. |
| JsSemantics.Lower | webapp/src/app/api/upload/route.ts:53 | Case folding keeps the length and folds each character on its own. |
| JsSemantics.RoundHalfUp | webapp/src/lib/data-profiler.ts:146 | `Math.round(x)` lies in (x − 0.5, x + 0.5]: it is the nearest integer, and halves go up. |
| JsSemantics.RoundHalfUpQuotient | webapp/src/lib/data-profiler.ts:146 | Rounding a/b half up equals the integer division (2a + b) / (2b). |
| SeqUtil.Filter | webapp/src/lib/data-profiler.ts:36 | The kept elements all pass the test and come from the input, and every input element that passes is kept. |
| SeqUtil.FilterAppendOne | webapp/src/lib/data-profiler.ts:36 | `xs.filter(p)` element by element: [] gives [], and appending x appends x to the result exactly when it passes. This fixes the result, order and repeats included. |
| SeqUtil.FilterConcat | webapp/src/lib/data-profiler.ts:36 | Filtering a concatenation is the concatenation of the filtered parts. |
| SeqUtil.FilterComplement | webapp/src/lib/data-profiler.ts:64-65 | Filtering by a test and by its negation splits the input: the two lengths add up to its length. |
| SeqUtil.Dedup | webapp/src/lib/data-profiler.ts:69 | `[...new Set(s)]` has no repeated element and has the same elements as `s`. |
| SeqUtil.DedupFirstSeenOrder | webapp/src/lib/data-profiler.ts:69 | De-duplicated values keep the order of their first appearance in the input. |
| SeqUtil.DistinctCountIffNoDuplicates | webapp/src/lib/data-profiler.ts:104 | `new Set(s).size == s.length` exactly when no value repeats. |
| SeqUtil.FirstIndex | webapp/src/lib/data-profiler.ts:69 | The position of the first occurrence: the value is there and not before it. |
| SeqUtil.Take | webapp/src/lib/data-profiler.ts:69 | `slice(0, n)` keeps the first n elements, or all of them when there are fewer. |
| NumericStats.Min | webapp/src/lib/data-profiler.ts:81 | `Math.min(...nums)` is one of the numbers and no larger than any of them. |
| NumericStats.Max | webapp/src/lib/data-profiler.ts:82 | `Math.max(...nums)` is one of the numbers and no smaller than any of them. |
| NumericStats.SortAscendingSpec | webapp/src/lib/data-profiler.ts:84 | `SortAscending`: the sorted copy is in ascending order and is a permutation of the numbers. |
| NumericStats.InsertSorted | webapp/src/lib/data-profiler.ts:84 | Inserting into an ascending sequence keeps it ascending. |
| NumericStats.InsertMultiset | webapp/src/lib/data-profiler.ts:84 | Inserting adds exactly one occurrence of the inserted number. |
| NumericStats.SortedPermutationUnique | webapp/src/lib/data-profiler.ts:84 | Two ascending permutations of the same numbers are equal, so any correct sort gives the same copy. |
| NumericStats.SumBounds | webapp/src/lib/data-profiler.ts:83 | `Sum`, the `reduce` sum, of n numbers in [lo, hi] lies in [n·lo, n·hi]. |
| NumericStats.MeanBetween | webapp/src/lib/data-profiler.ts:83 | `Mean`, the average of numbers in [lo, hi], lies in [lo, hi]. |
| NumericStats.MeanWithinRange | webapp/src/lib/data-profiler.ts:81-83 | The mean lies between the minimum and the maximum. |
| NumericStats.MedianOfSortedBetween | webapp/src/lib/data-profiler.ts:85-88 | `MedianOfSorted`, the middle element or the mean of the two middle ones of sorted numbers in [lo, hi] lies in [lo, hi]. |
| NumericStats.MedianWithinRange | webapp/src/lib/data-profiler.ts:81-88 | `Median`, computed on the sorted copy, lies between the minimum and the maximum. |
| NumericStats.MedianOrderIndependent | webapp/src/lib/data-profiler.ts:84-88 | Two orderings of the same numbers have the same median. |
| NumericStats.MedianOddExample | webapp/src/lib/data-profiler.ts:86-87 | An odd count takes the middle element: [1, 2, 3] has median 2. |
| NumericStats.MedianEvenExample | webapp/src/lib/data-profiler.ts:88 | An even count averages the two middle elements: [1, 2, 3, 4] has median 2.5. |
| NumericStats.MedianUnsortedExample | webapp/src/lib/data-profiler.ts:84-87 | The median is taken after sorting: [3, 1, 2] has median 2. |
| DataProfiler.ParsedNumbersAppendOne | webapp/src/lib/data-profiler.ts:39 | `values.map(Number).filter(...)` value by value: [] gives [], and one more value appends its number exactly when `Number` reads it. This fixes the numbers, order and repeats included. |
| DataProfiler.ParsedNumbersConcat | webapp/src/lib/data-profiler.ts:39 | Parsing a concatenation of columns gives the concatenation of their parsed numbers. |
| DataProfiler.ParsedNumbersMembers | webapp/src/lib/data-profiler.ts:39 | Every number read from a value is among the parsed numbers, and each parsed number comes from some value. |
| DataProfiler.ParsedNumbersAll | webapp/src/lib/data-profiler.ts:39 | When every value is a number, nothing is dropped and the i-th number is the i-th value's. |
| DataProfiler.Classify | webapp/src/lib/data-profiler.ts:37-55 | The decision chain on the counts, each type as an if-and-only-if that includes the earlier tests failing. Boolean: ≥ 90% boolean words. Integer or float: else ≥ 90% numbers, float exactly when one has a fraction. Datetime: else ≥ 80% dates. Categorical: else ≤ 20 distinct. String: no value, or every test fails. |
| DataProfiler.InferTypeOutcomes | webapp/src/lib/data-profiler.ts:35-56 | `inferType` on the non-null values, as an if-and-only-if per type. Boolean exactly when ≥ 90% are boolean words. Otherwise integer or float exactly when ≥ 90% are numbers; float exactly when one has a fractional part. Otherwise datetime exactly when ≥ 80% are dates. Otherwise categorical exactly when ≤ 20 distinct. String when there is no value or every test fails. Also: a datetime column has a date and a categorical one a value. |
| DataProfiler.InferTypeAllBlank | webapp/src/lib/data-profiler.ts:36-37 | A column of empty or whitespace-only values has no non-null value and is a string column. |
| DataProfiler.InferTypeIgnoresBlanks | webapp/src/lib/data-profiler.ts:36 | The type is decided by the non-null values alone. |
| DataProfiler.InferTypeBlankPadding | webapp/src/lib/data-profiler.ts:36 | Appending null values to a column does not change its type. |
| DataProfiler.AllBooleanWords | webapp/src/lib/data-profiler.ts:41-46 | A non-empty column of boolean words is boolean whatever `Number` makes of the words: the boolean test comes first. |
| DataProfiler.AllNumbers | webapp/src/lib/data-profiler.ts:39-49 | A column of numbers that are not boolean words is float when some number has a fractional part, integer otherwise. |
| DataProfiler.IdLikeIff | webapp/src/lib/data-profiler.ts:33 | `/_?id$/i` holds exactly when the name's last two characters are `i` or `I`, then `d` or `D`. |
| DataProfiler.TrimmedValueClassifiesAlike | webapp/src/lib/data-profiler.ts:36-43 | Surrounding whitespace never changes whether a value is null or a boolean word. |
| DataProfiler.NonBlankAppendOne | webapp/src/lib/data-profiler.ts:36 | The non-null values value by value: [] gives [], and one more value is appended exactly when it is not blank. |
| DataProfiler.IdLikeExamples | webapp/src/lib/data-profiler.ts:33 | `/_?id$/i` accepts "user_id", "ID", "valid" and "paid", and rejects "amount", "identity" and "d". |
| DataProfiler.EarliestIndex | webapp/src/lib/data-profiler.ts:92-97 | The first element of the stably sorted dated values is the first value carrying the smallest timestamp; there is none exactly when no value parses as a date. |
| DataProfiler.LatestIndex | webapp/src/lib/data-profiler.ts:92-98 | The last element of the stably sorted dated values is the last value carrying the largest timestamp; there is none exactly when no value parses as a date. |
| DataProfiler.EarliestNotAfterLatest | webapp/src/lib/data-profiler.ts:95-98 | Both ends exist together, and the earliest timestamp is not after the latest. |
| DataProfiler.ColumnValues | webapp/src/lib/data-profiler.ts:63 | One value per row; a row without the header gives "". |
| DataProfiler.ProfileColumns | webapp/src/lib/data-profiler.ts:58-124 | One profile per header, in header order, with the header's name and ordinal position idx + 1; each is computed from its own column. |
| DataProfiler.ProfileCounts | webapp/src/lib/data-profiler.ts:63-67 | The null count is the number of blank values, so null plus non-null is the row count. The distinct count never exceeds the non-null count and is 0 exactly when every row is null. The type is `inferType` of the column. |
| DataProfiler.SamplesSpec | webapp/src/lib/data-profiler.ts:69 | `Samples` keeps min(distinct, 30) of them, no repeats, each one a value of the column, in first-seen order; when there are at most 30 distinct values, all of them. |
| DataProfiler.SamplesFirstSeen | webapp/src/lib/data-profiler.ts:69 | A value missing from the samples means that 30 samples were taken, all first seen before it. |
| DataProfiler.ProfileSamples | webapp/src/lib/data-profiler.ts:66-69 | A profile's samples and distinct count are those of its column's non-null values. |
| DataProfiler.ProfileNumericSummary | webapp/src/lib/data-profiler.ts:78-90 | All four numeric statistics are present exactly for integer and float columns. Min and max bound every number read and are attained. Mean and median lie between them, and an integer column has whole min and max. |
| DataProfiler.ProfileDatetimeSummary | webapp/src/lib/data-profiler.ts:91-100 | Earliest and latest are present exactly for datetime columns: the first value with the smallest timestamp and the last value with the largest. |
| DataProfiler.ProfileCandidates | webapp/src/lib/data-profiler.ts:102-106 | Key candidate exactly when the name is identifier-like, there is a row, every value is present and none repeats. Categorical candidate exactly when the type is categorical or there is no non-null value. |
| DataProfiler.ProfileAllNullColumn | webapp/src/lib/data-profiler.ts:62-124 | A column whose rows are all missing or blank is a string column. Every row is null; it has no distinct value, sample or statistic, is a categorical candidate and is not a key candidate. |
| DataProfiler.ProfileWithoutValues | webapp/src/lib/data-profiler.ts:62-124 | The same profile for any column without a non-null value. |
| DataProfiler.CountWhere | webapp/src/lib/data-profiler.ts:135 | `columns.filter(p).length` never exceeds the number of columns. |
| DataProfiler.CountWhereIsFilterLength | webapp/src/lib/data-profiler.ts:135-145 | Each count of `computeDatasetProfile` is the length of `columns.filter(p)`. |
| DataProfiler.CountWhereExtremes | webapp/src/lib/data-profiler.ts:135-145 | A count equals the number of columns exactly when all pass, and is 0 exactly when none does. |
| DataProfiler.CountWhereMonotone | webapp/src/lib/data-profiler.ts:135-145 | A weaker test counts at least as many columns. |
| DataProfiler.CountWhereSame | webapp/src/lib/data-profiler.ts:135-145 | Tests that agree on every column give the same count. |
| DataProfiler.CountWhereDisjointUnion | webapp/src/lib/data-profiler.ts:135-145 | The count for one of two exclusive tests is the sum of their counts. |
| DataProfiler.QualityScoreClosedForm | webapp/src/lib/data-profiler.ts:144-146 | The score is (200·withTypes + total) / (2·total) in integer division. |
| DataProfiler.QualityScoreBounds | webapp/src/lib/data-profiler.ts:144-146 | `QualityScore` is in [0, 100]. It is 0 with no typed column, 100 when all are typed, and never falls as more columns are typed. |
| DataProfiler.QualityScoreExamples | webapp/src/lib/data-profiler.ts:146 | 3 typed of 4 score 75; 1 of 8 (12.5%) rounds to 13; 2 of 3 score 67; no columns score 0. |
| DataProfiler.DatasetSummaryFacts | webapp/src/lib/data-profiler.ts:127-155 | `ComputeDatasetProfile` reports no relationships; the score is in [0, 100]. Numeric and datetime columns together are at most the typed columns, and the key and categorical counts are at most the column count. |
| DataProfiler.SummaryOfProfiles | webapp/src/lib/data-profiler.ts:135-142 | On real profiles, the numeric and datetime counts are the numbers of columns with a numeric or datetime summary. The categorical count is the number of categorical candidates: the type test in the filter adds nothing. |
| ProfilerExamples.PlainWord | webapp/src/lib/data-profiler.ts:43 | For a word with no whitespace and no capitals, the boolean test is membership in the six words. |
| ProfilerExamples.BooleanBeforeNumericExample | webapp/src/lib/data-profiler.ts:46-47 | ["1", "0", "1", "0"] is boolean, not integer. |
| ProfilerExamples.FloatExample | webapp/src/lib/data-profiler.ts:47-49 | ["10", "20", "30.5"] is float. |
| ProfilerExamples.IntegerExample | webapp/src/lib/data-profiler.ts:47-49 | ["10", "20", "30"] is integer. |
| DatasetApi.MapApiTypeToUi | webapp/src/lib/dataset-api.ts:3-9 | Number exactly for integer and float, and date exactly for datetime. Boolean, categorical and string keep their name, and every other name becomes string. |
| DatasetApi.MapInferredTypes | webapp/src/lib/dataset-api.ts:3-9 | Each of the six profiler types reaches its UI type; only integer, float and datetime change name. |
| DatasetApi.MapUiNames | webapp/src/lib/dataset-api.ts:3-9 | A UI type's own name maps back to it, except "number" and "date", which become string. |
| DatasetApi.PreferNumeric | webapp/src/lib/dataset-api.ts:35-36 | `??` takes the numeric statistic when present, else the datetime one, and is absent only when both are. |
| DatasetApi.MapColumn | webapp/src/lib/dataset-api.ts:30-40 | Name and counts are copied and the type is mapped. Min and max are absent exactly when both statistics are. A numeric statistic wins, and otherwise the datetime string is taken. Missing samples become [] and missing flags become false. |
| DatasetApi.MapApiResponseToDatasetInfo | webapp/src/lib/dataset-api.ts:25-42 | Identity and sizes are copied, the columns are mapped one by one in order, and missing relationships become []. |
| DatasetApi.MappingDistributesOverColumns | webapp/src/lib/dataset-api.ts:30-41 | Mapping a longer column list appends the mapped extra columns and changes nothing else. |
| Tiers.LimitsOrdered | webapp/src/lib/supabase.ts:24-40 | `Limits`, the tier table: the two free tiers share size and row limits below the paid tier's. Retention is 15 minutes, then a day, then 30 days. |
| Tiers.TierNamesDistinct | webapp/src/lib/supabase.ts:24-42 | The tier names identify the tiers. |
| UploadRoute.ResolveTier | webapp/src/app/api/upload/route.ts:11-24 | Anonymous exactly when there is no (or an empty) user id. Paid exactly for a user whose subscription is active and whose period end (`PeriodEnd`, `HasPaidPeriod`) parses to a time after now. Free otherwise, including a missing profile. |
| UploadRoute.PaidNeedsFuturePeriodEnd | webapp/src/app/api/upload/route.ts:19-22 | An active subscription without a period end is never paid after the epoch, and a paid tier stays paid at every earlier time. |
| UploadRoute.CheckUpload | webapp/src/app/api/upload/route.ts:47-90 | No file gives the 400 "No file provided"; a name failing `IsCsvName` (no ".csv" ending in any case) gives the 400 "Only CSV files are supported". A request is admitted exactly when it has a CSV within the size and row limits, and a 413 only follows a CSV name. |
| UploadRoute.FileSizeCheckInBytes | webapp/src/app/api/upload/route.ts:60-61 | The megabyte comparison on `FileSizeMB` is the byte comparison size > limit·1024·1024. |
| UploadRoute.LimitRejections | webapp/src/app/api/upload/route.ts:60-90 | An oversized CSV gets a 413 naming the size limit, whatever its row count. The reported size (`ReportedSizeMB`) is never below the limit and is within 0.05 MB of the true size. Otherwise too many rows get a 413 with the estimate and the row limit. |
| UploadRoute.SizeJustOverLimitReportsLimit | webapp/src/app/api/upload/route.ts:60-73 | 10 MB plus one byte is refused on a free tier and reported as 10.0 MB against a limit of 10. |
| UploadRoute.TierAdmissionMonotone | webapp/src/app/api/upload/route.ts:43-90 | The paid tier admits whatever a free tier admits, and the two free tiers decide every request alike. |
| UploadRoute.HandleUploadProfiles | webapp/src/app/api/upload/route.ts:92-162 | `HandleUpload` profiles a request exactly when it passes its tier's checks and the CSV has a header and a row. Each header is then profiled on the first min(rows, 50,000) rows. The upload expires retentionHours·3,600,000 ms after now, or 900,000 ms for an anonymous caller. |
| UploadRoute.HandleUploadRejections | webapp/src/app/api/upload/route.ts:47-159 | A missing file and a non-CSV name are refused first, then any limit. The "no headers or no data rows" 400 comes exactly when the limits pass and the CSV has no header or no row. |

## Left out

- Storage and the database are not modelled: the session, dataset and column inserts and the persistence loop (`route.ts` lines 95-142 and 164-219). The profiles and summary they would store are the model's output.
- `estimateRowCount` is not modelled; the estimate is a parameter of the admission check.
- The CSV parser (header detection, `skipEmptyLines`, the `preview` row limit) is not modelled. The parsed headers and rows are an input, and the row limit is applied as a cut of the row list.
- The clock is the parameter `now`. The route reads `Date.now()` twice, once to decide the tier (`route.ts` line 21) and once for the expiry (line 93); the model uses the one `now` for both. The user id and the profile row, which come from the authentication service and the database, are parameters as well.
- The `try`/`catch` that answers 500 on any exception is not modelled, nor are the 500 responses of the storage steps.
- `Number` and `Date.parse` are abstract. Their grammars (hex literals, exponents, whitespace, date formats) are not modelled; every property holds for any pair of parsers.
- Floating point is not modelled: numbers, sums, means and medians are exact reals, and infinities are not represented.
- NumericStats.MeanWithinRange: min ≤ mean ≤ max holds on exact reals only. In doubles, the float column ["0.1", "0.1", "0.1"] sums to 0.30000000000000004, so its mean 0.10000000000000002 exceeds its maximum 0.1.
- DataProfiler.ProfileNumericSummary: its bound min ≤ avg ≤ max is on exact reals and fails in doubles for the same column ["0.1", "0.1", "0.1"].
- `DataProfiler.QualityScoreClosedForm`: the score is computed on exact rationals. In doubles, `(23 / 40) * 100` is 57.49999999999999 and rounds to 57, where the exact share 57.5 rounds to 58.
- Relationship inference is not modelled, because the code computes none: the count is the constant 0.
- `Math.min(...nums)` and `Math.max(...nums)` are modelled as the minimum and maximum. The engine's limit on the number of spread arguments is not modelled.
- The numeric `sort` is modelled by insertion sort together with the lemma that an ascending permutation is unique. The datetime `sort` is modelled by its first-minimum and last-maximum positions, which is what a stable sort yields.
- Object property lookups inherited from the prototype (a header named like a built-in property) are not modelled; a row is a plain map.
- Non-ASCII case folding is not modelled: both case-insensitive tests fold only ASCII letters.
