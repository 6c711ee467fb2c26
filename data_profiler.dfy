/**
 * Deterministic type inference and column profiling for parsed CSV data: one
 * profile per header (type, null and distinct counts, samples, numeric or
 * datetime summary, key and categorical candidacy) and a dataset summary.
 *
 * Values are raw strings; a row is a map from header to value, and a header a
 * row does not carry reads as the empty string.
 */
module DataProfiler {
  import opened Wrappers
  import opened JsSemantics
  import opened SeqUtil
  import opened NumericStats

  /** The six column types, each with the name the API and the database use. */
  datatype InferredType = String | Integer | Float | Boolean | Datetime | Categorical {
    function Name(): string {
      match this
      case String => "string"
      case Integer => "integer"
      case Float => "float"
      case Boolean => "boolean"
      case Datetime => "datetime"
      case Categorical => "categorical"
    }
  }

  type Row = map<string, string>

  /**
   * The profile of one column. The optional statistics are `None` where the
   * source leaves the field `undefined`.
   */
  datatype ColumnProfile = ColumnProfile(
    name: string,
    ordinalPosition: nat,
    inferredType: InferredType,
    nullCount: nat,
    distinctCount: nat,
    isPrimaryKeyCandidate: bool,
    isCategoricalCandidate: bool,
    samples: seq<string>,
    minNumeric: Option<real>,
    maxNumeric: Option<real>,
    avgNumeric: Option<real>,
    medianNumeric: Option<real>,
    minDatetime: Option<string>,
    maxDatetime: Option<string>)

  /** The counts and the 0-100 quality score computed over all column profiles. */
  datatype DatasetSummary = DatasetSummary(
    probablePrimaryKeys: nat,
    categoricalColumns: nat,
    datetimeColumns: nat,
    numericColumns: nat,
    detectedRelationships: nat,
    qualityScore: int)

  /** At most this many distinct values are kept as samples. */
  const MaxSamples: nat := 30
  /** A column with at most this many distinct values is categorical. */
  const CategoricalThreshold: nat := 20

  /**
   * The name test `/_?id$/i`. The underscore is optional, so any name ending
   * in "id" in either case matches.
   */
  predicate IsIdLike(name: string) {
    EndsWithIgnoringCase(name, "id")
  }

  /** A missing, empty or whitespace-only value counts as null. */
  predicate IsBlank(v: string) {
    Trim(v) == ""
  }

  predicate IsPresent(v: string) {
    !IsBlank(v)
  }

  /** The values that are not null, in column order. */
  function NonBlank(values: seq<string>): seq<string> {
    Filter(values, IsPresent)
  }

  /** The test `/^(true|false|1|0|yes|no)$/i` applied to the trimmed value. */
  predicate IsBooleanWord(v: string) {
    Lower(Trim(v)) in {"true", "false", "1", "0", "yes", "no"}
  }

  /** `Date.parse(v)` is a number rather than NaN. */
  predicate HasDate(js: Parsers, v: string) {
    js.parseDate(v).Some?
  }

  /** How many values pass the boolean test. */
  function BooleanCount(values: seq<string>): nat {
    |Filter(values, IsBooleanWord)|
  }

  /** How many values `Date.parse` accepts. */
  function DateCount(js: Parsers, values: seq<string>): nat {
    |Filter(values, v => HasDate(js, v))|
  }

  /** `values.map(Number).filter((n) => !Number.isNaN(n))`: the parsed numbers, in order. */
  function ParsedNumbers(js: Parsers, values: seq<string>): (r: seq<real>)
    ensures |r| <= |values|
  {
    if values == [] then []
    else
      var rest := ParsedNumbers(js, values[1..]);
      match js.toNumber(values[0])
      case Some(n) => [n] + rest
      case None => rest
  }

  /** Every number `Number` makes of a value is among the parsed numbers, and nothing else is. */
  lemma {:induction false} ParsedNumbersMembers(js: Parsers, values: seq<string>)
    ensures forall v :: v in values && js.toNumber(v).Some? ==> js.toNumber(v).value in ParsedNumbers(js, values)
    ensures forall x :: x in ParsedNumbers(js, values) ==> exists v :: v in values && js.toNumber(v) == Some(x)
  {
    if values != [] {
      ParsedNumbersMembers(js, values[1..]);
      assert forall v :: v in values[1..] ==> v in values;
      assert values == [values[0]] + values[1..];
    }
  }

  /** Parsing a concatenation parses each part. */
  lemma {:induction false} ParsedNumbersConcat(js: Parsers, a: seq<string>, b: seq<string>)
    ensures ParsedNumbers(js, a + b) == ParsedNumbers(js, a) + ParsedNumbers(js, b)
  {
    if a == [] {
      assert a + b == b;
    } else {
      assert (a + b)[0] == a[0];
      assert (a + b)[1..] == a[1..] + b;
      ParsedNumbersConcat(js, a[1..], b);
    }
  }

  /**
   * The parsed numbers value by value: none from no value, and one more
   * value adds its number at the end exactly when `Number` reads it. Together
   * these fix the list, order and repeated numbers included.
   */
  lemma ParsedNumbersAppendOne(js: Parsers, values: seq<string>, v: string)
    ensures ParsedNumbers(js, []) == []
    ensures ParsedNumbers(js, values + [v]) ==
      ParsedNumbers(js, values) + (if js.toNumber(v).Some? then [js.toNumber(v).value] else [])
  {
    ParsedNumbersConcat(js, values, [v]);
    assert [v][1..] == [];
  }

  /** Some parsed number is not whole (`numeric.some((n) => n % 1 !== 0)`). */
  predicate AnyFraction(nums: seq<real>) {
    exists i :: 0 <= i < |nums| && HasFraction(nums[i])
  }

  /**
   * The decision chain, on the counts it compares: boolean words for at least
   * 90% of the `n` non-null values, then numbers for at least 90% (integer
   * unless one has a fractional part), then dates for at least 80%, then at
   * most 20 distinct values, otherwise string. The thresholds
   * `count >= n * 0.9` and `count >= n * 0.8` are written as the equivalent
   * integer comparisons.
   */
  function Classify(n: nat, bools: nat, numbers: nat, anyFraction: bool, dates: nat, distinct: nat): (t: InferredType)
    ensures t == Boolean <==> n > 0 && 10 * bools >= 9 * n
    ensures t == Integer <==> n > 0 && 10 * bools < 9 * n && 10 * numbers >= 9 * n && !anyFraction
    ensures t == Float <==> n > 0 && 10 * bools < 9 * n && 10 * numbers >= 9 * n && anyFraction
    ensures t == Datetime <==> n > 0 && 10 * bools < 9 * n && 10 * numbers < 9 * n && 5 * dates >= 4 * n
    ensures t == Categorical <==>
      n > 0 && 10 * bools < 9 * n && 10 * numbers < 9 * n && 5 * dates < 4 * n && distinct <= CategoricalThreshold
    ensures t == String <==>
      n == 0 || (10 * bools < 9 * n && 10 * numbers < 9 * n && 5 * dates < 4 * n && distinct > CategoricalThreshold)
  {
    if n == 0 then String
    else if 10 * bools >= 9 * n then Boolean
    else if 10 * numbers >= 9 * n then (if anyFraction then Float else Integer)
    else if 5 * dates >= 4 * n then Datetime
    else if distinct <= CategoricalThreshold && n > 0 then Categorical
    else String
  }

  /** `inferType`: the type of a column, from the counts over its non-null values. */
  function InferType(js: Parsers, values: seq<string>): InferredType {
    var nonNull := NonBlank(values);
    var numeric := ParsedNumbers(js, nonNull);
    Classify(|nonNull|, BooleanCount(nonNull), |numeric|, AnyFraction(numeric),
             DateCount(js, nonNull), DistinctCount(nonNull))
  }

  /** Position `k` holds the earliest timestamp of `s`, and no earlier position holds that timestamp. */
  predicate IsFirstEarliest(js: Parsers, s: seq<string>, k: nat) {
    && k < |s| && HasDate(js, s[k])
    && (forall j :: 0 <= j < |s| && HasDate(js, s[j]) ==> js.parseDate(s[k]).value <= js.parseDate(s[j]).value)
    && (forall j :: 0 <= j < k && HasDate(js, s[j]) ==> js.parseDate(s[k]).value < js.parseDate(s[j]).value)
  }

  /** Position `k` holds the latest timestamp of `s`, and no later position holds that timestamp. */
  predicate IsLastLatest(js: Parsers, s: seq<string>, k: nat) {
    && k < |s| && HasDate(js, s[k])
    && (forall j :: 0 <= j < |s| && HasDate(js, s[j]) ==> js.parseDate(s[j]).value <= js.parseDate(s[k]).value)
    && (forall j :: k < j < |s| && HasDate(js, s[j]) ==> js.parseDate(s[j]).value < js.parseDate(s[k]).value)
  }

  /**
   * Where the first element of the stably sorted timestamps comes from: the
   * first position holding the earliest timestamp, if any value has one.
   */
  function EarliestIndex(js: Parsers, s: seq<string>): (r: Option<nat>)
    ensures r.None? <==> forall i :: 0 <= i < |s| ==> !HasDate(js, s[i])
    ensures r.Some? ==> IsFirstEarliest(js, s, r.value)
    decreases |s|
  {
    if s == [] then None
    else
      var p := s[..|s| - 1];
      var r := EarliestIndex(js, p);
      var last := |s| - 1;
      assert forall j :: 0 <= j < |p| ==> p[j] == s[j];
      if !HasDate(js, s[last]) then r
      else if r.None? || js.parseDate(s[last]).value < js.parseDate(s[r.value]).value then Some(last)
      else r
  }

  /**
   * Where the last element of the stably sorted timestamps comes from: the
   * last position holding the latest timestamp, if any value has one.
   */
  function LatestIndex(js: Parsers, s: seq<string>): (r: Option<nat>)
    ensures r.None? <==> forall i :: 0 <= i < |s| ==> !HasDate(js, s[i])
    ensures r.Some? ==> IsLastLatest(js, s, r.value)
    decreases |s|
  {
    if s == [] then None
    else
      var p := s[..|s| - 1];
      var r := LatestIndex(js, p);
      var last := |s| - 1;
      assert forall j :: 0 <= j < |p| ==> p[j] == s[j];
      if !HasDate(js, s[last]) then r
      else if r.None? || js.parseDate(s[r.value]).value <= js.parseDate(s[last]).value then Some(last)
      else r
  }

  /**
   * Both ends exist together, and the earliest timestamp is not after the
   * latest; when both ends fall on the same position, every dated value
   * carries that one timestamp.
   */
  lemma EarliestNotAfterLatest(js: Parsers, s: seq<string>)
    requires EarliestIndex(js, s).Some?
    ensures LatestIndex(js, s).Some?
    ensures js.parseDate(s[EarliestIndex(js, s).value]).value <= js.parseDate(s[LatestIndex(js, s).value]).value
    ensures EarliestIndex(js, s) == LatestIndex(js, s) ==>
      forall j :: 0 <= j < |s| && HasDate(js, s[j]) ==> js.parseDate(s[j]) == js.parseDate(s[EarliestIndex(js, s).value])
  {
  }

  /** `rows.map((r) => r[name] ?? "")`: the column's raw values, one per row. */
  function ColumnValues(rows: seq<Row>, name: string): (values: seq<string>)
    ensures |values| == |rows|
    ensures forall i :: 0 <= i < |rows| ==> values[i] == if name in rows[i] then rows[i][name] else ""
  {
    seq(|rows|, i requires 0 <= i < |rows| => if name in rows[i] then rows[i][name] else "")
  }

  /** `[...new Set(nonNull)].slice(0, MAX_SAMPLES)`: the first 30 distinct values, in first-seen order. */
  function Samples(nonNull: seq<string>): seq<string> {
    Take(Dedup(nonNull), MaxSamples)
  }

  /** The profile of column `name`, the `idx`-th header. */
  function ProfileColumn(js: Parsers, rows: seq<Row>, name: string, idx: nat): ColumnProfile {
    var values := ColumnValues(rows, name);
    var nonNull := NonBlank(values);
    var nullCount := |rows| - |nonNull|;
    var distinctCount := DistinctCount(nonNull);
    var t := InferType(js, values);
    var samples := Samples(nonNull);
    var nums := ParsedNumbers(js, nonNull);
    var numeric := (t == Integer || t == Float) && |nums| > 0;
    var earliest := EarliestIndex(js, nonNull);
    var latest := LatestIndex(js, nonNull);
    var isPrimaryKeyCandidate :=
      IsIdLike(name) && distinctCount == |nonNull| && nullCount == 0 && |nonNull| > 0;
    var isCategoricalCandidate :=
      t == Categorical || (t == String && distinctCount <= CategoricalThreshold);
    ColumnProfile(
      name, idx + 1, t, nullCount, distinctCount,
      isPrimaryKeyCandidate, isCategoricalCandidate, samples,
      if numeric then Some(Min(nums)) else None,
      if numeric then Some(Max(nums)) else None,
      if numeric then Some(Mean(nums)) else None,
      if numeric then Some(Median(nums)) else None,
      if t == Datetime && earliest.Some? then Some(nonNull[earliest.value]) else None,
      if t == Datetime && latest.Some? then Some(nonNull[latest.value]) else None)
  }

  /**
   * `profileColumns`: one profile per header, in header order, each computed
   * from its own column alone.
   */
  function ProfileColumns(js: Parsers, rows: seq<Row>, headers: seq<string>): (r: seq<ColumnProfile>)
    ensures |r| == |headers|
    ensures forall i :: 0 <= i < |headers| ==> r[i].name == headers[i] && r[i].ordinalPosition == i + 1
    ensures forall i :: 0 <= i < |headers| ==> r[i] == ProfileColumn(js, rows, headers[i], i)
  {
    seq(|headers|, i requires 0 <= i < |headers| => ProfileColumn(js, rows, headers[i], i))
  }

  /** `columns.filter(p).length`. */
  function CountWhere(cols: seq<ColumnProfile>, p: ColumnProfile -> bool): (n: nat)
    ensures n <= |cols|
  {
    if cols == [] then 0 else (if p(cols[0]) then 1 else 0) + CountWhere(cols[1..], p)
  }

  predicate IsKeyCandidate(c: ColumnProfile) {
    c.isPrimaryKeyCandidate
  }

  predicate IsDatetimeType(c: ColumnProfile) {
    c.inferredType == Datetime
  }

  predicate IsNumericType(c: ColumnProfile) {
    c.inferredType == Integer || c.inferredType == Float
  }

  predicate HasNumericSummary(c: ColumnProfile) {
    c.minNumeric.Some?
  }

  predicate HasDatetimeSummary(c: ColumnProfile) {
    c.minDatetime.Some?
  }

  predicate IsCategoricalFlagged(c: ColumnProfile) {
    c.isCategoricalCandidate
  }

  predicate IsNumericOrDatetime(c: ColumnProfile) {
    IsNumericType(c) || IsDatetimeType(c)
  }

  predicate IsTyped(c: ColumnProfile) {
    c.inferredType != String
  }

  predicate CountsAsCategorical(c: ColumnProfile) {
    c.inferredType == Categorical || c.isCategoricalCandidate
  }

  /** `Math.round((withTypes / totalCols) * 100)`, and 0 when there are no columns. */
  function QualityScore(withTypes: nat, totalCols: nat): int {
    if totalCols == 0 then 0
    else RoundHalfUp((withTypes as real / totalCols as real) * 100.0)
  }

  /** `computeDatasetProfile`: counts over the profiles and the share of typed columns. */
  function ComputeDatasetProfile(cols: seq<ColumnProfile>): DatasetSummary {
    DatasetSummary(
      CountWhere(cols, IsKeyCandidate),
      CountWhere(cols, CountsAsCategorical),
      CountWhere(cols, IsDatetimeType),
      CountWhere(cols, IsNumericType),
      0,
      QualityScore(CountWhere(cols, IsTyped), |cols|))
  }

  // ---------------------------------------------------------------------
  // Type inference

  /** A column whose every value is empty or whitespace-only is a string column. */
  lemma InferTypeAllBlank(js: Parsers, values: seq<string>)
    requires forall i, k :: 0 <= i < |values| && 0 <= k < |values[i]| ==> IsWhitespace(values[i][k])
    ensures NonBlank(values) == []
    ensures InferType(js, values) == String
  {
    forall i | 0 <= i < |values| ensures !IsPresent(values[i]) {
      TrimEmptyIffAllWhitespace(values[i]);
    }
    FilterNone(values, IsPresent);
  }

  /**
   * `inferType` as a decision on the non-null values: boolean exactly when at
   * least 90% are boolean words; otherwise integer or float exactly when at
   * least 90% are numbers (float exactly when one has a fractional part);
   * otherwise datetime exactly when at least 80% are dates; otherwise
   * categorical exactly when there are at most 20 distinct values; string
   * when there is no value or every test fails.
   */
  lemma InferTypeOutcomes(js: Parsers, values: seq<string>)
    ensures var nn, t := NonBlank(values), InferType(js, values);
      var n, bools, nums, dates, distinct := |nn|, BooleanCount(nn), ParsedNumbers(js, nn), DateCount(js, nn), DistinctCount(nn);
      && (t == Boolean <==> n > 0 && 10 * bools >= 9 * n)
      && (t == Integer <==> n > 0 && 10 * bools < 9 * n && 10 * |nums| >= 9 * n && !AnyFraction(nums))
      && (t == Float <==> n > 0 && 10 * bools < 9 * n && 10 * |nums| >= 9 * n && AnyFraction(nums))
      && (t == Datetime <==> n > 0 && 10 * bools < 9 * n && 10 * |nums| < 9 * n && 5 * dates >= 4 * n)
      && (t == Categorical <==>
            n > 0 && 10 * bools < 9 * n && 10 * |nums| < 9 * n && 5 * dates < 4 * n && distinct <= CategoricalThreshold)
      && (t == String <==>
            n == 0 || (10 * bools < 9 * n && 10 * |nums| < 9 * n && 5 * dates < 4 * n && distinct > CategoricalThreshold))
      && (t == Integer ==> forall i :: 0 <= i < |nums| ==> !HasFraction(nums[i]))
      && (t == Datetime ==> exists i :: 0 <= i < n && HasDate(js, nn[i]))
      && (t == Categorical ==> 1 <= distinct)
  {
    var nn := NonBlank(values);
    if InferType(js, values) == Datetime {
      var dates := Filter(nn, v => HasDate(js, v));
      assert dates[0] in nn;
    }
    if InferType(js, values) == Categorical {
      assert nn[0] in Elements(nn);
    }
  }

  /** The type depends only on the non-null values. */
  lemma InferTypeIgnoresBlanks(js: Parsers, values: seq<string>)
    ensures InferType(js, values) == InferType(js, NonBlank(values))
  {
    FilterIdempotent(values, IsPresent);
    assert NonBlank(NonBlank(values)) == NonBlank(values);
  }

  /** Appending null values to a column does not change its type. */
  lemma InferTypeBlankPadding(js: Parsers, values: seq<string>, blanks: seq<string>)
    requires forall i :: 0 <= i < |blanks| ==> IsBlank(blanks[i])
    ensures InferType(js, values + blanks) == InferType(js, values)
  {
    FilterConcat(values, blanks, IsPresent);
    FilterNone(blanks, IsPresent);
    assert NonBlank(values + blanks) == NonBlank(values);
  }

  /** A column made only of boolean words is boolean, whatever `Number` makes of them. */
  lemma AllBooleanWords(js: Parsers, values: seq<string>)
    requires values != []
    requires forall i :: 0 <= i < |values| ==> IsPresent(values[i]) && IsBooleanWord(values[i])
    ensures InferType(js, values) == Boolean
  {
    FilterKeepsAll(values, IsPresent);
    FilterKeepsAll(values, IsBooleanWord);
  }

  /**
   * A column whose values are all present, none a boolean word, and all read
   * by `Number` is numeric: float when one value has a fractional part,
   * integer otherwise.
   */
  lemma AllNumbers(js: Parsers, values: seq<string>)
    requires values != []
    requires forall i :: 0 <= i < |values| ==> IsPresent(values[i]) && !IsBooleanWord(values[i]) && js.toNumber(values[i]).Some?
    ensures |ParsedNumbers(js, values)| == |values|
    ensures InferType(js, values) == (if AnyFraction(ParsedNumbers(js, values)) then Float else Integer)
  {
    FilterKeepsAll(values, IsPresent);
    FilterNone(values, IsBooleanWord);
    ParsedNumbersAll(js, values);
  }

  /** When `Number` reads every value, nothing is dropped. */
  lemma {:induction false} ParsedNumbersAll(js: Parsers, values: seq<string>)
    requires forall i :: 0 <= i < |values| ==> js.toNumber(values[i]).Some?
    ensures |ParsedNumbers(js, values)| == |values|
    ensures forall i :: 0 <= i < |values| ==> ParsedNumbers(js, values)[i] == js.toNumber(values[i]).value
  {
    if values != [] {
      ParsedNumbersAll(js, values[1..]);
    }
  }

  /** A name is identifier-like exactly when its last two characters are `i` or `I`, then `d` or `D`. */
  lemma IdLikeIff(name: string)
    ensures IsIdLike(name) <==>
      |name| >= 2 && (name[|name| - 2] == 'i' || name[|name| - 2] == 'I') && (name[|name| - 1] == 'd' || name[|name| - 1] == 'D')
  {
    EndsWithIgnoringCaseIff(name, "id");
    var id := "id";
    assert id[0] == 'i' && id[1] == 'd' && |id| == 2;
  }

  /** Whitespace around a value never changes whether it is null or a boolean word. */
  lemma TrimmedValueClassifiesAlike(v: string)
    ensures IsBlank(Trim(v)) == IsBlank(v)
    ensures IsBooleanWord(Trim(v)) == IsBooleanWord(v)
  {
    TrimIdempotent(v);
  }

  /** The non-null values value by value: a value is kept, at the end, exactly when it is not null. */
  lemma NonBlankAppendOne(values: seq<string>, v: string)
    ensures NonBlank([]) == []
    ensures NonBlank(values + [v]) == NonBlank(values) + (if IsPresent(v) then [v] else [])
  {
    FilterAppendOne(values, v, IsPresent);
  }

  /** The optional underscore makes every name ending in "id" an identifier name. */
  lemma IdLikeExamples()
    ensures IsIdLike("user_id") && IsIdLike("ID") && IsIdLike("valid") && IsIdLike("paid")
    ensures !IsIdLike("amount") && !IsIdLike("identity") && !IsIdLike("d")
  {
    assert Lower("id") == "id" && Lower("ID") == "id";
    assert "user_id"[5..] == "id" && "valid"[3..] == "id" && "paid"[2..] == "id";
    assert Lower("nt") == "nt" && "amount"[4..] == "nt";
    assert Lower("ty") == "ty" && "identity"[6..] == "ty";
  }

  // ---------------------------------------------------------------------
  // Column profiles

  /**
   * Every row is either null or non-null in the column, and the distinct
   * count never exceeds the non-null count; it is zero exactly when every
   * row is null.
   */
  lemma ProfileCounts(js: Parsers, rows: seq<Row>, name: string, idx: nat)
    ensures var p, values := ProfileColumn(js, rows, name, idx), ColumnValues(rows, name);
      && p.name == name && p.ordinalPosition == idx + 1
      && p.inferredType == InferType(js, values)
      && p.nullCount == |Filter(values, IsBlank)|
      && p.nullCount + |NonBlank(values)| == |rows|
      && p.distinctCount <= |rows| - p.nullCount
      && (p.distinctCount == 0 <==> p.nullCount == |rows|)
  {
    var values := ColumnValues(rows, name);
    var nn := NonBlank(values);
    FilterComplement(values, IsPresent, IsBlank);
    DistinctCountIffNoDuplicates(nn);
    ElementsEmpty(nn);
  }

  /**
   * The samples: as many as there are distinct values, up to 30, each one of
   * the values, none repeated, in the order each first appears; when there
   * are at most 30 distinct values, all of them.
   */
  lemma SamplesSpec(nonNull: seq<string>)
    ensures var r := Samples(nonNull);
      && |r| == (if DistinctCount(nonNull) < MaxSamples then DistinctCount(nonNull) else MaxSamples)
      && NoDuplicates(r)
      && (forall i :: 0 <= i < |r| ==> r[i] in nonNull)
      && (forall i, j :: 0 <= i < j < |r| ==> FirstIndex(nonNull, r[i]) < FirstIndex(nonNull, r[j]))
      && (DistinctCount(nonNull) <= MaxSamples ==> Elements(r) == Elements(nonNull))
  {
    var d := Dedup(nonNull);
    var r := Samples(nonNull);
    DedupLength(nonNull);
    forall i | 0 <= i < |r| ensures r[i] in nonNull {
      assert r[i] == d[i] && d[i] in Elements(d);
    }
    forall i, j | 0 <= i < j < |r| ensures FirstIndex(nonNull, r[i]) < FirstIndex(nonNull, r[j]) {
      DedupFirstSeenOrder(nonNull, i, j);
    }
  }

  /**
   * A value left out of the samples only happens once 30 samples are taken,
   * and it first appears after every one of them.
   */
  lemma SamplesFirstSeen(nonNull: seq<string>, v: string)
    requires v in nonNull && v !in Samples(nonNull)
    ensures var r := Samples(nonNull);
      && |r| == MaxSamples
      && forall i :: 0 <= i < |r| ==> r[i] in nonNull && FirstIndex(nonNull, r[i]) < FirstIndex(nonNull, v)
  {
    var d := Dedup(nonNull);
    var r := Samples(nonNull);
    assert v in Elements(d);
    var m :| 0 <= m < |d| && d[m] == v;
    forall i | 0 <= i < |r| ensures r[i] in nonNull && FirstIndex(nonNull, r[i]) < FirstIndex(nonNull, v) {
      DedupFirstSeenOrder(nonNull, i, m);
    }
  }

  /**
   * The numeric summary is present exactly for integer and float columns; it
   * lies within the parsed values (median and mean between minimum and
   * maximum, minimum and maximum bounding every value `Number` reads), and
   * for an integer column the minimum and maximum are whole numbers.
   */
  lemma ProfileNumericSummary(js: Parsers, rows: seq<Row>, name: string, idx: nat)
    ensures var p, nn := ProfileColumn(js, rows, name, idx), NonBlank(ColumnValues(rows, name));
      && (p.minNumeric.Some? <==> p.inferredType == Integer || p.inferredType == Float)
      && p.maxNumeric.Some? == p.minNumeric.Some?
      && p.avgNumeric.Some? == p.minNumeric.Some?
      && p.medianNumeric.Some? == p.minNumeric.Some?
      && (p.minNumeric.Some? ==>
            && p.minNumeric.value <= p.medianNumeric.value <= p.maxNumeric.value
            && p.minNumeric.value <= p.avgNumeric.value <= p.maxNumeric.value
            && (forall i :: 0 <= i < |nn| && js.toNumber(nn[i]).Some? ==>
                  p.minNumeric.value <= js.toNumber(nn[i]).value <= p.maxNumeric.value)
            && (exists i :: 0 <= i < |nn| && js.toNumber(nn[i]) == p.minNumeric)
            && (exists i :: 0 <= i < |nn| && js.toNumber(nn[i]) == p.maxNumeric))
      && (p.inferredType == Integer ==> !HasFraction(p.minNumeric.value) && !HasFraction(p.maxNumeric.value))
  {
    var values := ColumnValues(rows, name);
    var nn := NonBlank(values);
    var nums := ParsedNumbers(js, nn);
    InferTypeOutcomes(js, values);
    ParsedNumbersMembers(js, nn);
    if |nums| > 0 {
      MeanWithinRange(nums);
      MedianWithinRange(nums);
      forall i | 0 <= i < |nn| && js.toNumber(nn[i]).Some?
        ensures Min(nums) <= js.toNumber(nn[i]).value <= Max(nums)
      {
        assert nn[i] in nn;
      }
    }
  }

  /**
   * The earliest and latest values are present exactly for datetime columns.
   * The earliest is the first value holding the smallest timestamp, the latest
   * the last value holding the largest.
   */
  lemma ProfileDatetimeSummary(js: Parsers, rows: seq<Row>, name: string, idx: nat)
    ensures var p, nn := ProfileColumn(js, rows, name, idx), NonBlank(ColumnValues(rows, name));
      && (p.minDatetime.Some? <==> p.inferredType == Datetime)
      && (p.maxDatetime.Some? <==> p.inferredType == Datetime)
      && (p.minDatetime.Some? ==> exists k :: 0 <= k < |nn| && IsFirstEarliest(js, nn, k) && nn[k] == p.minDatetime.value)
      && (p.maxDatetime.Some? ==> exists k :: 0 <= k < |nn| && IsLastLatest(js, nn, k) && nn[k] == p.maxDatetime.value)
  {
    var p, values := ProfileColumn(js, rows, name, idx), ColumnValues(rows, name);
    var nn := NonBlank(values);
    InferTypeOutcomes(js, values);
    DatetimeFields(js, rows, name, idx);
    var e, l := EarliestIndex(js, nn), LatestIndex(js, nn);
    if p.minDatetime.Some? {
      assert e.Some? && p.minDatetime.value == nn[e.value];
      assert IsFirstEarliest(js, nn, e.value);
    }
    if p.maxDatetime.Some? {
      assert l.Some? && p.maxDatetime.value == nn[l.value];
      assert IsLastLatest(js, nn, l.value);
    }
  }

  /** Where the two datetime fields of a profile come from. */
  lemma DatetimeFields(js: Parsers, rows: seq<Row>, name: string, idx: nat)
    ensures var p, nn := ProfileColumn(js, rows, name, idx), NonBlank(ColumnValues(rows, name));
      var isDate, e, l := p.inferredType == Datetime, EarliestIndex(js, nn), LatestIndex(js, nn);
      && p.minDatetime == (if isDate && e.Some? then Some(nn[e.value]) else None)
      && p.maxDatetime == (if isDate && l.Some? then Some(nn[l.value]) else None)
  {
  }

  /**
   * A key candidate is a column with an identifier-like name, at least one
   * row, no null and no repeated value. A categorical candidate is a
   * categorical column or a column with no non-null value at all: a string
   * column always has more than 20 distinct values otherwise.
   */
  lemma ProfileCandidates(js: Parsers, rows: seq<Row>, name: string, idx: nat)
    ensures var p, values := ProfileColumn(js, rows, name, idx), ColumnValues(rows, name);
      && (p.isPrimaryKeyCandidate <==>
            IsIdLike(name) && |rows| > 0 && NoDuplicates(values)
            && forall i :: 0 <= i < |values| ==> IsPresent(values[i]))
      && (p.isCategoricalCandidate <==> p.inferredType == Categorical || NonBlank(values) == [])
  {
    var values := ColumnValues(rows, name);
    var nn := NonBlank(values);
    FilterFullLength(values, IsPresent);
    FilterKeepsAll(values, IsPresent);
    DistinctCountIffNoDuplicates(nn);
    InferTypeOutcomes(js, values);
  }

  /**
   * A column whose rows are all missing or blank is a string column with every
   * row null, no distinct value, no sample and no summary; it is a
   * categorical candidate and never a key candidate.
   */
  lemma ProfileAllNullColumn(js: Parsers, rows: seq<Row>, name: string, idx: nat)
    requires forall i :: 0 <= i < |rows| ==> name !in rows[i] || IsBlank(rows[i][name])
    ensures var p := ProfileColumn(js, rows, name, idx);
      && p.inferredType == String
      && p.nullCount == |rows| && p.distinctCount == 0 && p.samples == []
      && p.minNumeric.None? && p.maxNumeric.None? && p.avgNumeric.None? && p.medianNumeric.None?
      && p.minDatetime.None? && p.maxDatetime.None?
      && !p.isPrimaryKeyCandidate && p.isCategoricalCandidate
  {
    var values := ColumnValues(rows, name);
    assert IsBlank("") by { TrimUnchanged(""); }
    FilterNone(values, IsPresent);
    ProfileWithoutValues(js, rows, name, idx);
  }

  /** The profile of a column with no non-null value at all. */
  lemma ProfileWithoutValues(js: Parsers, rows: seq<Row>, name: string, idx: nat)
    requires NonBlank(ColumnValues(rows, name)) == []
    ensures var p := ProfileColumn(js, rows, name, idx);
      && p.inferredType == String
      && p.nullCount == |rows| && p.distinctCount == 0 && p.samples == []
      && p.minNumeric.None? && p.maxNumeric.None? && p.avgNumeric.None? && p.medianNumeric.None?
      && p.minDatetime.None? && p.maxDatetime.None?
      && !p.isPrimaryKeyCandidate && p.isCategoricalCandidate
  {
    var none: seq<string> := [];
    assert Dedup(none) == [];
    assert InferType(js, ColumnValues(rows, name)) == String;
    assert ParsedNumbers(js, none) == [];
  }

  /** The samples of a profile are the samples of its column's non-null values. */
  lemma ProfileSamples(js: Parsers, rows: seq<Row>, name: string, idx: nat)
    ensures var p, nn := ProfileColumn(js, rows, name, idx), NonBlank(ColumnValues(rows, name));
      && p.samples == Samples(nn) && p.distinctCount == DistinctCount(nn)
  {
  }

  // ---------------------------------------------------------------------
  // Dataset summary

  /** A count over columns is the number of columns exactly when every column passes, and zero exactly when none does. */
  lemma {:induction false} CountWhereExtremes(cols: seq<ColumnProfile>, p: ColumnProfile -> bool)
    ensures CountWhere(cols, p) == |cols| <==> forall i :: 0 <= i < |cols| ==> p(cols[i])
    ensures CountWhere(cols, p) == 0 <==> forall i :: 0 <= i < |cols| ==> !p(cols[i])
  {
    if cols != [] {
      CountWhereExtremes(cols[1..], p);
      assert forall i :: 1 <= i < |cols| ==> cols[i] == cols[1..][i - 1];
    }
  }

  /** `CountWhere` is the length of `columns.filter(p)`. */
  lemma {:induction false} CountWhereIsFilterLength(cols: seq<ColumnProfile>, p: ColumnProfile -> bool)
    ensures CountWhere(cols, p) == |Filter(cols, p)|
  {
    if cols != [] {
      CountWhereIsFilterLength(cols[1..], p);
    }
  }

  /** A weaker test counts at least as many columns. */
  lemma {:induction false} CountWhereMonotone(cols: seq<ColumnProfile>, p: ColumnProfile -> bool, q: ColumnProfile -> bool)
    requires forall i :: 0 <= i < |cols| && p(cols[i]) ==> q(cols[i])
    ensures CountWhere(cols, p) <= CountWhere(cols, q)
  {
    if cols != [] {
      CountWhereMonotone(cols[1..], p, q);
    }
  }

  /** Two tests that agree on every column count the same columns. */
  lemma {:induction false} CountWhereSame(cols: seq<ColumnProfile>, p: ColumnProfile -> bool, q: ColumnProfile -> bool)
    requires forall i :: 0 <= i < |cols| ==> p(cols[i]) == q(cols[i])
    ensures CountWhere(cols, p) == CountWhere(cols, q)
  {
    if cols != [] {
      CountWhereSame(cols[1..], p, q);
    }
  }

  /** Columns passing one of two exclusive tests are counted by adding the two counts. */
  lemma {:induction false} CountWhereDisjointUnion(cols: seq<ColumnProfile>, p: ColumnProfile -> bool, q: ColumnProfile -> bool, both: ColumnProfile -> bool)
    requires forall i :: 0 <= i < |cols| ==> !(p(cols[i]) && q(cols[i])) && (both(cols[i]) == (p(cols[i]) || q(cols[i])))
    ensures CountWhere(cols, both) == CountWhere(cols, p) + CountWhere(cols, q)
  {
    if cols != [] {
      CountWhereDisjointUnion(cols[1..], p, q, both);
    }
  }

  /**
   * The quality score is the share of typed columns in percent, rounded half
   * up: on integers, `(200 * withTypes + totalCols) / (2 * totalCols)`.
   */
  lemma QualityScoreClosedForm(withTypes: nat, totalCols: nat)
    requires totalCols > 0
    ensures QualityScore(withTypes, totalCols) == (200 * withTypes + totalCols) / (2 * totalCols)
  {
    var w, t := withTypes as real, totalCols as real;
    assert (w / t) * 100.0 == (100 * withTypes) as real / t;
    RoundHalfUpQuotient(100 * withTypes, totalCols);
  }

  /**
   * The score is a percentage: 0 with no typed column (or no column), 100
   * when every column is typed, and it never falls when more columns are
   * typed.
   */
  lemma QualityScoreBounds(withTypes: nat, totalCols: nat)
    requires withTypes <= totalCols
    ensures 0 <= QualityScore(withTypes, totalCols) <= 100
    ensures withTypes == 0 ==> QualityScore(withTypes, totalCols) == 0
    ensures totalCols > 0 && withTypes == totalCols ==> QualityScore(withTypes, totalCols) == 100
    ensures withTypes < totalCols ==> QualityScore(withTypes, totalCols) <= QualityScore(withTypes + 1, totalCols)
  {
    if totalCols > 0 {
      var t := totalCols;
      QualityScoreClosedForm(withTypes, t);
      QualityScoreClosedForm(withTypes + 1, t);
      DivisionUnique(t, 2 * t, 0);
      DivisionUnique(201 * t, 2 * t, 100);
      DivisionMonotone(t, 200 * withTypes + t, 2 * t);
      DivisionMonotone(200 * withTypes + t, 201 * t, 2 * t);
      DivisionMonotone(200 * withTypes + t, 200 * (withTypes + 1) + t, 2 * t);
    }
  }

  /** Three typed columns of four score 75; one of eight (12.5%) rounds up to 13; two of three score 67. */
  lemma QualityScoreExamples()
    ensures QualityScore(3, 4) == 75
    ensures QualityScore(1, 8) == 13
    ensures QualityScore(2, 3) == 67
    ensures QualityScore(0, 0) == 0
  {
    QualityScoreClosedForm(3, 4);
    QualityScoreClosedForm(1, 8);
    QualityScoreClosedForm(2, 3);
  }

  /**
   * What `computeDatasetProfile` reports about any list of profiles: no
   * relationships, a score between 0 and 100, and numeric and datetime
   * columns that are disjoint and both among the typed columns.
   */
  lemma DatasetSummaryFacts(cols: seq<ColumnProfile>)
    ensures var s := ComputeDatasetProfile(cols);
      && s.detectedRelationships == 0
      && 0 <= s.qualityScore <= 100
      && s.numericColumns + s.datetimeColumns <= CountWhere(cols, IsTyped)
      && s.probablePrimaryKeys <= |cols| && s.categoricalColumns <= |cols|
      && (|cols| > 0 && CountWhere(cols, IsTyped) == |cols| ==> s.qualityScore == 100)
      && (CountWhere(cols, IsTyped) == 0 ==> s.qualityScore == 0)
  {
    QualityScoreBounds(CountWhere(cols, IsTyped), |cols|);
    CountWhereDisjointUnion(cols, IsNumericType, IsDatetimeType, IsNumericOrDatetime);
    CountWhereMonotone(cols, IsNumericOrDatetime, IsTyped);
  }

  /**
   * On the profiles `profileColumns` produces, the numeric and datetime counts
   * are the numbers of columns carrying a numeric or datetime summary, and
   * the categorical count is the number of categorical candidates (every
   * categorical column is one).
   */
  lemma SummaryOfProfiles(js: Parsers, rows: seq<Row>, headers: seq<string>)
    ensures var cols := ProfileColumns(js, rows, headers);
      var s := ComputeDatasetProfile(cols);
      && s.numericColumns == CountWhere(cols, HasNumericSummary)
      && s.datetimeColumns == CountWhere(cols, HasDatetimeSummary)
      && s.categoricalColumns == CountWhere(cols, IsCategoricalFlagged)
  {
    var cols := ProfileColumns(js, rows, headers);
    forall i | 0 <= i < |cols|
      ensures IsNumericType(cols[i]) == HasNumericSummary(cols[i])
      ensures IsDatetimeType(cols[i]) == HasDatetimeSummary(cols[i])
      ensures CountsAsCategorical(cols[i]) == IsCategoricalFlagged(cols[i])
    {
      ProfileNumericSummary(js, rows, headers[i], i);
      ProfileDatetimeSummary(js, rows, headers[i], i);
      ProfileCandidates(js, rows, headers[i], i);
    }
    CountWhereSame(cols, IsNumericType, HasNumericSummary);
    CountWhereSame(cols, IsDatetimeType, HasDatetimeSummary);
    CountWhereSame(cols, CountsAsCategorical, IsCategoricalFlagged);
  }
}
