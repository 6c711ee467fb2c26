/**
 * The client-side mapping from the dataset API's JSON response to the
 * workspace's dataset description: API type names become the five UI types,
 * and every optional field gets its default.
 *
 * A JSON field that is absent or `null` is `None`; `??` falls through on both.
 */
module DatasetApi {
  import opened Wrappers
  import DataProfiler

  /** The five column types the workspace shows. */
  datatype UiType = UiString | UiNumber | UiDate | UiBoolean | UiCategorical {
    function Name(): string {
      match this
      case UiString => "string"
      case UiNumber => "number"
      case UiDate => "date"
      case UiBoolean => "boolean"
      case UiCategorical => "categorical"
    }
  }

  /** `min` and `max` hold either a number or a date string. */
  datatype Scalar = NumberValue(number: real) | TextValue(text: string)

  datatype ApiDataset = ApiDataset(id: string, name: string, rowCount: int, columnCount: int)

  datatype ApiStatistics = ApiStatistics(
    minNumeric: Option<real>,
    maxNumeric: Option<real>,
    minDatetime: Option<string>,
    maxDatetime: Option<string>)

  datatype ApiColumn = ApiColumn(
    name: string,
    nullCount: int,
    distinctCount: int,
    inferredType: string,
    isPrimaryKeyCandidate: Option<bool>,
    isCategoricalCandidate: Option<bool>,
    statistics: Option<ApiStatistics>,
    samples: Option<seq<string>>)

  datatype ApiRelationship = ApiRelationship(
    source: string,
    target: string,
    kind: string,
    confidence: real,
    overlap: Option<real>)

  datatype ApiResponse = ApiResponse(
    dataset: ApiDataset,
    columns: seq<ApiColumn>,
    relationships: Option<seq<ApiRelationship>>)

  datatype ColumnMetadata = ColumnMetadata(
    name: string,
    uiType: UiType,
    nullCount: int,
    uniqueCount: int,
    min: Option<Scalar>,
    max: Option<Scalar>,
    samples: seq<string>,
    isPrimaryKeyCandidate: bool,
    isCategoricalCandidate: bool)

  datatype DatasetInfo = DatasetInfo(
    id: string,
    name: string,
    rowCount: int,
    columnCount: int,
    columns: seq<ColumnMetadata>,
    relationships: seq<ApiRelationship>)

  /**
   * `mapApiTypeToUi`: integer and float are numbers, datetime is a date,
   * boolean, categorical and string keep their name, anything else is a
   * string.
   */
  function MapApiTypeToUi(apiType: string): (r: UiType)
    ensures r == UiNumber <==> apiType == "integer" || apiType == "float"
    ensures r == UiDate <==> apiType == "datetime"
    ensures apiType in {"boolean", "categorical", "string"} ==> r.Name() == apiType
    ensures apiType !in {"integer", "float", "datetime", "boolean", "categorical"} ==> r == UiString
  {
    if apiType == "integer" || apiType == "float" then UiNumber
    else if apiType == "datetime" then UiDate
    else if apiType == "boolean" then UiBoolean
    else if apiType == "categorical" then UiCategorical
    else UiString
  }

  /**
   * Every type the profiler infers reaches the UI type it stands for, and
   * only the numeric and date types change name on the way.
   */
  lemma MapInferredTypes(t: DataProfiler.InferredType)
    ensures MapApiTypeToUi(t.Name()) ==
      match t
      case String => UiString
      case Integer => UiNumber
      case Float => UiNumber
      case Boolean => UiBoolean
      case Datetime => UiDate
      case Categorical => UiCategorical
    ensures MapApiTypeToUi(t.Name()).Name() == t.Name() <==>
      t !in {DataProfiler.Integer, DataProfiler.Float, DataProfiler.Datetime}
  {
  }

  /** A UI type name maps to itself only for the three names the two vocabularies share. */
  lemma MapUiNames(u: UiType)
    ensures MapApiTypeToUi(u.Name()) == (if u == UiNumber || u == UiDate then UiString else u)
  {
  }

  /** The numeric statistic when there is one, else the datetime statistic, else nothing. */
  function PreferNumeric(numeric: Option<real>, datetime: Option<string>): (r: Option<Scalar>)
    ensures numeric.Some? ==> r == Some(NumberValue(numeric.value))
    ensures numeric.None? && datetime.Some? ==> r == Some(TextValue(datetime.value))
    ensures r.None? <==> numeric.None? && datetime.None?
  {
    if numeric.Some? then Some(NumberValue(numeric.value))
    else if datetime.Some? then Some(TextValue(datetime.value))
    else None
  }

  /** One column of the response, with its defaults filled in. */
  function MapColumn(c: ApiColumn): (m: ColumnMetadata)
    ensures m.name == c.name && m.nullCount == c.nullCount && m.uniqueCount == c.distinctCount
    ensures m.uiType == MapApiTypeToUi(c.inferredType)
    ensures m.min.None? <==> c.statistics.None? || (c.statistics.value.minNumeric.None? && c.statistics.value.minDatetime.None?)
    ensures m.max.None? <==> c.statistics.None? || (c.statistics.value.maxNumeric.None? && c.statistics.value.maxDatetime.None?)
    ensures c.statistics.Some? && c.statistics.value.minNumeric.Some? ==> m.min == Some(NumberValue(c.statistics.value.minNumeric.value))
    ensures c.statistics.Some? && c.statistics.value.maxNumeric.Some? ==> m.max == Some(NumberValue(c.statistics.value.maxNumeric.value))
    ensures c.statistics.Some? && c.statistics.value.minNumeric.None? && c.statistics.value.minDatetime.Some? ==>
      m.min == Some(TextValue(c.statistics.value.minDatetime.value))
    ensures c.statistics.Some? && c.statistics.value.maxNumeric.None? && c.statistics.value.maxDatetime.Some? ==>
      m.max == Some(TextValue(c.statistics.value.maxDatetime.value))
    ensures m.samples == (if c.samples.Some? then c.samples.value else [])
    ensures m.isPrimaryKeyCandidate <==> c.isPrimaryKeyCandidate == Some(true)
    ensures m.isCategoricalCandidate <==> c.isCategoricalCandidate == Some(true)
  {
    var stats := c.statistics;
    ColumnMetadata(
      c.name,
      MapApiTypeToUi(c.inferredType),
      c.nullCount,
      c.distinctCount,
      if stats.Some? then PreferNumeric(stats.value.minNumeric, stats.value.minDatetime) else None,
      if stats.Some? then PreferNumeric(stats.value.maxNumeric, stats.value.maxDatetime) else None,
      c.samples.GetOr([]),
      c.isPrimaryKeyCandidate.GetOr(false),
      c.isCategoricalCandidate.GetOr(false))
  }

  /**
   * `mapApiResponseToDatasetInfo`: the dataset's identity and sizes are
   * copied, the columns are mapped one by one in order, and absent
   * relationships become the empty list.
   */
  function MapApiResponseToDatasetInfo(api: ApiResponse): (d: DatasetInfo)
    ensures d.id == api.dataset.id && d.name == api.dataset.name
    ensures d.rowCount == api.dataset.rowCount && d.columnCount == api.dataset.columnCount
    ensures |d.columns| == |api.columns|
    ensures forall i :: 0 <= i < |api.columns| ==> d.columns[i] == MapColumn(api.columns[i])
    ensures d.relationships == (if api.relationships.Some? then api.relationships.value else [])
  {
    DatasetInfo(
      api.dataset.id,
      api.dataset.name,
      api.dataset.rowCount,
      api.dataset.columnCount,
      seq(|api.columns|, i requires 0 <= i < |api.columns| => MapColumn(api.columns[i])),
      api.relationships.GetOr([]))
  }

  /** Mapping the response of a longer column list maps the extra columns and leaves the others alone. */
  lemma MappingDistributesOverColumns(api: ApiResponse, more: seq<ApiColumn>)
    ensures var d, e := MapApiResponseToDatasetInfo(api), MapApiResponseToDatasetInfo(api.(columns := api.columns + more));
      && e.columns == d.columns + MapApiResponseToDatasetInfo(api.(columns := more)).columns
      && e.relationships == d.relationships
  {
    var d, e := MapApiResponseToDatasetInfo(api), MapApiResponseToDatasetInfo(api.(columns := api.columns + more));
    var f := MapApiResponseToDatasetInfo(api.(columns := more));
    assert |e.columns| == |d.columns + f.columns|;
    forall i | 0 <= i < |e.columns| ensures e.columns[i] == (d.columns + f.columns)[i] {
      if i >= |api.columns| {
        assert (api.columns + more)[i] == more[i - |api.columns|];
      }
    }
  }
}
