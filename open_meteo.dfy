/** From an Open-Meteo archive response to the tidy frame:
    open_meteo_response_to_dataframe (the choice of time zone and the wide
    frame), open_meteo_df_schema (the input contract) and
    tidy_open_meteo_dataframe (moving the model from the column names into
    the row index). */
module OpenMeteo {
  import opened Common
  import opened PaModels
  import opened Vocabulary

  /** `datetime.timezone` accepts offsets strictly within one day. */
  const SecondsPerDay: int := 86400

  /** The zone the response's times are localised to: a zone given by the
      caller is never overridden; otherwise the response's fixed UTC offset;
      with neither, an error. */
  function ChooseZone(utcOffsetSeconds: Option<int>, tz: Option<Zone>): (r: Result<Zone>)
    ensures r.Failure? <==>
              tz.None? && (utcOffsetSeconds.None? || !(-SecondsPerDay < utcOffsetSeconds.value < SecondsPerDay))
    ensures tz.None? && utcOffsetSeconds.None? ==> r == Failure(MissingTimezone)
    ensures tz.Some? ==> r == Success(tz.value)
    ensures r.Success? && tz.None? ==> r.value == FixedOffset(utcOffsetSeconds.value)
  {
    match utcOffsetSeconds
    case None => if tz.None? then Failure(MissingTimezone) else Success(tz.value)
    case Some(offset) =>
      if tz.Some? then Success(tz.value)
      else if -SecondsPerDay < offset < SecondsPerDay then Success(FixedOffset(offset))
      else Failure(OffsetOutOfRange(offset))
  }

  /** The part of an archive response the frame is built from: the UTC
      offset, the hourly time axis (local wall-clock seconds) and one array
      per `<quantity>_<model>` key. */
  datatype Response = Response(utcOffsetSeconds: Option<int>, time: seq<int>, hourly: seq<(string, seq<Value>)>)

  function Names(hourly: seq<(string, seq<Value>)>): (names: seq<string>)
    ensures |names| == |hourly|
    ensures forall j :: 0 <= j < |hourly| ==> names[j] == hourly[j].0
  {
    seq(|hourly|, j requires 0 <= j < |hourly| => hourly[j].0)
  }

  predicate SameLengths(resp: Response)
  {
    forall j :: 0 <= j < |resp.hourly| ==> |resp.hourly[j].1| == |resp.time|
  }

  datatype IndexKind = RangeIndex | DatetimeIndex(zone: Zone)

  /** A wide frame: index name and kind, the index, the column names and the
      cells row by row. */
  datatype WideFrame = WideFrame(indexName: string, indexKind: IndexKind, index: seq<int>, columns: seq<string>, cells: seq<seq<Value>>)

  predicate Rectangular(f: WideFrame)
  {
    |f.cells| == |f.index| && forall r :: 0 <= r < |f.cells| ==> |f.cells[r]| == |f.columns|
  }

  /** open_meteo_response_to_dataframe: choose the zone, build the frame from
      the hourly arrays (which pandas requires to be of equal length) and
      index it by the localised time. The frame is the transpose of the
      arrays. */
  function ResponseToFrame(resp: Response, tz: Option<Zone>): (r: Result<WideFrame>)
    ensures r.Failure? <==> ChooseZone(resp.utcOffsetSeconds, tz).Failure? || !SameLengths(resp)
    ensures ChooseZone(resp.utcOffsetSeconds, tz).Failure? ==> r.Failure? && r.error == ChooseZone(resp.utcOffsetSeconds, tz).error
    ensures r.Success? ==>
              && Rectangular(r.value)
              && r.value.indexName == "time"
              && r.value.indexKind == DatetimeIndex(ChooseZone(resp.utcOffsetSeconds, tz).value)
              && r.value.index == resp.time
              && r.value.columns == Names(resp.hourly)
              && forall t, j :: 0 <= t < |resp.time| && 0 <= j < |resp.hourly| ==> r.value.cells[t][j] == resp.hourly[j].1[t]
  {
    match ChooseZone(resp.utcOffsetSeconds, tz)
    case Failure(e) => Failure(e)
    case Success(zone) =>
      if !SameLengths(resp) then Failure(RaggedArrays)
      else
        var cells := seq(|resp.time|, t requires 0 <= t < |resp.time| =>
          seq(|resp.hourly|, j requires 0 <= j < |resp.hourly| => resp.hourly[j].1[t]));
        Success(WideFrame("time", DatetimeIndex(zone), resp.time, Names(resp.hourly), cells))
  }

  // ---------------------------------------------------------------------
  // open_meteo_df_schema

  /** The quantities with their own column rule (dtype other than float). */
  const ExtraQuantities: seq<string> := ["is_day", "weathercode"]

  /** The quantities of the float rule: the vocabulary without the extras,
      in vocabulary order. */
  function FloatQuantities(quantities: seq<string>): (fs: seq<string>)
    ensures forall q :: q in fs <==> q in quantities && q !in ExtraQuantities
  {
    if quantities == [] then []
    else (if quantities[0] in ExtraQuantities then [] else [quantities[0]]) + FloatQuantities(quantities[1..])
  }

  predicate FloatRule(c: string, quantities: seq<string>, models: seq<string>)
  {
    PatternMatches(c, FloatQuantities(quantities), models)
  }

  predicate IsDayRule(c: string, models: seq<string>)
  {
    PatternMatches(c, ["is_day"], models)
  }

  predicate WeathercodeRule(c: string, models: seq<string>)
  {
    PatternMatches(c, ["weathercode"], models)
  }

  predicate ColumnConforms(f: WideFrame, j: int, t: DType)
    requires Rectangular(f) && 0 <= j < |f.columns|
  {
    forall r :: 0 <= r < |f.cells| ==> Conforms(f.cells[r][j], t)
  }

  /** A column is allowed when some rule's regex matches its name (the
      schema is strict), and it then holds cells of every matching rule's
      dtype (all rules are nullable and optional). */
  predicate ColumnValid(quantities: seq<string>, models: seq<string>, f: WideFrame, j: int)
    requires Rectangular(f) && 0 <= j < |f.columns|
  {
    var c := f.columns[j];
    && (FloatRule(c, quantities, models) || IsDayRule(c, models) || WeathercodeRule(c, models))
    && (FloatRule(c, quantities, models) ==> ColumnConforms(f, j, Float))
    && (IsDayRule(c, models) ==> ColumnConforms(f, j, Boolean))
    && (WeathercodeRule(c, models) ==> ColumnConforms(f, j, Int16))
  }

  /** open_meteo_df_schema: a unique UTC datetime index named time, and
      every column allowed by the rules. */
  predicate OpenMeteoInputValid(quantities: seq<string>, models: seq<string>, f: WideFrame)
    requires Rectangular(f)
  {
    && f.indexName == "time"
    && f.indexKind == DatetimeIndex(Utc)
    && Distinct(f.index)
    && forall j :: 0 <= j < |f.columns| ==> ColumnValid(quantities, models, f, j)
  }

  /** A frame indexed by position rather than by time is rejected. */
  lemma RangeIndexRejected(quantities: seq<string>, models: seq<string>, f: WideFrame)
    requires Rectangular(f) && f.indexKind == RangeIndex
    ensures !OpenMeteoInputValid(quantities, models, f)
  {
  }

  // ---------------------------------------------------------------------
  // tidy_open_meteo_dataframe

  /** The names the pattern rejects, in column order. */
  function NonMatchingColumns(quantities: seq<string>, models: seq<string>, columns: seq<string>): (bad: seq<string>)
    ensures forall c :: c in bad <==> c in columns && !PatternMatches(c, quantities, models)
    ensures |bad| <= |columns|
    ensures bad == [] <==> AllColumnsMatch(quantities, models, columns)
  {
    if columns == [] then []
    else
      (if PatternMatches(columns[0], quantities, models) then [] else [columns[0]])
      + NonMatchingColumns(quantities, models, columns[1..])
  }

  /** The (quantity, model) pair of every column, in column order. */
  function Pairs(quantities: seq<string>, models: seq<string>, columns: seq<string>): (ps: seq<(string, string)>)
    requires forall j :: 0 <= j < |columns| ==> PatternMatches(columns[j], quantities, models)
    ensures |ps| == |columns|
    ensures forall j :: 0 <= j < |columns| ==> ps[j] == Split(columns[j], quantities, models)
  {
    seq(|columns|, j requires 0 <= j < |columns| => Split(columns[j], quantities, models))
  }

  /** A pair spells its column name back, so distinct columns give
      distinct pairs. */
  lemma PairsDistinct(quantities: seq<string>, models: seq<string>, columns: seq<string>)
    requires forall j :: 0 <= j < |columns| ==> PatternMatches(columns[j], quantities, models)
    requires Distinct(columns)
    ensures Distinct(Pairs(quantities, models, columns))
  {
    var ps := Pairs(quantities, models, columns);
    forall i, j | 0 <= i < j < |ps| ensures ps[i] != ps[j] {
      assert columns[i] == ps[i].0 + "_" + ps[i].1;
      assert columns[j] == ps[j].0 + "_" + ps[j].1;
    }
  }

  function IndexOf<T(==)>(s: seq<T>, x: T): (i: nat)
    requires x in s
    ensures i < |s| && s[i] == x
    ensures forall k :: 0 <= k < i ==> s[k] != x
  {
    if s[0] == x then 0 else 1 + IndexOf(s[1..], x)
  }

  /** The quantities that have a column for model m. */
  function QuantitiesFor(ps: seq<(string, string)>, m: string): set<string>
  {
    set p | p in ps && p.1 == m :: p.0
  }

  /** The cells of one wide row that belong to model m, keyed by quantity. */
  function RowValues(row: seq<Value>, ps: seq<(string, string)>, m: string): map<string, Value>
    requires |row| == |ps|
  {
    map q | q in QuantitiesFor(ps, m) && (q, m) in ps :: row[IndexOf(ps, (q, m))]
  }

  /** Model m has a non-missing cell in the wide row. */
  predicate AnyPresent(row: seq<Value>, ps: seq<(string, string)>, m: string)
    requires |row| == |ps|
  {
    exists j :: 0 <= j < |ps| && ps[j].1 == m && row[j] != Missing
  }

  /** The models of the second index level: those with a column, in
      vocabulary order. */
  function ModelsOf(models: seq<string>, ps: seq<(string, string)>): (ms: seq<string>)
    ensures forall m :: m in ms <==> m in models && exists j :: 0 <= j < |ps| && ps[j].1 == m
    ensures Distinct(models) ==> Distinct(ms)
  {
    if models == [] then []
    else
      var rest := ModelsOf(models[1..], ps);
      assert Distinct(models) ==> models[0] !in models[1..];
      assert Distinct(models) ==> models[0] !in rest;
      assert forall k :: 0 <= k < |rest| ==> rest[k] in rest;
      if exists j :: 0 <= j < |ps| && ps[j].1 == models[0] then [models[0]] + rest else rest
  }

  /** One wide row stacked: a tidy row (t, m) for each model with some
      value, all-missing rows dropped. */
  function StackRow(t: int, row: seq<Value>, ps: seq<(string, string)>, ms: seq<string>): seq<TidyRow>
    requires |row| == |ps|
  {
    if ms == [] then []
    else
      (if AnyPresent(row, ps, ms[0]) then [TidyRow(t, ms[0], RowValues(row, ps, ms[0]))] else [])
      + StackRow(t, row, ps, ms[1..])
  }

  predicate RowsMatch(cells: seq<seq<Value>>, ps: seq<(string, string)>)
  {
    forall r :: 0 <= r < |cells| ==> |cells[r]| == |ps|
  }

  /** `DataFrame.stack(level="model")`: the stacked rows of every wide row,
      in index order. */
  function Stack(index: seq<int>, cells: seq<seq<Value>>, ps: seq<(string, string)>, ms: seq<string>): seq<TidyRow>
    requires |index| == |cells| && RowsMatch(cells, ps)
  {
    if index == [] then []
    else StackRow(index[0], cells[0], ps, ms) + Stack(index[1..], cells[1..], ps, ms)
  }

  predicate AllColumnsMatch(quantities: seq<string>, models: seq<string>, columns: seq<string>)
  {
    forall j :: 0 <= j < |columns| ==> PatternMatches(columns[j], quantities, models)
  }

  /** The reshaping itself, once every column name is known to split: the
      index gains the model level, the columns become the quantities, and
      the rows are the stacked wide rows. */
  function Reshape(quantities: seq<string>, models: seq<string>, f: WideFrame): TidyFrame
    requires Rectangular(f) && AllColumnsMatch(quantities, models, f.columns)
  {
    var ps := Pairs(quantities, models, f.columns);
    TidyFrame(
      [f.indexName, "model"],
      if f.indexKind.DatetimeIndex? then f.indexKind.zone else Naive,
      set p | p in ps :: p.0,
      Stack(f.index, f.cells, ps, ModelsOf(Alternatives(models), ps)))
  }

  /** tidy_open_meteo_dataframe with its input and output checks: the frame
      must satisfy open_meteo_df_schema, every column name must be a
      `<quantity>_<model>` of the vocabularies (otherwise the error lists the
      names that are not), then model moves from the column names to the
      second index level, and the result must satisfy
      HistoricalWeatherDataFrame. */
  function TidyOpenMeteo(quantities: seq<string>, models: seq<string>, f: WideFrame): (r: Result<TidyFrame>)
    requires Rectangular(f)
    ensures !OpenMeteoInputValid(quantities, models, f) ==> r == Failure(SchemaError)
    ensures OpenMeteoInputValid(quantities, models, f) && NonMatchingColumns(quantities, models, f.columns) != [] ==>
              r == Failure(UnexpectedColumns(NonMatchingColumns(quantities, models, f.columns)))
    ensures r.Success? ==> AllColumnsMatch(quantities, models, f.columns) && r.value == Reshape(quantities, models, f)
    ensures r.Success? ==> HistoricalWeatherValid(r.value)
  {
    if !OpenMeteoInputValid(quantities, models, f) then Failure(SchemaError)
    else
      var bad := NonMatchingColumns(quantities, models, f.columns);
      if bad != [] then Failure(UnexpectedColumns(bad))
      else
        assert forall j :: 0 <= j < |f.columns| ==> f.columns[j] !in bad;
        var out := Reshape(quantities, models, f);
        if HistoricalWeatherValid(out) then Success(out) else Failure(SchemaError)
  }
}
