/** The column and index contracts of the two output frames
    (HistoricalWeatherDataFrame and CHMIDailyDataFrame) as validator
    predicates, and the WMO weather interpretation code table. */
module PaModels {
  import opened Common
  import opened Calendar

  /** Column dtypes the schemas declare. */
  datatype DType = Float | Int16 | Boolean

  /** One cell of a weather frame; Missing is pandas' NA/NaN. */
  datatype Value = Missing | Real(r: real) | Int(i: int) | Bool(b: bool)

  /** The zone of a datetime index: none (naive), a fixed UTC offset in
      seconds, or a named IANA zone. UTC is the zero offset. */
  datatype Zone = Naive | FixedOffset(seconds: int) | Named(name: string)

  const Utc: Zone := FixedOffset(0)

  /** A nullable column of the given dtype accepts the cell. */
  predicate Conforms(v: Value, t: DType)
  {
    match t
    case Float => v.Missing? || v.Real?
    case Int16 => v.Missing? || (v.Int? && -32768 <= v.i <= 32767)
    case Boolean => v.Missing? || v.Bool?
  }

  /** HistoricalWeatherDataFrame: every declared column with its dtype. */
  const HistoricalColumnTypes: map<string, DType> := map[
    "apparent_temperature" := Float,
    "cloudcover" := Float,
    "cloudcover_high" := Float,
    "cloudcover_low" := Float,
    "cloudcover_mid" := Float,
    "dewpoint_2m" := Float,
    "diffuse_radiation" := Float,
    "direct_normal_irradiance" := Float,
    "direct_radiation" := Float,
    "et0_fao_evapotranspiration" := Float,
    "precipitation" := Float,
    "pressure_msl" := Float,
    "rain" := Float,
    "relativehumidity_2m" := Float,
    "shortwave_radiation" := Float,
    "snowfall" := Float,
    "soil_moisture_0_to_7cm" := Float,
    "soil_moisture_100_to_255cm" := Float,
    "soil_moisture_28_to_100cm" := Float,
    "soil_moisture_7_to_28cm" := Float,
    "soil_temperature_0_to_7cm" := Float,
    "soil_temperature_100_to_255cm" := Float,
    "soil_temperature_28_to_100cm" := Float,
    "soil_temperature_7_to_28cm" := Float,
    "temperature_2m" := Float,
    "vapor_pressure_deficit" := Float,
    "weathercode" := Int16,
    "winddirection_100m" := Float,
    "winddirection_10m" := Float,
    "windgusts_10m" := Float,
    "windspeed_100m" := Float,
    "windspeed_10m" := Float,
    "is_day" := Boolean
  ]

  /** One row of the tidy frame: index (time, model) and the cells by
      quantity name; a quantity absent from the map is Missing. */
  datatype TidyRow = TidyRow(time: int, model: string, values: map<string, Value>)

  /** The tidy frame: index level names, the zone of the time level, the
      quantity columns and the rows in order. */
  datatype TidyFrame = TidyFrame(indexNames: seq<string>, zone: Zone, quantities: set<string>, rows: seq<TidyRow>)

  function Cell(row: TidyRow, q: string): Value
  {
    if q in row.values then row.values[q] else Missing
  }

  /** HistoricalWeatherDataFrame validation: a two-level index named time
      (UTC) and model (strings by construction); every column is optional
      and nullable, and a declared column holds cells of its dtype. The
      model is not strict, so undeclared columns pass unchecked. */
  predicate HistoricalWeatherValid(f: TidyFrame)
  {
    && f.indexNames == ["time", "model"]
    && f.zone == Utc
    && forall k, q :: 0 <= k < |f.rows| && q in HistoricalColumnTypes ==>
         Conforms(Cell(f.rows[k], q), HistoricalColumnTypes[q])
  }

  /** A frame that declares any subset of the columns, whose cells are all
      missing, passes: no column is required and none is non-nullable. */
  lemma EveryHistoricalColumnOptional(f: TidyFrame)
    requires f.indexNames == ["time", "model"] && f.zone == Utc
    requires forall k, q :: 0 <= k < |f.rows| && q in f.rows[k].values ==> f.rows[k].values[q] == Missing
    ensures HistoricalWeatherValid(f)
  {
  }

  /** weathercode is a small integer, is_day a boolean, and every other
      declared column a float. */
  lemma HistoricalColumnDTypes()
    ensures HistoricalColumnTypes["weathercode"] == Int16
    ensures HistoricalColumnTypes["is_day"] == Boolean
    ensures forall q :: q in HistoricalColumnTypes && q != "weathercode" && q != "is_day" ==>
              HistoricalColumnTypes[q] == Float
  {
  }

  /** A cell of a spreadsheet: a number or some text. */
  datatype CellValue = Number(x: real) | Text(s: string)

  /** The daily frame: an index name, the columns in order and, for each
      date of the index, one optional cell per column. */
  datatype DailyFrame = DailyFrame(indexName: string, columns: seq<string>, rows: map<Date, seq<Option<CellValue>>>)

  /** CHMIDailyDataFrame: the nine required float columns. */
  const CHMIDailyColumns: seq<string> := [
    "average_temperature",
    "maximum_temperature",
    "minimum_temperature",
    "wind_speed",
    "air_pressure",
    "humidity",
    "precipitation",
    "total_snow_depth",
    "sunshine"
  ]

  /** CHMIDailyDataFrame validation: index named date, all nine columns
      present, and in each of them every cell present and numeric (none is
      nullable, and text does not coerce to float). Extra columns pass. */
  predicate CHMIDailyValid(f: DailyFrame)
  {
    && f.indexName == "date"
    && (forall n :: n in CHMIDailyColumns ==> n in f.columns)
    && forall d, k :: d in f.rows && 0 <= k < |f.columns| && f.columns[k] in CHMIDailyColumns ==>
         k < |f.rows[d]| && f.rows[d][k].Some? && f.rows[d][k].value.Number?
  }

  /** A frame missing any one of the nine columns is rejected. */
  lemma CHMIDailyRequiresAllColumns(f: DailyFrame, n: string)
    requires n in CHMIDailyColumns && n !in f.columns
    ensures !CHMIDailyValid(f)
  {
  }

  /** WMO weather interpretation codes as published by Open-Meteo. */
  const WeatherCodes: map<int, string> := map[
    0 := "Clear sky",
    1 := "Mainly clear",
    2 := "Partly cloudy",
    3 := "Overcast",
    45 := "Fog",
    48 := "Depositing rime fog",
    51 := "Drizzle, light intensity",
    53 := "Drizzle, moderate intensity",
    55 := "Drizzle, dense intensity",
    56 := "Freezing drizzle, light intensity",
    57 := "Freezing drizzle, dense intensity",
    61 := "Rain, slight intensity",
    63 := "Rain, moderate intensity",
    65 := "Rain, heavy intensity",
    66 := "Freezing rain, light intensity",
    67 := "Freezing rain, heavy intensity",
    71 := "Snow fall, slight intensity",
    73 := "Snow fall, moderate intensity",
    75 := "Snow fall, heavy intensity",
    77 := "Snow grains",
    80 := "Rain showers, slight intensity",
    81 := "Rain showers, moderate intensity",
    82 := "Rain showers, violent intensity",
    85 := "Snow showers slight intensity",
    86 := "Snow showers heavy intensity",
    95 := "Thunderstorm, slight or moderate",
    96 := "Thunderstorm with slight hail",
    99 := "Thunderstorm with heavy hail"
  ]

  /** The description of a weather code, if the table has one. */
  function WeatherDescription(code: int): (r: Option<string>)
    ensures r.Some? <==> code in WeatherCodeList
    ensures r.Some? ==> 0 <= code <= 99 && r.value == WeatherCodes[code]
  {
    WeatherCodeKeys();
    WeatherCodeRange();
    if code in WeatherCodes then Some(WeatherCodes[code]) else None
  }

  /** The codes of the table in ascending order. */
  const WeatherCodeList: seq<int> :=
    [0, 1, 2, 3, 45, 48, 51, 53, 55, 56, 57, 61, 63, 65, 66, 67, 71, 73, 75, 77, 80, 81, 82, 85, 86, 95, 96, 99]

  lemma {:induction false} StrictlyIncreasingCardinality(s: seq<int>)
    requires forall i :: 0 < i < |s| ==> s[i - 1] < s[i]
    ensures |set x | x in s| == |s|
    ensures forall x :: x in s && |s| > 0 ==> s[0] <= x
  {
    if s != [] {
      var t := s[1..];
      forall i | 0 < i < |t| ensures t[i - 1] < t[i] {
        assert t[i - 1] == s[i] && t[i] == s[i + 1];
      }
      StrictlyIncreasingCardinality(t);
      if t != [] {
        assert s[0] < s[1] == t[0];
      }
      assert s == [s[0]] + t;
      forall x | x in s ensures s[0] <= x {
        if x != s[0] {
          assert x in t;
        }
      }
      assert (set x | x in s) == {s[0]} + (set x | x in t);
      assert s[0] !in (set x | x in t);
    }
  }

  lemma WeatherCodeKeysListed()
    ensures forall c :: c in WeatherCodes ==> c in WeatherCodeList
  {
  }

  lemma WeatherCodeListKeyed()
    ensures forall c :: c in WeatherCodeList ==> c in WeatherCodes
  {
  }

  lemma WeatherCodeKeys()
    ensures WeatherCodes.Keys == set x | x in WeatherCodeList
  {
    WeatherCodeKeysListed();
    WeatherCodeListKeyed();
  }

  lemma WeatherCodeRange()
    ensures forall c :: c in WeatherCodes ==> 0 <= c <= 99
  {
  }

  lemma WeatherCodeListSize()
    ensures |set x | x in WeatherCodeList| == 28
  {
    assert forall i :: 0 < i < |WeatherCodeList| ==> WeatherCodeList[i - 1] < WeatherCodeList[i];
    StrictlyIncreasingCardinality(WeatherCodeList);
  }

  /** The table has 28 codes, all in 0..99 and all fitting the Int16
      weathercode column. */
  lemma WeatherCodesTable()
    ensures |WeatherCodes| == 28
    ensures forall c :: c in WeatherCodes ==> 0 <= c <= 99 && Conforms(Int(c), Int16)
  {
    WeatherCodeKeys();
    WeatherCodeRange();
    WeatherCodeListSize();
    assert |WeatherCodes| == |WeatherCodes.Keys|;
  }

  /** Lookups: a listed code has its published description. */
  lemma WeatherCodeLookups()
    ensures WeatherDescription(0) == Some("Clear sky")
    ensures WeatherDescription(99) == Some("Thunderstorm with heavy hail")
  {
  }

  /** A code outside the table has no description. */
  lemma WeatherCodeMisses()
    ensures WeatherDescription(4) == None && WeatherDescription(100) == None
  {
  }
}
