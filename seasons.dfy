/** get_seasons: the meteorological season of every entry of a datetime
    index, and the series schema its output is checked against. */
module Seasons {
  import opened Common
  import opened Calendar

  const SeasonNames: set<string> := {"winter", "spring", "summer", "autumn"}

  /** Reference definition: months are grouped in threes starting from
      December, so (month mod 12) div 3 numbers the season. */
  function SeasonOfMonth(month: int): (s: string)
    requires 1 <= month <= 12
    ensures s in SeasonNames
  {
    ["winter", "spring", "summer", "autumn"][(month % 12) / 3]
  }

  /** Each month falls in exactly one season: 12/1/2 winter, 3/4/5 spring,
      6/7/8 summer, 9/10/11 autumn. */
  lemma SeasonOfEachMonth(month: int)
    requires 1 <= month <= 12
    ensures SeasonOfMonth(month) == "winter" <==> month in {12, 1, 2}
    ensures SeasonOfMonth(month) == "spring" <==> month in {3, 4, 5}
    ensures SeasonOfMonth(month) == "summer" <==> month in {6, 7, 8}
    ensures SeasonOfMonth(month) == "autumn" <==> month in {9, 10, 11}
  {
  }

  /** A string series over a datetime index. */
  datatype SeasonSeries = SeasonSeries(index: seq<Option<Date>>, values: seq<Option<string>>)

  /** seasons_series_schema: a non-nullable string series whose every value
      is one of the four seasons, over a non-null datetime index. */
  predicate SeasonsSchemaValid(s: SeasonSeries)
  {
    && |s.values| == |s.index|
    && (forall i :: 0 <= i < |s.index| ==> s.index[i].Some?)
    && forall i :: 0 <= i < |s.values| ==> s.values[i].Some? && s.values[i].value in SeasonNames
  }

  /** `series.loc[index.month.isin(months)] = name`: overwrite the entries
      whose month is in the set, keep the others. A missing timestamp (NaT)
      has no month and matches no set. */
  method AssignWhere(values: array<Option<string>>, index: seq<Option<Date>>, months: set<int>, name: string)
    requires values.Length == |index|
    modifies values
    ensures forall i :: 0 <= i < |index| ==>
              values[i] == if index[i].Some? && index[i].value.month in months then Some(name) else old(values[i])
  {
    for i := 0 to |index|
      invariant forall k :: 0 <= k < i ==>
                  values[k] == if index[k].Some? && index[k].value.month in months then Some(name) else old(values[k])
      invariant forall k :: i <= k < |index| ==> values[k] == old(values[k])
    {
      if index[i].Some? && index[i].value.month in months {
        values[i] := Some(name);
      }
    }
  }

  /** get_seasons with its output check: a series of missing strings over
      the index, overwritten once per season; the result is returned only if
      it passes seasons_series_schema, which it does exactly when the index
      holds no NaT. Each value is the season of its timestamp's month. */
  method GetSeasons(index: seq<Option<Date>>) returns (r: Result<SeasonSeries>)
    requires forall i :: 0 <= i < |index| && index[i].Some? ==> ValidDate(index[i].value)
    ensures r.Success? <==> forall i :: 0 <= i < |index| ==> index[i].Some?
    ensures r.Failure? ==> r.error == SchemaError
    ensures r.Success? ==> SeasonsSchemaValid(r.value) && r.value.index == index
    ensures r.Success? ==> forall i :: 0 <= i < |index| && index[i].Some? && ValidDate(index[i].value) ==>
              r.value.values[i] == Some(SeasonOfMonth(index[i].value.month))
  {
    var values := new Option<string>[|index|](_ => None);
    AssignWhere(values, index, {12, 1, 2}, "winter");
    AssignWhere(values, index, {3, 4, 5}, "spring");
    AssignWhere(values, index, {6, 7, 8}, "summer");
    AssignWhere(values, index, {9, 10, 11}, "autumn");
    var series := SeasonSeries(index, values[..]);
    forall i | 0 <= i < |index| && index[i].Some?
      ensures series.values[i] == Some(SeasonOfMonth(index[i].value.month))
    {
      SeasonOfEachMonth(index[i].value.month);
    }
    if SeasonsSchemaValid(series) {
      r := Success(series);
    } else {
      r := Failure(SchemaError);
    }
  }
}
