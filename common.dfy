/** Small shared vocabulary: optional values, results carrying the errors the
    pipeline raises, and a few sequence helpers. */
module Common {

  datatype Option<+T> = None | Some(value: T)

  /** The exceptions the modelled code raises, one constructor per kind. */
  datatype Error =
    | SchemaError                              // pandera rejected a frame
    | MissingTimezone                          // no UTC offset and no caller zone
    | OffsetOutOfRange(seconds: int)           // datetime.timezone refuses |offset| >= 1 day
    | RaggedArrays                             // hourly arrays of unequal length
    | UnexpectedColumns(names: seq<string>)    // column names outside <quantity>_<model>
    | NothingToConcatenate                     // pandas.concat of an empty list
    | InvalidDate(year: int, month: int, day: int)
    | DuplicateDates                           // column-wise concat over a non-unique index

  datatype Result<+T> = Success(value: T) | Failure(error: Error)

  predicate Distinct<T(==)>(s: seq<T>)
  {
    forall i, j :: 0 <= i < j < |s| ==> s[i] != s[j]
  }

  function Min(a: int, b: int): int
  {
    if a <= b then a else b
  }
}
