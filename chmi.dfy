/** The ČHMÚ daily-data loader: every sheet but the first is a
    (year, month) × day grid of one quantity; each is melted into dated
    values, the sheets are joined on the date, and the Czech sheet names
    become the English column names of the daily schema. */
module ChmiLoader {
  import opened Common
  import opened Calendar
  import opened PaModels

  // ---------------------------------------------------------------------
  // Column names

  /** CZ_EN_TRANSLATION: sheet names to English quantity names. */
  const CzEnTranslation: map<string, string> := map[
    "teplota průměrná" := "average temperature",
    "teplota maximální" := "maximum temperature",
    "teplota minimální" := "minimum temperature",
    "rychlost větru" := "wind speed",
    "tlak vzduchu" := "air pressure",
    "vlhkost vzduchu" := "humidity",
    "úhrn srážek" := "precipitation",
    "celková výška sněhu" := "total snow depth",
    "sluneční svit" := "sunshine"
  ]

  /** `c.replace(" ", "_")`. */
  function ReplaceSpaces(s: string): (r: string)
    ensures |r| == |s|
  {
    if s == [] then [] else [if s[0] == ' ' then '_' else s[0]] + ReplaceSpaces(s[1..])
  }

  /** The two renames applied to one column: through the table when the
      name is in it, unchanged otherwise; then spaces to underscores. */
  function RenameColumn(name: string): string
  {
    ReplaceSpaces(if name in CzEnTranslation then CzEnTranslation[name] else name)
  }

  /** Each character of the result is the input's, with a space replaced by
      an underscore. */
  lemma {:induction false} ReplaceSpacesAt(s: string, i: int)
    requires 0 <= i < |s|
    ensures ReplaceSpaces(s)[i] == if s[i] == ' ' then '_' else s[i]
  {
    if i > 0 {
      ReplaceSpacesAt(s[1..], i - 1);
    }
  }

  /** The result has no space, and renaming it again changes nothing. */
  lemma ReplaceSpacesNormalises(s: string)
    ensures ' ' !in ReplaceSpaces(s)
    ensures ReplaceSpaces(ReplaceSpaces(s)) == ReplaceSpaces(s)
  {
    var r := ReplaceSpaces(s);
    forall c | c in r ensures c != ' ' {
      var i :| 0 <= i < |r| && r[i] == c;
      ReplaceSpacesAt(s, i);
    }
    NoSpaceUnchanged(r);
  }

  /** A name without spaces is left as it is. */
  lemma {:induction false} NoSpaceUnchanged(w: string)
    requires ' ' !in w
    ensures ReplaceSpaces(w) == w
  {
    if w != [] {
      assert w[0] in w;
      NoSpaceUnchanged(w[1..]);
    }
  }

  /** Replacing spaces distributes over concatenation. */
  lemma {:induction false} ReplaceSpacesAppend(a: string, b: string)
    ensures ReplaceSpaces(a + b) == ReplaceSpaces(a) + ReplaceSpaces(b)
  {
    if a != [] {
      assert (a + b)[1..] == a[1..] + b;
      ReplaceSpacesAppend(a[1..], b);
    } else {
      assert a + b == b;
    }
  }

  /** A table entry whose English name has no space is renamed to it. */
  lemma RenamedOneWord(cz: string, n: string)
    requires cz in CzEnTranslation && CzEnTranslation[cz] == n && ' ' !in n
    ensures RenameColumn(cz) == n
  {
    NoSpaceUnchanged(n);
  }

  /** A space before a word without spaces becomes an underscore. */
  lemma ReplaceSpaceBeforeWord(p: string, w: string)
    requires ' ' !in w
    ensures ReplaceSpaces(p + " " + w) == ReplaceSpaces(p) + "_" + w
  {
    var q := p + " ";
    ReplaceSpacesAppend(q, w);
    ReplaceSpacesAppend(p, " ");
    SpaceReplaced();
    NoSpaceUnchanged(w);
    assert ReplaceSpaces(q) == ReplaceSpaces(p) + "_";
  }

  /** The single space becomes the single underscore. */
  lemma SpaceReplaced()
    ensures ReplaceSpaces(" ") == "_"
  {
    assert " "[1..] == [];
  }

  /** Two words joined by a space become the words joined by an underscore. */
  lemma TwoWordsJoined(a: string, b: string)
    requires ' ' !in a && ' ' !in b
    ensures ReplaceSpaces(a + " " + b) == a + "_" + b
  {
    ReplaceSpaceBeforeWord(a, b);
    NoSpaceUnchanged(a);
  }

  /** The same for three words. */
  lemma ThreeWordsJoined(a: string, b: string, c: string)
    requires ' ' !in a && ' ' !in b && ' ' !in c
    ensures ReplaceSpaces(a + " " + b + " " + c) == a + "_" + b + "_" + c
  {
    ReplaceSpaceBeforeWord(a + " " + b, c);
    TwoWordsJoined(a, b);
  }

  /** A table entry whose English name is two words is renamed to the two
      words joined by an underscore. */
  lemma RenamedTwoWords(cz: string, a: string, b: string, n: string)
    requires cz in CzEnTranslation && CzEnTranslation[cz] == a + " " + b
    requires ' ' !in a && ' ' !in b && n == a + "_" + b
    ensures RenameColumn(cz) == n
  {
    TwoWordsJoined(a, b);
  }

  /** The same for three words. */
  lemma RenamedThreeWords(cz: string, a: string, b: string, c: string, n: string)
    requires cz in CzEnTranslation && CzEnTranslation[cz] == a + " " + b + " " + c
    requires ' ' !in a && ' ' !in b && ' ' !in c && n == a + "_" + b + "_" + c
    ensures RenameColumn(cz) == n
  {
    ThreeWordsJoined(a, b, c);
  }

  /** Distinct sheet names of the table get distinct English names. */
  lemma TranslationInjective()
    ensures forall a, b :: a in CzEnTranslation && b in CzEnTranslation && a != b ==>
              CzEnTranslation[a] != CzEnTranslation[b]
  {
  }

  /** The nine renamed sheet names are exactly the nine columns of the daily
      schema. */
  lemma TranslationCoversDailySchema()
    ensures forall n :: n in CHMIDailyColumns <==> exists cz :: cz in CzEnTranslation && RenameColumn(cz) == n
  {
    forall cz | cz in CzEnTranslation ensures RenameColumn(cz) in CHMIDailyColumns {
      var n := SheetFor(cz);
    }
    forall n | n in CHMIDailyColumns ensures exists cz :: cz in CzEnTranslation && RenameColumn(cz) == n {
      var cz := SheetNamed(n);
    }
  }

  /** The column a sheet of the table becomes. */
  lemma SheetFor(cz: string) returns (n: string)
    requires cz in CzEnTranslation
    ensures n in CHMIDailyColumns && RenameColumn(cz) == n
  {
    var k := SheetIndex(cz);
    n := CHMIDailyColumns[k];
    RenamedEntry(k, cz, n);
  }

  /** The sheet of the table that becomes column `n`. */
  lemma SheetNamed(n: string) returns (cz: string)
    requires n in CHMIDailyColumns
    ensures cz in CzEnTranslation && RenameColumn(cz) == n
  {
    var k :| 0 <= k < |CHMIDailyColumns| && CHMIDailyColumns[k] == n;
    cz := CzechSheets[k];
    RenamedEntry(k, cz, n);
  }

  /** The table's sheet names, in the order of the schema's columns. */
  const CzechSheets: seq<string> := [
    "teplota průměrná", "teplota maximální", "teplota minimální", "rychlost větru", "tlak vzduchu",
    "vlhkost vzduchu", "úhrn srážek", "celková výška sněhu", "sluneční svit"
  ]

  /** Every sheet name of the table is one of those. */
  lemma SheetIndex(cz: string) returns (k: int)
    requires cz in CzEnTranslation
    ensures 0 <= k < |CzechSheets| == |CHMIDailyColumns| && CzechSheets[k] == cz
  {
    if cz == CzechSheets[0] { k := 0; }
    else if cz == CzechSheets[1] { k := 1; }
    else if cz == CzechSheets[2] { k := 2; }
    else if cz == CzechSheets[3] { k := 3; }
    else if cz == CzechSheets[4] { k := 4; }
    else if cz == CzechSheets[5] { k := 5; }
    else if cz == CzechSheets[6] { k := 6; }
    else if cz == CzechSheets[7] { k := 7; }
    else { k := 8; }
  }

  /** Sheet `k` of that list is renamed to column `k` of the schema. */
  lemma RenamedEntry(k: int, cz: string, n: string)
    requires 0 <= k < |CzechSheets| == |CHMIDailyColumns| && cz == CzechSheets[k] && n == CHMIDailyColumns[k]
    ensures cz in CzEnTranslation && RenameColumn(cz) == n
  {
    if k == 0 { RenamedAverageTemperature(cz, n); }
    else if k == 1 { RenamedMaximumTemperature(cz, n); }
    else if k == 2 { RenamedMinimumTemperature(cz, n); }
    else if k == 3 { RenamedWindSpeed(cz, n); }
    else if k == 4 { RenamedAirPressure(cz, n); }
    else if k == 7 { RenamedTotalSnowDepth(cz, n); }
    else { RenamedOneWord(cz, n); }
  }

  lemma RenamedAverageTemperature(cz: string, n: string)
    requires cz == CzechSheets[0] && n == CHMIDailyColumns[0]
    ensures cz in CzEnTranslation && RenameColumn(cz) == n
  {
    RenamedTwoWords(cz, "average", "temperature", n);
  }

  lemma RenamedMaximumTemperature(cz: string, n: string)
    requires cz == CzechSheets[1] && n == CHMIDailyColumns[1]
    ensures cz in CzEnTranslation && RenameColumn(cz) == n
  {
    RenamedTwoWords(cz, "maximum", "temperature", n);
  }

  lemma RenamedMinimumTemperature(cz: string, n: string)
    requires cz == CzechSheets[2] && n == CHMIDailyColumns[2]
    ensures cz in CzEnTranslation && RenameColumn(cz) == n
  {
    RenamedTwoWords(cz, "minimum", "temperature", n);
  }

  lemma RenamedWindSpeed(cz: string, n: string)
    requires cz == CzechSheets[3] && n == CHMIDailyColumns[3]
    ensures cz in CzEnTranslation && RenameColumn(cz) == n
  {
    RenamedTwoWords(cz, "wind", "speed", n);
  }

  lemma RenamedAirPressure(cz: string, n: string)
    requires cz == CzechSheets[4] && n == CHMIDailyColumns[4]
    ensures cz in CzEnTranslation && RenameColumn(cz) == n
  {
    RenamedTwoWords(cz, "air", "pressure", n);
  }

  lemma RenamedTotalSnowDepth(cz: string, n: string)
    requires cz == CzechSheets[7] && n == CHMIDailyColumns[7]
    ensures cz in CzEnTranslation && RenameColumn(cz) == n
  {
    RenamedThreeWords(cz, "total", "snow", "depth", n);
  }

  // ---------------------------------------------------------------------
  // One sheet: melt, drop incomplete rows, date, sort

  /** A grid row below the three header rows: `rok` and `měsíc` (either may
      be blank) and one cell per day column. */
  datatype GridRow = GridRow(year: Option<int>, month: Option<int>, cells: seq<Option<CellValue>>)

  /** A data sheet: its name, the day numbers heading its day columns, and
      its grid rows. */
  datatype Sheet = Sheet(name: string, days: seq<int>, rows: seq<GridRow>)

  /** Every grid row has one cell per day column, as a parsed sheet does. */
  predicate Tabular(s: Sheet)
  {
    forall i :: 0 <= i < |s.rows| ==> |s.rows[i].cells| == |s.days|
  }

  /** A row of the melted frame: `rok`, `měsíc`, `den` and the value column
      named after the sheet. */
  datatype MeltedRow = MeltedRow(year: Option<int>, month: Option<int>, day: int, value: Option<CellValue>)

  /** The melted row of grid cell (i, j). */
  function MeltedCell(s: Sheet, i: int, j: int): MeltedRow
    requires Tabular(s) && 0 <= i < |s.rows| && 0 <= j < |s.days|
  {
    MeltedRow(s.rows[i].year, s.rows[i].month, s.days[j], s.rows[i].cells[j])
  }

  /** The melted rows of day column `j`, one per grid row. */
  function MeltColumn(s: Sheet, j: int): (r: seq<MeltedRow>)
    requires Tabular(s) && 0 <= j < |s.days|
    ensures |r| == |s.rows|
    ensures forall i :: 0 <= i < |s.rows| ==> r[i] == MeltedRow(s.rows[i].year, s.rows[i].month, s.days[j], s.rows[i].cells[j])
  {
    seq(|s.rows|, i requires 0 <= i < |s.rows| => MeltedCell(s, i, j))
  }

  /** `melt` stacks the day columns one after another, from column `j` on. */
  function MeltFrom(s: Sheet, j: int): seq<MeltedRow>
    requires Tabular(s) && 0 <= j <= |s.days|
    decreases |s.days| - j
  {
    if j == |s.days| then [] else MeltColumn(s, j) + MeltFrom(s, j + 1)
  }

  function Melt(s: Sheet): seq<MeltedRow>
    requires Tabular(s)
  {
    MeltFrom(s, 0)
  }

  /** Melting yields one row per grid cell. */
  lemma {:induction false} MeltFromLength(s: Sheet, j: int)
    requires Tabular(s) && 0 <= j <= |s.days|
    ensures |MeltFrom(s, j)| == (|s.days| - j) * |s.rows|
    decreases |s.days| - j
  {
    if j < |s.days| {
      MeltFromLength(s, j + 1);
      assert (|s.days| - j) * |s.rows| == |s.rows| + (|s.days| - (j + 1)) * |s.rows|;
    }
  }

  /** Every grid cell of column `c` >= `j` is melted. */
  lemma {:induction false} MeltFromHasCell(s: Sheet, j: int, i: int, c: int)
    requires Tabular(s) && 0 <= j <= c < |s.days| && 0 <= i < |s.rows|
    ensures MeltedCell(s, i, c) in MeltFrom(s, j)
    decreases c - j
  {
    var col := MeltColumn(s, j);
    assert MeltFrom(s, j) == col + MeltFrom(s, j + 1);
    if c == j {
      assert MeltFrom(s, j)[i] == col[i];
    } else {
      MeltFromHasCell(s, j + 1, i, c);
    }
  }

  /** Every melted row is a grid cell. */
  lemma {:induction false} MeltFromOrigin(s: Sheet, j: int, m: MeltedRow) returns (i: int, c: int)
    requires Tabular(s) && 0 <= j <= |s.days| && m in MeltFrom(s, j)
    ensures j <= c < |s.days| && 0 <= i < |s.rows| && m == MeltedCell(s, i, c)
    decreases |s.days| - j
  {
    assert j < |s.days|;
    var col := MeltColumn(s, j);
    assert MeltFrom(s, j) == col + MeltFrom(s, j + 1);
    if m in col {
      var k :| 0 <= k < |col| && col[k] == m;
      i, c := k, j;
    } else {
      i, c := MeltFromOrigin(s, j + 1, m);
    }
  }

  /** `dropna` keeps the rows with year, month and value all present (the
      day is a column header and always present). */
  predicate Complete(m: MeltedRow)
  {
    m.year.Some? && m.month.Some? && m.value.Some?
  }

  function DropNa(rows: seq<MeltedRow>): (r: seq<MeltedRow>)
    ensures forall m :: m in r <==> m in rows && Complete(m)
  {
    if rows == [] then []
    else
      assert forall m :: m in rows <==> m == rows[0] || m in rows[1..];
      (if Complete(rows[0]) then [rows[0]] else []) + DropNa(rows[1..])
  }

  /** A dated value of one sheet. */
  datatype Reading = Reading(date: Date, value: CellValue)

  /** The date `pd.to_datetime` assembles from `rok`, `měsíc` and `den`. */
  function DateOf(m: MeltedRow): Date
    requires Complete(m)
  {
    Date(m.year.value, m.month.value, m.day)
  }

  /** `pd.to_datetime` over the rows: it fails on the first row that names
      no real day, and otherwise dates every row in order. */
  function ToReadings(rows: seq<MeltedRow>): (r: Result<seq<Reading>>)
    requires forall m :: m in rows ==> Complete(m)
    ensures r.Success? <==> forall k :: 0 <= k < |rows| ==> ValidDate(DateOf(rows[k]))
    ensures r.Success? ==> |r.value| == |rows|
    ensures r.Success? ==> forall k :: 0 <= k < |rows| ==> r.value[k] == Reading(DateOf(rows[k]), rows[k].value.value)
  {
    if rows == [] then Success([])
    else
      var d := DateOf(rows[0]);
      assert forall k :: 1 <= k < |rows| ==> rows[k] == rows[1..][k - 1];
      if !ValidDate(d) then Failure(InvalidDate(d.year, d.month, d.day))
      else match ToReadings(rows[1..])
        case Failure(e) => Failure(e)
        case Success(rest) => Success([Reading(d, rows[0].value.value)] + rest)
  }

  /** The error names the first row that is no real day. */
  lemma {:induction false} ToReadingsError(rows: seq<MeltedRow>) returns (k: int)
    requires forall m :: m in rows ==> Complete(m)
    requires ToReadings(rows).Failure?
    ensures 0 <= k < |rows| && !ValidDate(DateOf(rows[k]))
    ensures forall j :: 0 <= j < k ==> ValidDate(DateOf(rows[j]))
    ensures ToReadings(rows).error == InvalidDate(rows[k].year.value, rows[k].month.value, rows[k].day)
  {
    if ValidDate(DateOf(rows[0])) {
      var k' := ToReadingsError(rows[1..]);
      k := k' + 1;
      assert rows[k] == rows[1..][k'];
      forall j | 0 <= j < k ensures ValidDate(DateOf(rows[j])) {
        if j > 0 {
          assert rows[j] == rows[1..][j - 1];
        }
      }
    } else {
      k := 0;
    }
  }

  predicate SortedByDate(rs: seq<Reading>)
  {
    forall i, j :: 0 <= i < j < |rs| ==> NotAfter(rs[i].date, rs[j].date)
  }

  /** Insertion before the first reading dated no earlier. */
  function Insert(x: Reading, rs: seq<Reading>): seq<Reading>
  {
    if rs == [] || NotAfter(x.date, rs[0].date) then [x] + rs
    else [rs[0]] + Insert(x, rs[1..])
  }

  /** `sort_index`, as a stable insertion sort. */
  function SortByDate(rs: seq<Reading>): seq<Reading>
  {
    if rs == [] then [] else Insert(rs[0], SortByDate(rs[1..]))
  }

  /** Inserting adds exactly the one reading. */
  lemma {:induction false} InsertPermutes(x: Reading, rs: seq<Reading>)
    ensures multiset(Insert(x, rs)) == multiset(rs) + multiset{x}
  {
    if rs != [] && !NotAfter(x.date, rs[0].date) {
      InsertPermutes(x, rs[1..]);
      assert rs == [rs[0]] + rs[1..];
    }
  }

  /** Inserting into a sorted sequence keeps it sorted. */
  lemma {:induction false} InsertSorted(x: Reading, rs: seq<Reading>)
    requires SortedByDate(rs)
    ensures SortedByDate(Insert(x, rs))
  {
    if rs != [] && !NotAfter(x.date, rs[0].date) {
      var rest := rs[1..];
      InsertSorted(x, rest);
      InsertPermutes(x, rest);
      var r := Insert(x, rest);
      NotAfterTotal(x.date, rs[0].date);
      forall y | y in r ensures NotAfter(rs[0].date, y.date) {
        assert y in multiset(r);
        if y != x {
          var k :| 0 <= k < |rest| && rest[k] == y;
          assert rs[k + 1] == y;
        }
      }
      ConsSorted(rs[0], r);
    } else if rs != [] {
      forall y | y in rs ensures NotAfter(x.date, y.date) {
        var k :| 0 <= k < |rs| && rs[k] == y;
        if k > 0 {
          NotAfterTransitive(x.date, rs[0].date, y.date);
        }
      }
      ConsSorted(x, rs);
    }
  }

  /** A reading dated no later than every reading of a sorted sequence can
      go in front of it. */
  lemma ConsSorted(h: Reading, rs: seq<Reading>)
    requires SortedByDate(rs)
    requires forall y :: y in rs ==> NotAfter(h.date, y.date)
    ensures SortedByDate([h] + rs)
  {
    var out := [h] + rs;
    forall i, j | 0 <= i < j < |out| ensures NotAfter(out[i].date, out[j].date) {
      assert out[j] == rs[j - 1];
      if i > 0 {
        assert out[i] == rs[i - 1];
      }
    }
  }

  /** The sort is a permutation in date order. */
  lemma {:induction false} SortByDateCorrect(rs: seq<Reading>)
    ensures SortedByDate(SortByDate(rs))
    ensures multiset(SortByDate(rs)) == multiset(rs)
  {
    if rs != [] {
      var sorted := SortByDate(rs[1..]);
      SortByDateCorrect(rs[1..]);
      InsertSorted(rs[0], sorted);
      InsertPermutes(rs[0], sorted);
      assert rs == [rs[0]] + rs[1..];
    }
  }

  /** A cleaned sheet: the sheet's name, which becomes its column, and its
      readings. */
  datatype Series = Series(name: string, readings: seq<Reading>)

  /** `extract_and_clean_chmi_excel_sheet`. */
  function ExtractAndCleanSheet(s: Sheet): Result<Series>
    requires Tabular(s)
  {
    match ToReadings(DropNa(Melt(s)))
    case Failure(e) => Failure(e)
    case Success(rs) => Success(Series(s.name, SortByDate(rs)))
  }

  /** Grid cell (i, j) holds `v` on a row whose year and month, with the
      column's day, make date `d`. */
  predicate CellReads(s: Sheet, i: int, j: int, d: Date, v: CellValue)
    requires Tabular(s)
  {
    && 0 <= i < |s.rows| && 0 <= j < |s.days|
    && s.rows[i].year == Some(d.year) && s.rows[i].month == Some(d.month)
    && s.days[j] == d.day && s.rows[i].cells[j] == Some(v)
  }

  /** A cleaned sheet is the sorted dated rows of its melted, non-empty
      cells. */
  lemma ReadingsOfSheet(s: Sheet) returns (rs: seq<Reading>)
    requires Tabular(s) && ExtractAndCleanSheet(s).Success?
    ensures ToReadings(DropNa(Melt(s))) == Success(rs)
    ensures SortedByDate(ExtractAndCleanSheet(s).value.readings)
    ensures multiset(ExtractAndCleanSheet(s).value.readings) == multiset(rs)
  {
    rs := ToReadings(DropNa(Melt(s))).value;
    SortByDateCorrect(rs);
  }

  /** A cleaned sheet keeps the sheet's name and is in date order. */
  lemma ExtractedSheetSorted(s: Sheet)
    requires Tabular(s) && ExtractAndCleanSheet(s).Success?
    ensures ExtractAndCleanSheet(s).value.name == s.name
    ensures SortedByDate(ExtractAndCleanSheet(s).value.readings)
  {
    var rs := ReadingsOfSheet(s);
  }

  /** Every reading of a cleaned sheet is on a real day and is a non-empty
      grid cell of that date. */
  lemma ExtractedReadingOrigin(s: Sheet, x: Reading) returns (i: int, j: int)
    requires Tabular(s) && ExtractAndCleanSheet(s).Success?
    requires x in ExtractAndCleanSheet(s).value.readings
    ensures ValidDate(x.date) && CellReads(s, i, j, x.date, x.value)
  {
    var rs := ReadingsOfSheet(s);
    var dropped := DropNa(Melt(s));
    assert x in multiset(rs);
    var k :| 0 <= k < |rs| && rs[k] == x;
    var m := dropped[k];
    assert m in dropped;
    i, j := MeltFromOrigin(s, 0, m);
  }

  /** Every non-empty cell on a row with year and month becomes a reading of
      the cleaned sheet. */
  lemma ExtractedCellKept(s: Sheet, i: int, j: int, d: Date, v: CellValue)
    requires Tabular(s) && ExtractAndCleanSheet(s).Success?
    requires CellReads(s, i, j, d, v)
    ensures Reading(d, v) in ExtractAndCleanSheet(s).value.readings
  {
    var rs := ReadingsOfSheet(s);
    var dropped := DropNa(Melt(s));
    var m := MeltedCell(s, i, j);
    MeltFromHasCell(s, 0, i, j);
    assert m in dropped;
    var k :| 0 <= k < |dropped| && dropped[k] == m;
    assert rs[k] == Reading(d, v);
    assert Reading(d, v) in multiset(rs);
  }

  /** A non-empty cell whose row and column name no real day makes the
      sheet fail. */
  lemma ExtractFailsOnInvalidDate(s: Sheet, i: int, j: int)
    requires Tabular(s) && 0 <= i < |s.rows| && 0 <= j < |s.days|
    requires s.rows[i].year.Some? && s.rows[i].month.Some? && s.rows[i].cells[j].Some?
    requires !ValidDate(Date(s.rows[i].year.value, s.rows[i].month.value, s.days[j]))
    ensures ExtractAndCleanSheet(s).Failure?
  {
    var dropped := DropNa(Melt(s));
    var m := MeltedCell(s, i, j);
    MeltFromHasCell(s, 0, i, j);
    assert m in dropped;
    var k :| 0 <= k < |dropped| && dropped[k] == m;
    assert !ValidDate(DateOf(dropped[k]));
  }

  /** A failed sheet's error names a non-empty cell whose date is no real
      day. */
  lemma ExtractErrorNamesCell(s: Sheet) returns (i: int, j: int)
    requires Tabular(s) && ExtractAndCleanSheet(s).Failure?
    ensures 0 <= i < |s.rows| && 0 <= j < |s.days|
    ensures s.rows[i].year.Some? && s.rows[i].month.Some? && s.rows[i].cells[j].Some?
    ensures !ValidDate(Date(s.rows[i].year.value, s.rows[i].month.value, s.days[j]))
    ensures ExtractAndCleanSheet(s).error == InvalidDate(s.rows[i].year.value, s.rows[i].month.value, s.days[j])
  {
    var dropped := DropNa(Melt(s));
    var k := ToReadingsError(dropped);
    assert dropped[k] in dropped;
    i, j := MeltFromOrigin(s, 0, dropped[k]);
  }

  // ---------------------------------------------------------------------
  // The workbook: column-wise concatenation on the date, then renaming

  function DatesOf(rs: seq<Reading>): set<Date>
  {
    set x | x in rs :: x.date
  }

  predicate UniqueDates(rs: seq<Reading>)
  {
    forall i, j :: 0 <= i < j < |rs| ==> rs[i].date != rs[j].date
  }

  /** The cell a cleaned sheet contributes to the joined row of date `d`. */
  function ValueOn(rs: seq<Reading>, d: Date): (r: Option<CellValue>)
    ensures r.Some? ==> Reading(d, r.value) in rs
    ensures r.None? <==> d !in DatesOf(rs)
  {
    if rs == [] then None
    else if rs[0].date == d then Some(rs[0].value)
    else
      assert DatesOf(rs) == {rs[0].date} + DatesOf(rs[1..]);
      ValueOn(rs[1..], d)
  }

  /** With unique dates the joined cell is the date's one reading. */
  lemma {:induction false} ValueOnUnique(rs: seq<Reading>, d: Date, v: CellValue)
    requires UniqueDates(rs) && Reading(d, v) in rs
    ensures ValueOn(rs, d) == Some(v)
  {
    var k :| 0 <= k < |rs| && rs[k] == Reading(d, v);
    if k > 0 {
      assert rs[0].date != d;
      assert rs[1..][k - 1] == Reading(d, v);
      ValueOnUnique(rs[1..], d, v);
    }
  }

  /** The dates of the joined index: every date of every sheet. */
  function AllDates(ss: seq<Series>): set<Date>
  {
    if ss == [] then {} else DatesOf(ss[0].readings) + AllDates(ss[1..])
  }

  /** The joined index holds every sheet's dates. */
  lemma {:induction false} AllDatesHas(ss: seq<Series>, k: int, d: Date)
    requires 0 <= k < |ss| && d in DatesOf(ss[k].readings)
    ensures d in AllDates(ss)
  {
    if k > 0 {
      assert ss[1..][k - 1] == ss[k];
      AllDatesHas(ss[1..], k - 1, d);
    }
  }

  /** Every joined date is some sheet's. */
  lemma {:induction false} AllDatesFrom(ss: seq<Series>, d: Date) returns (k: int)
    requires d in AllDates(ss)
    ensures 0 <= k < |ss| && d in DatesOf(ss[k].readings)
  {
    if d in DatesOf(ss[0].readings) {
      k := 0;
    } else {
      var k' := AllDatesFrom(ss[1..], d);
      k := k' + 1;
    }
  }

  /** `pd.concat(sheets, axis=1)`: one row per date of any sheet, holding
      each sheet's value on that date or nothing. */
  function Join(ss: seq<Series>): map<Date, seq<Option<CellValue>>>
  {
    map d | d in AllDates(ss) :: seq(|ss|, k requires 0 <= k < |ss| => ValueOn(ss[k].readings, d))
  }

  /** Each joined row has one cell per sheet, the sheet's value on that date. */
  lemma JoinedCell(ss: seq<Series>, d: Date, k: int)
    requires d in AllDates(ss) && 0 <= k < |ss|
    ensures d in Join(ss) && |Join(ss)[d]| == |ss|
    ensures Join(ss)[d][k] == ValueOn(ss[k].readings, d)
  {
  }

  /** The joined frame with its columns renamed through the table and then
      spaces to underscores. */
  function Renamed(ss: seq<Series>): DailyFrame
  {
    DailyFrame("date", seq(|ss|, k requires 0 <= k < |ss| => RenameColumn(ss[k].name)), Join(ss))
  }

  /** Cleans the sheets in order, stopping at the first failure. */
  function ExtractAll(sheets: seq<Sheet>): Result<seq<Series>>
    requires forall k :: 0 <= k < |sheets| ==> Tabular(sheets[k])
  {
    if sheets == [] then Success([])
    else match ExtractAndCleanSheet(sheets[0])
      case Failure(e) => Failure(e)
      case Success(x) =>
        match ExtractAll(sheets[1..])
        case Failure(e) => Failure(e)
        case Success(rest) => Success([x] + rest)
  }

  /** A successful load of the sheets has one cleaned sheet per sheet, in
      order. */
  lemma {:induction false} ExtractAllSuccess(sheets: seq<Sheet>)
    requires forall k :: 0 <= k < |sheets| ==> Tabular(sheets[k])
    requires ExtractAll(sheets).Success?
    ensures |ExtractAll(sheets).value| == |sheets|
    ensures forall k :: 0 <= k < |sheets| ==> ExtractAndCleanSheet(sheets[k]) == Success(ExtractAll(sheets).value[k])
  {
    if sheets != [] {
      ExtractAllSuccess(sheets[1..]);
      var all := ExtractAll(sheets).value;
      forall k | 0 <= k < |sheets| ensures ExtractAndCleanSheet(sheets[k]) == Success(all[k]) {
        if k > 0 {
          assert sheets[k] == sheets[1..][k - 1];
        }
      }
    }
  }

  /** A failure is the first failing sheet's, the sheets before it having
      been cleaned. */
  lemma {:induction false} ExtractAllError(sheets: seq<Sheet>) returns (k: int)
    requires forall k :: 0 <= k < |sheets| ==> Tabular(sheets[k])
    requires ExtractAll(sheets).Failure?
    ensures 0 <= k < |sheets| && ExtractAndCleanSheet(sheets[k]).Failure?
    ensures ExtractAll(sheets).error == ExtractAndCleanSheet(sheets[k]).error
    ensures forall j :: 0 <= j < k ==> ExtractAndCleanSheet(sheets[j]).Success?
  {
    if ExtractAndCleanSheet(sheets[0]).Failure? {
      k := 0;
    } else {
      var k' := ExtractAllError(sheets[1..]);
      k := k' + 1;
      assert sheets[k] == sheets[1..][k'];
      forall j | 0 <= j < k ensures ExtractAndCleanSheet(sheets[j]).Success? {
        if j > 0 {
          assert sheets[j] == sheets[1..][j - 1];
        }
      }
    }
  }

  /** `excel_data.sheet_names[1:]`: every sheet but the first. */
  function DataSheets(sheets: seq<Sheet>): (r: seq<Sheet>)
    ensures |r| == if sheets == [] then 0 else |sheets| - 1
    ensures forall k :: 0 <= k < |r| ==> r[k] == sheets[k + 1]
  {
    if sheets == [] then [] else sheets[1..]
  }

  /** `load_chmi_data`, with the workbook's sheets in order. The result
      passes `CHMIDailyDataFrame` or the load fails. */
  function LoadChmiData(sheets: seq<Sheet>): Result<DailyFrame>
    requires forall k :: 0 <= k < |sheets| ==> Tabular(sheets[k])
  {
    match ExtractAll(DataSheets(sheets))
    case Failure(e) => Failure(e)
    case Success(series) =>
      if series == [] then Failure(NothingToConcatenate)
      else if exists k :: 0 <= k < |series| && !UniqueDates(series[k].readings) then Failure(DuplicateDates)
      else
        var f := Renamed(series);
        if CHMIDailyValid(f) then Success(f) else Failure(SchemaError)
  }

  /** A workbook with no sheet after the first has nothing to concatenate. */
  lemma LoadNeedsDataSheets(sheets: seq<Sheet>)
    requires forall k :: 0 <= k < |sheets| ==> Tabular(sheets[k])
    requires |sheets| <= 1
    ensures LoadChmiData(sheets) == Failure(NothingToConcatenate)
  {
    assert DataSheets(sheets) == [];
  }

  /** A load that fails while cleaning fails with the first failing data
      sheet's error. */
  lemma LoadSheetError(sheets: seq<Sheet>) returns (k: int)
    requires forall k :: 0 <= k < |sheets| ==> Tabular(sheets[k])
    requires ExtractAll(DataSheets(sheets)).Failure?
    ensures 1 <= k < |sheets| && ExtractAndCleanSheet(sheets[k]).Failure?
    ensures LoadChmiData(sheets) == Failure(ExtractAndCleanSheet(sheets[k]).error)
    ensures forall j :: 1 <= j < k ==> ExtractAndCleanSheet(sheets[j]).Success?
  {
    var data := DataSheets(sheets);
    var k' := ExtractAllError(data);
    k := k' + 1;
    forall j | 1 <= j < k ensures ExtractAndCleanSheet(sheets[j]).Success? {
      assert data[j - 1] == sheets[j];
    }
  }

  /** Any data sheet that fails to clean fails the load. */
  lemma LoadFailsOnBadSheet(sheets: seq<Sheet>, k: int)
    requires forall k :: 0 <= k < |sheets| ==> Tabular(sheets[k])
    requires 1 <= k < |sheets| && ExtractAndCleanSheet(sheets[k]).Failure?
    ensures LoadChmiData(sheets).Failure?
  {
    var data := DataSheets(sheets);
    if ExtractAll(data).Success? {
      ExtractAllSuccess(data);
      assert false;
    }
  }

  /** A loaded frame is the renamed join of the cleaned data sheets, each
      with unique dates. */
  lemma LoadedSeries(sheets: seq<Sheet>) returns (series: seq<Series>)
    requires forall k :: 0 <= k < |sheets| ==> Tabular(sheets[k])
    requires LoadChmiData(sheets).Success?
    ensures |series| == |sheets| - 1 >= 1
    ensures forall k :: 1 <= k < |sheets| ==> ExtractAndCleanSheet(sheets[k]) == Success(series[k - 1])
    ensures forall k :: 0 <= k < |series| ==> UniqueDates(series[k].readings)
    ensures LoadChmiData(sheets) == Success(Renamed(series))
  {
    var data := DataSheets(sheets);
    series := ExtractAll(data).value;
    ExtractAllSuccess(data);
    forall k | 1 <= k < |sheets| ensures ExtractAndCleanSheet(sheets[k]) == Success(series[k - 1]) {
      assert data[k - 1] == sheets[k];
    }
  }

  /** A loaded frame passes the daily schema, is indexed by date, and its
      columns are the renamed data sheets in workbook order. */
  lemma LoadedColumns(sheets: seq<Sheet>)
    requires forall k :: 0 <= k < |sheets| ==> Tabular(sheets[k])
    requires LoadChmiData(sheets).Success?
    ensures CHMIDailyValid(LoadChmiData(sheets).value)
    ensures LoadChmiData(sheets).value.indexName == "date"
    ensures |LoadChmiData(sheets).value.columns| == |sheets| - 1
    ensures forall k :: 1 <= k < |sheets| ==> LoadChmiData(sheets).value.columns[k - 1] == RenameColumn(sheets[k].name)
  {
    var series := LoadedSeries(sheets);
  }

  // ---------------------------------------------------------------------
  // Cells of the loaded frame and the grid cells they come from

  /** A value a cleaned sheet holds for a date is a grid cell of that real
      day. */
  lemma SheetValueOrigin(s: Sheet, d: Date, v: CellValue) returns (i: int, j: int)
    requires Tabular(s) && ExtractAndCleanSheet(s).Success?
    requires ValueOn(ExtractAndCleanSheet(s).value.readings, d) == Some(v)
    ensures ValidDate(d) && CellReads(s, i, j, d, v)
  {
    i, j := ExtractedReadingOrigin(s, Reading(d, v));
  }

  /** A date a cleaned sheet has no value for has no non-empty cell in the
      grid. */
  lemma SheetValueMissing(s: Sheet, x: Series, d: Date)
    requires Tabular(s) && ExtractAndCleanSheet(s) == Success(x)
    ensures ValueOn(x.readings, d).None? ==> forall i, j, v :: !CellReads(s, i, j, d, v)
  {
    forall i, j, v | CellReads(s, i, j, d, v) ensures d in DatesOf(x.readings) {
      ExtractedCellKept(s, i, j, d, v);
      assert Reading(d, v).date == d;
    }
  }

  /** A date of a cleaned sheet has a non-empty grid cell. */
  lemma SheetDateOrigin(s: Sheet, d: Date) returns (i: int, j: int, v: CellValue)
    requires Tabular(s) && ExtractAndCleanSheet(s).Success?
    requires d in DatesOf(ExtractAndCleanSheet(s).value.readings)
    ensures ValidDate(d) && CellReads(s, i, j, d, v)
  {
    var x :| x in ExtractAndCleanSheet(s).value.readings && x.date == d;
    v := x.value;
    i, j := ExtractedReadingOrigin(s, x);
  }

  /** A present cell of the loaded frame is its data sheet's grid value on
      that real day. */
  lemma LoadedCellOrigin(sheets: seq<Sheet>, d: Date, k: int, v: CellValue) returns (i: int, j: int)
    requires forall k :: 0 <= k < |sheets| ==> Tabular(sheets[k])
    requires LoadChmiData(sheets).Success?
    requires d in LoadChmiData(sheets).value.rows && 1 <= k < |sheets|
    requires k - 1 < |LoadChmiData(sheets).value.rows[d]| && LoadChmiData(sheets).value.rows[d][k - 1] == Some(v)
    ensures ValidDate(d) && CellReads(sheets[k], i, j, d, v)
  {
    var series := LoadedSeries(sheets);
    JoinedCell(series, d, k - 1);
    i, j := SheetValueOrigin(sheets[k], d, v);
  }

  /** An empty cell of the loaded frame is a date its data sheet has no grid
      value for. */
  lemma LoadedCellEmpty(sheets: seq<Sheet>, d: Date, k: int)
    requires forall k :: 0 <= k < |sheets| ==> Tabular(sheets[k])
    requires LoadChmiData(sheets).Success?
    requires d in LoadChmiData(sheets).value.rows && 1 <= k < |sheets|
    requires k - 1 < |LoadChmiData(sheets).value.rows[d]| && LoadChmiData(sheets).value.rows[d][k - 1].None?
    ensures forall i, j, v :: !CellReads(sheets[k], i, j, d, v)
  {
    var series := LoadedSeries(sheets);
    JoinedCell(series, d, k - 1);
    SheetValueMissing(sheets[k], series[k - 1], d);
  }

  /** Every grid value of a data sheet is in the loaded frame, at its date
      and in the sheet's column. */
  lemma LoadedCellKept(sheets: seq<Sheet>, k: int, i: int, j: int, d: Date, v: CellValue)
    requires forall k :: 0 <= k < |sheets| ==> Tabular(sheets[k])
    requires LoadChmiData(sheets).Success?
    requires 1 <= k < |sheets| && CellReads(sheets[k], i, j, d, v)
    ensures d in LoadChmiData(sheets).value.rows
    ensures k - 1 < |LoadChmiData(sheets).value.rows[d]| && LoadChmiData(sheets).value.rows[d][k - 1] == Some(v)
  {
    var series := LoadedSeries(sheets);
    var rs := series[k - 1].readings;
    ExtractedCellKept(sheets[k], i, j, d, v);
    ValueOnUnique(rs, d, v);
    AllDatesHas(series, k - 1, d);
    JoinedCell(series, d, k - 1);
  }

  /** Every date of the loaded frame is a real day some data sheet has a grid
      value for. */
  lemma LoadedDateOrigin(sheets: seq<Sheet>, d: Date) returns (k: int, i: int, j: int, v: CellValue)
    requires forall k :: 0 <= k < |sheets| ==> Tabular(sheets[k])
    requires LoadChmiData(sheets).Success?
    requires d in LoadChmiData(sheets).value.rows
    ensures 1 <= k < |sheets| && ValidDate(d) && CellReads(sheets[k], i, j, d, v)
  {
    var series := LoadedSeries(sheets);
    var c := AllDatesFrom(series, d);
    k := c + 1;
    i, j, v := SheetDateOrigin(sheets[k], d);
  }

  /** A frame that passes the daily schema has each schema column at some
      position, with a number on every date. */
  lemma SchemaColumnAt(f: DailyFrame, n: string) returns (c: int)
    requires CHMIDailyValid(f) && n in CHMIDailyColumns
    ensures 0 <= c < |f.columns| && f.columns[c] == n
    ensures forall d :: d in f.rows ==> c < |f.rows[d]| && f.rows[d][c].Some? && f.rows[d][c].value.Number?
  {
    c :| 0 <= c < |f.columns| && f.columns[c] == n;
  }

  /** A renamed join that passes the daily schema has, for each schema
      column, a series renamed to it with a number on every joined date. */
  lemma RenamedSchemaColumn(series: seq<Series>, n: string) returns (c: int)
    requires CHMIDailyValid(Renamed(series)) && n in CHMIDailyColumns
    ensures 0 <= c < |series| && RenameColumn(series[c].name) == n
    ensures forall d :: d in AllDates(series) ==>
              ValueOn(series[c].readings, d).Some? && ValueOn(series[c].readings, d).value.Number?
  {
    var f := Renamed(series);
    c := SchemaColumnAt(f, n);
    forall d | d in AllDates(series)
      ensures ValueOn(series[c].readings, d).Some? && ValueOn(series[c].readings, d).value.Number?
    {
      JoinedCell(series, d, c);
    }
  }

  /** Each schema column comes from a data sheet that has a number on every
      date of the loaded frame. */
  lemma LoadedSchemaColumn(sheets: seq<Sheet>, n: string) returns (k: int, x: Series)
    requires forall k :: 0 <= k < |sheets| ==> Tabular(sheets[k])
    requires LoadChmiData(sheets).Success? && n in CHMIDailyColumns
    ensures 1 <= k < |sheets| && RenameColumn(sheets[k].name) == n
    ensures ExtractAndCleanSheet(sheets[k]) == Success(x)
    ensures forall d :: d in LoadChmiData(sheets).value.rows ==>
              ValueOn(x.readings, d).Some? && ValueOn(x.readings, d).value.Number?
  {
    var series := LoadedSeries(sheets);
    LoadedColumns(sheets);
    var c := RenamedSchemaColumn(series, n);
    k, x := c + 1, series[c];
    assert ExtractAndCleanSheet(sheets[k]) == Success(series[k - 1]);
  }

  /** A workbook none of whose data sheets is renamed to some schema column
      does not load. */
  lemma LoadRejectsMissingColumn(sheets: seq<Sheet>, n: string)
    requires forall k :: 0 <= k < |sheets| ==> Tabular(sheets[k])
    requires n in CHMIDailyColumns
    requires forall k :: 1 <= k < |sheets| ==> RenameColumn(sheets[k].name) != n
    ensures LoadChmiData(sheets).Failure?
  {
    if LoadChmiData(sheets).Success? {
      var k, x := LoadedSchemaColumn(sheets, n);
      assert false;
    }
  }
}
