# weatherlyser ingestion core in Dafny

This project models the data-ingestion helpers of the weatherlyser workshop package:

- the Open-Meteo archive path of `weatherlyser/processors.py`:
  - request parameters and the month-by-month chunk loop of `get_open_meteo_data`;
  - the conversion of a response to a wide frame (`open_meteo_response_to_dataframe`);
  - the reshaping of `<quantity>_<model>` columns into a tidy (time, model) frame (`tidy_open_meteo_dataframe`) with its pandera input and output checks;
  - the concatenation, de-duplication and date trimming of the chunks;
  - `get_seasons`.
- the ČHMÚ spreadsheet path of `weatherlyser/loader.py`:
  - each sheet's (year, month) × day grid is melted, cleaned, dated and sorted (`extract_and_clean_chmi_excel_sheet`);
  - the sheets are joined on the date and their Czech names are translated (`load_chmi_data`).
- the pandera models and the weather-code table of `weatherlyser/pa_models.py`, as validator predicates.

Module layout:

| file | module | contents |
|---|---|---|
| `common.dfy` | `Common` | `Option`, `Result`, the error kinds, small helpers |
| `calendar.dfy` | `Calendar` | dates, date validity and date order |
| `pa_models.dfy` | `PaModels` | dtypes, values, the tidy and daily frames, both schemas, `WEATHER_CODES` |
| `seasons.dfy` | `Seasons` | `get_seasons`: an array filled in place by four masked assignments |
| `vocabulary.dfy` | `Vocabulary` | the column-name regex `^(q1\|…)_(m1\|…)$`: matching, extraction, ambiguity |
| `open_meteo.dfy` | `OpenMeteo` | the zone choice, the response-to-frame conversion, the input schema, stacking, `tidy_open_meteo_dataframe` |
| `tidy_properties.dfy` | `TidyProperties` | what reshaping keeps, drops and guarantees |
| `fetching.dfy` | `Fetching` | the query, the chunks, the loop (a method), concat / dedup / trim |
| `chmi.dfy` | `ChmiLoader` | the ČHMÚ loader |

Modelling choices:

- **Vocabularies as parameters.** The quantity and model vocabularies of the regex (`HourlyEnum` and `HistoryModelsEnum` of `api_models.py`) are parameters. The package's default request lists (`DEFAULT_FIELDS`, `DEFAULT_MODELS`) are constants.
- **Pure code as functions.** Pure pandas pipelines are functions on values, with lemmas about them.
- **State as imperative code.** The chunk loop of `get_open_meteo_data` is a method with a loop invariant, proved equal to the function `OpenMeteoData`. `get_seasons` fills an array in place.
- **Timestamps and sizes.** Timestamps are integer seconds. The chunk size is a fixed positive number of seconds.
- **Cells.** A cell is `Missing`, a real, an integer or a boolean. A spreadsheet cell is a number or some text.

Notes on the code:

- **A missing sheet.** A sheet missing from the workbook surfaces as the daily schema's `SchemaError` (`ChmiLoader.LoadRejectsMissingColumn`).
- **Schema checks.** The schemas declare presence, dtype and nullability, with no value bounds.
- **Column names.** The wide frame's columns are flat `<quantity>_<model>` names.
- **Day grids.** A ČHMÚ sheet is a grid with one row per (year, month) and one column per day.
- **Tidy rows.** Stacking yields one row per (time, model) that has any value.

The model follows the code, with two exceptions where the code has a defect recorded under "## Findings". The Open-Meteo pipeline (`OpenMeteo.TidyOpenMeteo`, `Fetching.Combine`, `Fetching.OpenMeteoData`, `Fetching.GetOpenMeteoData`) is built from the corrected members. It de-duplicates by (time, model) key, and it matches column names exactly. The code as written is modelled beside them (`Fetching.DropDuplicatesAsWritten`, `Vocabulary.ExtractFirstAsWritten`), and its discrepancies are proved there.

## Model

| member | source | states |
|---|---|---|
| Calendar.DaysInMonth | weatherlyser/loader.py:131-135 | month lengths that date assembly checks days against lie between 28 and 31 |
| Calendar.NotAfterTotal | weatherlyser/loader.py:139 | any two dates are ordered one way or the other (the order `sort_index` sorts by) |
| Calendar.NotAfterTransitive | weatherlyser/loader.py:139 | the date order is transitive |
| PaModels.EveryHistoricalColumnOptional | weatherlyser/pa_models.py:7-65 | every declared column is optional and nullable: a frame indexed by (time, model) in UTC whose cells are all missing passes, whichever columns it has |
| PaModels.HistoricalColumnDTypes | weatherlyser/pa_models.py:8-62 | weathercode is Int16, is_day boolean, every other declared column float |
| PaModels.CHMIDailyRequiresAllColumns | weatherlyser/pa_models.py:69-78 | a daily frame lacking any of the nine columns fails the daily schema |
| PaModels.WeatherDescription | weatherlyser/pa_models.py:82-112 | a code has a description exactly when it is one of the 28 listed codes; such a code lies in 0..99 and its description is the table's entry |
| PaModels.WeatherCodeKeysListed | weatherlyser/pa_models.py:82-112 | every code of the table is in the ascending code list |
| PaModels.WeatherCodeListKeyed | weatherlyser/pa_models.py:82-112 | every code of the list is in the table |
| PaModels.WeatherCodeKeys | weatherlyser/pa_models.py:82-112 | the table's codes are exactly the listed codes |
| PaModels.WeatherCodeRange | weatherlyser/pa_models.py:82-112 | every code lies in 0..99 |
| PaModels.WeatherCodeListSize | weatherlyser/pa_models.py:82-112 | the list names 28 distinct codes |
| PaModels.StrictlyIncreasingCardinality | weatherlyser/pa_models.py:82-112 | a strictly increasing list has as many distinct codes as entries, the first being least |
| PaModels.WeatherCodesTable | weatherlyser/pa_models.py:82-112 | the table has 28 codes, all in 0..99 and all valid Int16 weathercode cells |
| PaModels.WeatherCodeLookups | weatherlyser/pa_models.py:84-111 | code 0 is "Clear sky" and 99 "Thunderstorm with heavy hail" |
| PaModels.WeatherCodeMisses | weatherlyser/pa_models.py:83-112 | codes 4 and 100, absent from the table, have no description |
| Seasons.SeasonOfMonth | weatherlyser/processors.py:30-34 | every month maps to one of the four allowed season names |
| Seasons.SeasonOfEachMonth | weatherlyser/processors.py:31-34 | a month is winter iff in {12,1,2}, spring iff in {3,4,5}, summer iff in {6,7,8}, autumn iff in {9,10,11} |
| Seasons.AssignWhere | weatherlyser/processors.py:31 | a masked `.loc` assignment sets exactly the entries whose month is in the set and leaves every other entry as it was |
| Seasons.GetSeasons | weatherlyser/processors.py:17-35 | the output check passes exactly when the index has no NaT (SchemaError otherwise), and each value is the season of its month |
| Vocabulary.Alternatives | weatherlyser/processors.py:117-123 | a joined group always has an alternative: the names themselves, or the empty string when there are none |
| Vocabulary.ExtractFirst | weatherlyser/processors.py:130-132 | the extracted pair is a vocabulary pair that spells the name, and there is none exactly when no pair spells it |
| Vocabulary.Split | weatherlyser/processors.py:130-132 | an accepted name splits into a quantity and a model alternative joined by `_` |
| Vocabulary.ExtractIsTheUniqueSplit | weatherlyser/processors.py:117-132 | under an unambiguous vocabulary the extracted pair is the one pair that spells the name |
| Vocabulary.LongerQuantityForcesModelSuffix | weatherlyser/processors.py:117-123 | two splits of one name with different quantity lengths force one model to end with `_` and the other model |
| Vocabulary.SuffixFreeModelsAreUnambiguous | weatherlyser/processors.py:117-123 | if no model ends with `_` and a model, every name has at most one split, whatever the quantities |
| Vocabulary.DefaultModelHasNoModelSuffix | weatherlyser/processors.py:158 | no default model ends with `_` and a default model |
| Vocabulary.DefaultVocabularyUnambiguous | weatherlyser/processors.py:158-195 | the default models are suffix-free, so default column names split uniquely |
| Vocabulary.NewlineNameIsNoSplit | weatherlyser/processors.py:117-123 | a name ending in a newline is spelled by no pair when no model ends in one |
| Vocabulary.TrailingNewlineAcceptedAsWritten | weatherlyser/processors.py:117-132 | the regex as written accepts `temperature_2m_era5\n` and extracts a pair that does not spell it; the exact match rejects it |
| Vocabulary.EndMatchWithoutNewline | weatherlyser/processors.py:122 | without a trailing newline, `$` after a model alternative matches only the whole rest |
| Vocabulary.AsWrittenAgreesWithoutNewline | weatherlyser/processors.py:117-132 | on names without a trailing newline the regex as written and the exact match extract the same pair |
| OpenMeteo.ChooseZone | weatherlyser/processors.py:44-48 | fails exactly when no zone is given and the offset is missing (ValueError) or a day or more; a given zone wins; otherwise the fixed offset |
| OpenMeteo.Names | weatherlyser/processors.py:50 | the frame's columns are the hourly keys in order |
| OpenMeteo.ResponseToFrame | weatherlyser/processors.py:38-58 | fails exactly on a zone failure (with its error) or ragged arrays; otherwise a time-indexed frame in the chosen zone holding the arrays as columns |
| OpenMeteo.FloatQuantities | weatherlyser/processors.py:73-76 | the float rule's quantities are the vocabulary without is_day and weathercode |
| OpenMeteo.RangeIndexRejected | weatherlyser/processors.py:88 | a frame without a datetime index fails the input schema |
| OpenMeteo.NonMatchingColumns | weatherlyser/processors.py:126-129 | the reported names are exactly the columns the pattern rejects; none exactly when every column matches |
| OpenMeteo.Pairs | weatherlyser/processors.py:130-132 | one (quantity, model) pair per column, in order, each the column's split |
| OpenMeteo.PairsDistinct | weatherlyser/processors.py:130-133 | distinct column names give distinct pairs |
| OpenMeteo.ModelsOf | weatherlyser/processors.py:133 | the model level holds exactly the models with a column, without repeats |
| OpenMeteo.TidyOpenMeteo | weatherlyser/processors.py:110-134 | corrected column pattern (Findings row 2): SchemaError on a failed input check; unexpected columns reported with their names; otherwise the stacked frame, which passes the output schema |
| TidyProperties.RowValuesAt | weatherlyser/processors.py:133 | the stacked cell of a column's (quantity, model) is that column's cell |
| TidyProperties.RowValuesFrom | weatherlyser/processors.py:133 | every stacked cell comes from the column of its (quantity, model) |
| TidyProperties.StackRowRows | weatherlyser/processors.py:133 | each row stacked from a wide row is at its time, for a listed model, with that model's cells, not all missing |
| TidyProperties.StackRowComplete | weatherlyser/processors.py:133 | every model with a value in the wide row gets its stacked row |
| TidyProperties.StackRowModelsDistinct | weatherlyser/processors.py:133 | the rows stacked from one wide row have distinct models |
| TidyProperties.StackShape | weatherlyser/processors.py:133 | the stacked rows are exactly the (time, model) rows of wide rows with some value for the model |
| TidyProperties.StackKeysUnique | weatherlyser/processors.py:133 | with distinct times and models, the (time, model) keys of the stack are unique |
| TidyProperties.ModelLevelDistinct | weatherlyser/processors.py:133 | the model level has no repeats when the model vocabulary has none |
| TidyProperties.ReshapeKeepsEveryCell | weatherlyser/processors.py:130-133 | every non-missing wide cell reappears in the tidy frame at its time and model under its quantity |
| TidyProperties.RowValuesProvenance | weatherlyser/processors.py:130-133 | each stacked value is the wide cell under `<quantity>_<model>` |
| TidyProperties.ReshapeRowOrigin | weatherlyser/processors.py:130-133 | every tidy row is stacked from a wide row at its time |
| TidyProperties.ReshapeCellsComeFromInput | weatherlyser/processors.py:130-133 | every tidy value is the wide cell of its time under its `<quantity>_<model>` |
| TidyProperties.ReshapeRowsNotAllMissing | weatherlyser/processors.py:133 | stack drops (time, model) rows whose cells are all missing |
| TidyProperties.ReshapeKeysUnique | weatherlyser/processors.py:130-133 | with a unique time index and distinct models, tidy (time, model) keys are unique |
| TidyProperties.DeclaredColumnConforms | weatherlyser/processors.py:63-102 | a column whose quantity the output declares already conforms to the declared dtype after the input check |
| TidyProperties.NoEmptyColumnName | weatherlyser/pa_models.py:7-62 | no output column has the empty name |
| TidyProperties.TidyNeverFailsOutputCheck | weatherlyser/processors.py:110-134 | a frame that passes the input check and whose names all split never fails the output check |
| TidyProperties.NoUnexpectedColumnsAfterInputCheck | weatherlyser/processors.py:63-129 | with is_day, weathercode and a float quantity in the vocabulary, the input check leaves no unexpected column |
| Fetching.CreateArchiveQuery | weatherlyser/processors.py:137-153 | the query carries the dates, coordinates, fields (as the hourly list) and models unchanged |
| Fetching.NonPositiveStepNeverEnds | weatherlyser/processors.py:218-219 | with a zero or negative chunk size, `chunk_end` never exceeds its start, so the loop condition holds on every pass and the loop never ends |
| Fetching.ChunksAfter | weatherlyser/processors.py:215-219 | no chunk starts before the range's start |
| Fetching.ChunksOrdered | weatherlyser/processors.py:215-219 | each chunk ends no later than every later chunk starts, so chunks never overlap |
| Fetching.ChunksTile | weatherlyser/processors.py:215-219 | chunks are empty iff the range is; otherwise they start at the start, end at the end, are contiguous, non-empty and at most a step long |
| Fetching.ChunkCount | weatherlyser/processors.py:218-219 | the number of chunks is the ceiling of the range length over the step |
| Fetching.ChunksCover | weatherlyser/processors.py:215-219 | every timestamp of the range lies in exactly one chunk |
| Fetching.LoopStep | weatherlyser/processors.py:218-231 | one pass of the loop appends the next chunk's frame or stops at its error |
| Fetching.LoopDone | weatherlyser/processors.py:218 | when the loop condition fails, the collected frames are the result |
| Fetching.UniqueKeysPairwise | weatherlyser/processors.py:234 | unique keys means no two rows share (time, model) |
| Fetching.AllRows | weatherlyser/processors.py:234 | concatenation holds exactly the rows of the frames |
| Fetching.AllQuantities | weatherlyser/processors.py:234 | concatenation's columns are the union of the frames' |
| Fetching.FirstOfEachKey | weatherlyser/processors.py:234 | the corrected de-duplication keeps input rows of unseen keys, with unique keys |
| Fetching.FirstOfEachKeyKeepsFirst | weatherlyser/processors.py:234 | each kept row is the first row of its key |
| Fetching.FirstOfEachKeyKeepsEveryKey | weatherlyser/processors.py:234 | every unseen key of the input keeps a row |
| Fetching.FirstOfEachValues | weatherlyser/processors.py:234 | the as-written de-duplication keeps only input rows whose value vector is not already seen, and no two kept rows share a value vector |
| Fetching.FirstOfEachValuesKeepsFirst | weatherlyser/processors.py:234 | keep="first" on value vectors: a kept row has no earlier row with the same values, the index taking no part |
| Fetching.FirstValuesInTail | weatherlyser/processors.py:234 | a row first of its value vector in the tail, with values other than the head's, is first in the whole sequence |
| Fetching.FirstOfEachValuesKeepsEveryVector | weatherlyser/processors.py:234 | every unseen value vector of the input keeps a row |
| Fetching.DropDuplicatesLosesDistinctHours | weatherlyser/processors.py:234 | two hours of one model with equal values: as written one hour is lost, while key de-duplication keeps both |
| Fetching.TrimToRange | weatherlyser/processors.py:234 | `.loc[start:end]` keeps exactly the rows with start <= time <= end and the frame's shape |
| Fetching.Filter | weatherlyser/processors.py:234 | keeps exactly the rows within the bounds |
| Fetching.FilterKeepsUniqueKeys | weatherlyser/processors.py:234 | trimming keeps keys unique |
| Fetching.FetchChunksSuccess | weatherlyser/processors.py:218-231 | a successful loop yields one frame per chunk, each that chunk's tidy frame |
| Fetching.FetchChunksStep | weatherlyser/processors.py:218-231 | one iteration of a successful loop: the chunk and the remaining chunks both succeed, and the frames are the chunk's frame followed by the rest (a helper for `FetchChunksSuccess`) |
| Fetching.FetchChunksFailure | weatherlyser/processors.py:218-231 | a failed loop reports the first failing chunk's error, all earlier chunks having succeeded |
| Fetching.FinishedFrameValid | weatherlyser/processors.py:198-234 | concatenating, de-duplicating and trimming valid frames gives a valid frame |
| Fetching.CollectedFramesValid | weatherlyser/processors.py:229-231 | every collected frame passes the output schema |
| Fetching.OpenMeteoDataOutcome | weatherlyser/processors.py:198-234 | the result fails exactly when a chunk fails (with its error) or the range is empty (nothing to concatenate) |
| Fetching.CombineRowsFromFrames | weatherlyser/processors.py:234 | the combined rows come from the frames and lie within [start, end] |
| Fetching.CombineKeysUnique | weatherlyser/processors.py:234 | corrected chain (Findings row 1): the combined frame has one row per (time, model) |
| Fetching.CombineKeepsEveryKey | weatherlyser/processors.py:234 | corrected chain (Findings row 1): every (time, model) within [start, end] of some frame keeps a row |
| Fetching.OpenMeteoDataRows | weatherlyser/processors.py:198-234 | corrected chain (Findings row 1): a result is the key-de-duplicated, trimmed combination of all chunk frames |
| Fetching.FetchAllChunks | weatherlyser/processors.py:212-231 | the loop returns what the chunk-by-chunk specification returns |
| Fetching.GetOpenMeteoData | weatherlyser/processors.py:198-234 | corrected chain (Findings rows 1 and 2): the method returns what the function `OpenMeteoData` specifies |
| ChmiLoader.ReplaceSpaces | weatherlyser/loader.py:116 | replacing spaces keeps the length |
| ChmiLoader.ReplaceSpacesAt | weatherlyser/loader.py:116 | each character is kept except a space, which becomes `_` |
| ChmiLoader.ReplaceSpacesNormalises | weatherlyser/loader.py:116 | the result has no space and renaming it again changes nothing |
| ChmiLoader.NoSpaceUnchanged | weatherlyser/loader.py:116 | a name without spaces is unchanged |
| ChmiLoader.ReplaceSpacesAppend | weatherlyser/loader.py:116 | replacing spaces distributes over concatenation |
| ChmiLoader.RenamedOneWord | weatherlyser/loader.py:84-116 | a table entry with a one-word English name is renamed to it |
| ChmiLoader.SpaceReplaced | weatherlyser/loader.py:116 | a single space becomes a single underscore |
| ChmiLoader.ReplaceSpaceBeforeWord | weatherlyser/loader.py:116 | a space before a word without spaces becomes `_` and the word is kept |
| ChmiLoader.TwoWordsJoined | weatherlyser/loader.py:116 | two words joined by a space become the words joined by `_` |
| ChmiLoader.ThreeWordsJoined | weatherlyser/loader.py:116 | three words joined by spaces become the words joined by `_` |
| ChmiLoader.RenamedTwoWords | weatherlyser/loader.py:84-116 | a table entry whose English name is two words is renamed to the words joined by `_` |
| ChmiLoader.RenamedThreeWords | weatherlyser/loader.py:84-116 | a table entry whose English name is three words is renamed to the words joined by `_` |
| ChmiLoader.TranslationInjective | weatherlyser/loader.py:84-94 | distinct sheet names of the table translate to distinct English names |
| ChmiLoader.TranslationCoversDailySchema | weatherlyser/loader.py:84-116 | the nine renamed sheet names are exactly the nine columns of the daily schema |
| ChmiLoader.SheetFor | weatherlyser/loader.py:84-116 | each table sheet becomes a schema column |
| ChmiLoader.SheetNamed | weatherlyser/loader.py:84-116 | each schema column is the rename of a table sheet |
| ChmiLoader.SheetIndex | weatherlyser/loader.py:84-94 | every table key is one of the nine listed sheet names |
| ChmiLoader.RenamedEntry | weatherlyser/loader.py:84-116 | the k-th sheet name is renamed to the k-th schema column |
| ChmiLoader.RenamedAverageTemperature | weatherlyser/loader.py:85 | `teplota průměrná` becomes `average_temperature` |
| ChmiLoader.RenamedMaximumTemperature | weatherlyser/loader.py:86 | `teplota maximální` becomes `maximum_temperature` |
| ChmiLoader.RenamedMinimumTemperature | weatherlyser/loader.py:87 | `teplota minimální` becomes `minimum_temperature` |
| ChmiLoader.RenamedWindSpeed | weatherlyser/loader.py:88 | `rychlost větru` becomes `wind_speed` |
| ChmiLoader.RenamedAirPressure | weatherlyser/loader.py:89 | `tlak vzduchu` becomes `air_pressure` |
| ChmiLoader.RenamedTotalSnowDepth | weatherlyser/loader.py:92 | `celková výška sněhu` becomes `total_snow_depth` |
| ChmiLoader.MeltColumn | weatherlyser/loader.py:126-127 | one melted row per grid row for a day column, carrying year, month, day and cell |
| ChmiLoader.MeltFromLength | weatherlyser/loader.py:126-127 | melting yields one row per grid cell |
| ChmiLoader.MeltFromHasCell | weatherlyser/loader.py:126-127 | every grid cell is melted |
| ChmiLoader.MeltFromOrigin | weatherlyser/loader.py:126-127 | every melted row is a grid cell |
| ChmiLoader.DropNa | weatherlyser/loader.py:128 | keeps exactly the rows with year, month and value present |
| ChmiLoader.ToReadings | weatherlyser/loader.py:130-137 | succeeds exactly when every row names a real day, then dates each row in order |
| ChmiLoader.ToReadingsError | weatherlyser/loader.py:130-135 | the error names the first row that is not a real day |
| ChmiLoader.InsertPermutes | weatherlyser/loader.py:139 | inserting adds exactly the one reading |
| ChmiLoader.InsertSorted | weatherlyser/loader.py:139 | inserting keeps date order |
| ChmiLoader.ConsSorted | weatherlyser/loader.py:139 | a reading no later than every reading of a sorted sequence may be put in front of it |
| ChmiLoader.SortByDateCorrect | weatherlyser/loader.py:139 | the sort is a permutation in date order |
| ChmiLoader.ReadingsOfSheet | weatherlyser/loader.py:120-139 | a cleaned sheet is the sorted dated rows of its melted, non-empty cells |
| ChmiLoader.ExtractedSheetSorted | weatherlyser/loader.py:136-139 | a cleaned sheet keeps the sheet's name and is in date order |
| ChmiLoader.ExtractedReadingOrigin | weatherlyser/loader.py:120-139 | every reading is on a real day and is a non-empty grid cell of that date |
| ChmiLoader.ExtractedCellKept | weatherlyser/loader.py:120-139 | every non-empty cell on a row with year and month becomes a reading |
| ChmiLoader.ExtractFailsOnInvalidDate | weatherlyser/loader.py:130-135 | a non-empty cell whose date is no real day makes the sheet fail |
| ChmiLoader.ExtractErrorNamesCell | weatherlyser/loader.py:130-135 | a failed sheet's error names such a cell |
| ChmiLoader.ValueOn | weatherlyser/loader.py:112-114 | a joined cell is a reading of that date, and empty exactly when the sheet lacks the date |
| ChmiLoader.ValueOnUnique | weatherlyser/loader.py:112-114 | with unique dates the joined cell is the date's one reading |
| ChmiLoader.AllDatesHas | weatherlyser/loader.py:112-114 | the joined index holds every sheet's dates |
| ChmiLoader.AllDatesFrom | weatherlyser/loader.py:112-114 | every joined date is some sheet's |
| ChmiLoader.JoinedCell | weatherlyser/loader.py:112-114 | each joined row has one cell per sheet, the sheet's value on that date |
| ChmiLoader.ExtractAllSuccess | weatherlyser/loader.py:107-111 | on success, one cleaned sheet per sheet, in order |
| ChmiLoader.ExtractAllError | weatherlyser/loader.py:107-111 | a failure is the first failing sheet's, earlier sheets having succeeded |
| ChmiLoader.SheetValueOrigin | weatherlyser/loader.py:112-139 | a value a cleaned sheet holds for a date is a grid cell of that real day |
| ChmiLoader.SheetValueMissing | weatherlyser/loader.py:112-139 | a date a cleaned sheet lacks has no non-empty cell in the grid |
| ChmiLoader.SheetDateOrigin | weatherlyser/loader.py:112-139 | a date of a cleaned sheet has a grid cell |
| ChmiLoader.DataSheets | weatherlyser/loader.py:107-111 | the data sheets are the workbook's sheets after the first, in order |
| ChmiLoader.LoadNeedsDataSheets | weatherlyser/loader.py:107-113 | a workbook with no sheet after the first fails with nothing to concatenate |
| ChmiLoader.LoadSheetError | weatherlyser/loader.py:107-111 | a load fails with the first failing data sheet's error |
| ChmiLoader.LoadFailsOnBadSheet | weatherlyser/loader.py:107-111 | any failing data sheet fails the load |
| ChmiLoader.LoadedSeries | weatherlyser/loader.py:99-117 | a loaded frame is the renamed join of the cleaned data sheets, each with unique dates |
| ChmiLoader.LoadedColumns | weatherlyser/loader.py:99-117 | a loaded frame passes the daily schema, is indexed by date, and its columns are the renamed data sheets in workbook order |
| ChmiLoader.LoadedCellOrigin | weatherlyser/loader.py:99-139 | a present cell is its sheet's grid value on that real day |
| ChmiLoader.LoadedCellEmpty | weatherlyser/loader.py:99-139 | an empty cell is a date its sheet has no value for |
| ChmiLoader.LoadedCellKept | weatherlyser/loader.py:99-139 | every grid value of a data sheet is in the frame at its date and sheet's column |
| ChmiLoader.LoadedDateOrigin | weatherlyser/loader.py:99-139 | every date of the frame is a date some data sheet has a value for |
| ChmiLoader.SchemaColumnAt | weatherlyser/pa_models.py:69-78 | a frame passing the daily schema has each schema column at some position, with a number on every date |
| ChmiLoader.RenamedSchemaColumn | weatherlyser/loader.py:112-117 | in a renamed join passing the daily schema, each schema column is some sheet renamed, with a number on every joined date |
| ChmiLoader.LoadedSchemaColumn | weatherlyser/loader.py:99-117 | each schema column comes from a data sheet with a number on every date of the frame |
| ChmiLoader.LoadRejectsMissingColumn | weatherlyser/loader.py:99-117 | a workbook with no data sheet renamed to a schema column does not load |

## Left out

- I/O is not modelled: the Excel workbook, the HTTP request, the `memoize_to_file` cache and `load_open_meteo_archive_data`. A workbook is a sequence of parsed sheets. The archive request is a function parameter `fetch` from query to response.
- `api_models.py` is not part of this model. The pydantic parsing and validation of queries and responses are left out, and so is the range checking of coordinates. The `HourlyEnum` and `HistoryModelsEnum` vocabularies are parameters.
- Floating point is not modelled: values are mathematical reals.
- PaModels.Conforms: pandera's `coerce=True` is not modelled for the Open-Meteo frames. A cell must already carry its column's declared type, so an integer in a float column, a 0/1 integer in the `is_day` column or a whole real in the `weathercode` column fails the model's input check, where pandera would convert it. For the ČHMÚ frame, coercion is modelled only as "a number is a float and text is not".
- Time zones are modelled as a naive, fixed-offset or named zone, with no daylight-saving rules. `tz_localize` does not move timestamps.
- PaModels.CHMIDailyValid: the zone and dtype of the date index are not checked. The loader builds a zone-less index (`pd.to_datetime` of year, month and day), while the schema declares `DatetimeTZDtype("ns", "Europe/Prague")`. As declared, that check would reject every load, whereas the package's own test expects a load to pass. Which of the two happens depends on pandera's index handling, which is not part of this model. The model accepts the zone-less index, so `ChmiLoader.LoadChmiData` can succeed.
- Dates are limited only by the calendar. pandas' nanosecond timestamp range (years 1677–2262) is not modelled.
- Fetching.Chunks: `relativedelta(months=1)` steps of varying length are modelled as a fixed positive step. The source never checks the sign of `chunk_size`: with a zero or negative step, processors.py:218-219 never advance `chunk_end`, so the loop never ends and appends a frame on every pass (`Fetching.NonPositiveStepNeverEnds`). The `step > 0` requires of `Fetching.Chunks` and the `chunkSize > 0` requires of `Fetching.FetchAllChunks`, `Fetching.GetOpenMeteoData` and `Fetching.OpenMeteoData` exclude exactly that input, for which the source has no result.
- Fetching.FetchChunk states nothing of its own. Its behaviour is stated through `FetchChunksSuccess`, `FetchChunksFailure` and the loop method.
- Fetching.FetchAllChunks: this method is the loop of `get_open_meteo_data`, separated so its invariant stays small. `GetOpenMeteoData` calls it.
- Fetching.TrimToRange: `start_date` and `end_date` are timestamps in seconds. The parsing of date strings by `.loc` is left out.
- OpenMeteo.Stack: pandas sorts the model level when stacking. The model keeps the order of the model vocabulary within a time, so row order is not the pandas row order.
- Fetching.GetOpenMeteoData: follows the corrected behaviour of Findings rows 1 and 2, not `pd.concat(dfs).drop_duplicates().loc[...]` as written. As written, `drop_duplicates()` compares values only, so two hours of one model with equal values collapse to one row (`Fetching.DropDuplicatesLosesDistinctHours`). Rows with the same (time, model) but different values both stay.
- Fetching.CombineKeysUnique: holds for the corrected key de-duplication only. Under the value-only `drop_duplicates()` as written, two rows with one key and different values both stay.
- Fetching.CombineKeepsEveryKey: holds for the corrected key de-duplication only. As written, the input of Findings row 1 loses a key.
- Fetching.OpenMeteoDataRows: states the result as the corrected combination (`Fetching.FirstOfEachKey` on the concatenation, then trimming), not as the value-only de-duplication written at processors.py:234.
- OpenMeteo.TidyOpenMeteo: follows the corrected behaviour of Findings row 2. The input check and the column split accept only names that are exactly `<quantity>_<model>`. A name ending in a newline, such as `temperature_2m_era5` followed by `\n`, passes the source's `$` pattern and is tidied as (temperature_2m, era5), but the model rejects it with `SchemaError` (`Vocabulary.TrailingNewlineAcceptedAsWritten` models the source).
- OpenMeteo.TidyOpenMeteo: duplicate column labels in the wide frame are not rejected. The cell-provenance and key lemmas assume distinct columns.
- Parsing a sheet (`excel_data.parse(sheet_name, skiprows=3)`) is not modelled. A sheet is its grid below the three header rows, with one day number per day column and one cell per day in every row (`ChmiLoader.Tabular`).
- ChmiLoader.ToReadings: pandas reports an impossible date in an error message. The model's error carries the year, month and day of the first such row in melt order.
- ChmiLoader.SortByDate: `sort_index` uses an unstable quicksort, while the model uses a stable insertion sort. They agree whenever the dates are unique, which every successful load requires.
- ChmiLoader.LoadChmiData: `pd.concat(axis=1)` accepts duplicate dates when every sheet's index is identical. The model rejects any sheet with a repeated date (`DuplicateDates`), because a date-keyed frame cannot hold repeated dates.
- ChmiLoader.Join: the order of the joined date index is not modelled, because the rows are a map keyed by date.
- `aggregations.py`, the notebooks and the tests are not part of this model.

## Findings

| source | as written | input that shows it | evidently intended | confidence | as-written member | corrected member |
|---|---|---|---|---|---|---|
| weatherlyser/processors.py:234 | `drop_duplicates()` compares column values only, ignoring the (time, model) index | two hours of era5 with the same rain value: one hour is silently lost | drop rows repeated by overlapping chunks, i.e. duplicate (time, model) keys | not executed | Fetching.DropDuplicatesLosesDistinctHours | Fetching.FirstOfEachKey |
| weatherlyser/processors.py:117-132 | the pattern ends in `$`, which in Python's `re` also matches before a final newline | column `temperature_2m_era5\n` passes the check and is extracted as (temperature_2m, era5), a pair that does not spell it | accept only names that are exactly `<quantity>_<model>` | not executed | Vocabulary.TrailingNewlineAcceptedAsWritten | Vocabulary.ExtractFirst |
