/** get_open_meteo_data: the requested days are fetched chunk by chunk,
    each chunk's response is turned into a tidy frame, and the frames are
    concatenated, de-duplicated and trimmed to the requested days. */
module Fetching {
  import opened Common
  import opened PaModels
  import opened Vocabulary
  import opened OpenMeteo

  /** The query parameters of one archive request. */
  datatype ArchiveQuery = ArchiveQuery(
    latitude: real, longitude: real, hourly: seq<string>, startDate: int, endDate: int, models: seq<string>)

  /** _create_archive_query_parameters: the fields become the hourly list
      and the models the model list, both as given, in their order. */
  function CreateArchiveQuery(startDate: int, endDate: int, latitude: real, longitude: real,
                              models: seq<string>, fields: seq<string>): (q: ArchiveQuery)
    ensures q.hourly == fields && q.models == models
    ensures q.startDate == startDate && q.endDate == endDate
    ensures q.latitude == latitude && q.longitude == longitude
  {
    ArchiveQuery(latitude, longitude, fields, startDate, endDate, models)
  }

  /** What the caller asks for besides the dates. */
  datatype Request = Request(latitude: real, longitude: real, models: seq<string>, fields: seq<string>)

  // ---------------------------------------------------------------------
  // Chunks

  /** A half-open interval [start, end) of timestamps. */
  datatype Chunk = Chunk(start: int, end: int)

  /** The chunks the loop walks through: from `from`, steps of `step`, the
      last one cut at `stop`. */
  function Chunks(from: int, stop: int, step: int): seq<Chunk>
    requires step > 0
    decreases stop - from
  {
    if from >= stop then []
    else [Chunk(from, Min(from + step, stop))] + Chunks(Min(from + step, stop), stop, step)
  }

  /** The chunks tile [from, stop): none when the interval is empty, the
      first starts at `from`, each starts where the previous ended, each is
      non-empty and at most `step` long, the last ends at `stop`, and there
      are as many as whole steps cover the interval. */
  lemma {:induction false} ChunksTile(from: int, stop: int, step: int)
    requires step > 0
    ensures var cs := Chunks(from, stop, step);
            && (cs == [] <==> from >= stop)
            && (cs != [] ==> cs[0].start == from && cs[|cs| - 1].end == stop)
            && (forall i :: 0 <= i < |cs| ==>
                  cs[i].start < cs[i].end <= cs[i].start + step && cs[i].end == Min(cs[i].start + step, stop))
            && (forall i :: 0 < i < |cs| ==> cs[i].start == cs[i - 1].end)
    decreases stop - from
  {
    if from < stop {
      var next := Min(from + step, stop);
      ChunksTile(next, stop, step);
      var cs := Chunks(from, stop, step);
      var rest := Chunks(next, stop, step);
      assert cs == [Chunk(from, next)] + rest;
      forall i | 0 < i < |cs| ensures cs[i].start == cs[i - 1].end {
        if i > 1 {
          assert cs[i] == rest[i - 1] && cs[i - 1] == rest[i - 2];
        }
      }
    }
  }

  /** The number of chunks is the ceiling of (stop - from) / step: one
      step fewer would not reach `stop`. */
  lemma {:induction false} ChunkCount(from: int, stop: int, step: int)
    requires step > 0 && from < stop
    ensures (|Chunks(from, stop, step)| - 1) * step < stop - from <= |Chunks(from, stop, step)| * step
    decreases stop - from
  {
    var next := Min(from + step, stop);
    var n := |Chunks(from, stop, step)|;
    assert n == 1 + |Chunks(next, stop, step)|;
    if next < stop {
      ChunkCount(next, stop, step);
      var m := |Chunks(next, stop, step)|;
      assert (m - 1) * step < stop - next <= m * step;
      assert (n - 1) * step == m * step;
      assert n * step == m * step + step;
    }
  }

  /** `chunk_end` after `n` passes of the loop body, for any step: each pass
      sets it to `min(chunk_start + chunk_size, end_timestamp)`. */
  function ChunkEndAfter(from: int, stop: int, step: int, n: nat): int
  {
    if n == 0 then from else Min(ChunkEndAfter(from, stop, step, n - 1) + step, stop)
  }

  /** With a zero or negative step, `chunk_end` never moves forward: after
      any number of passes it is still at most where it started, so the loop
      condition `chunk_start < end_timestamp` stays true and the loop never
      ends. `Chunks` requires a positive step for exactly this reason. */
  lemma {:induction false} NonPositiveStepNeverEnds(from: int, stop: int, step: int, n: nat)
    requires step <= 0 && from < stop
    ensures ChunkEndAfter(from, stop, step, n) <= from < stop
  {
    if n > 0 {
      NonPositiveStepNeverEnds(from, stop, step, n - 1);
    }
  }

  /** Every chunk starts at or after `from`. */
  lemma {:induction false} ChunksAfter(from: int, stop: int, step: int)
    requires step > 0
    ensures forall i :: 0 <= i < |Chunks(from, stop, step)| ==> from <= Chunks(from, stop, step)[i].start
    decreases stop - from
  {
    if from < stop {
      var next := Min(from + step, stop);
      var cs := Chunks(from, stop, step);
      var rest := Chunks(next, stop, step);
      ChunksAfter(next, stop, step);
      forall i | 0 < i < |cs| ensures from <= cs[i].start {
        assert cs[i] == rest[i - 1];
      }
    }
  }

  /** A chunk ends no later than any later chunk starts. */
  lemma {:induction false} ChunksOrdered(from: int, stop: int, step: int)
    requires step > 0
    ensures forall i, j :: 0 <= i < j < |Chunks(from, stop, step)| ==>
              Chunks(from, stop, step)[i].end <= Chunks(from, stop, step)[j].start
    decreases stop - from
  {
    if from < stop {
      var next := Min(from + step, stop);
      var cs := Chunks(from, stop, step);
      var rest := Chunks(next, stop, step);
      ChunksOrdered(next, stop, step);
      ChunksAfter(next, stop, step);
      forall i, j | 0 <= i < j < |cs| ensures cs[i].end <= cs[j].start {
        assert cs[j] == rest[j - 1];
        if i > 0 {
          assert cs[i] == rest[i - 1];
        }
      }
    }
  }

  /** Every timestamp of [from, stop) lies in exactly one chunk. */
  lemma {:induction false} ChunksCover(from: int, stop: int, step: int, t: int)
    requires step > 0 && from <= t < stop
    ensures exists i :: 0 <= i < |Chunks(from, stop, step)|
              && Chunks(from, stop, step)[i].start <= t < Chunks(from, stop, step)[i].end
    ensures forall i, j :: 0 <= i < j < |Chunks(from, stop, step)| ==>
              !(Chunks(from, stop, step)[i].start <= t < Chunks(from, stop, step)[i].end
                && Chunks(from, stop, step)[j].start <= t < Chunks(from, stop, step)[j].end)
    decreases stop - from
  {
    var next := Min(from + step, stop);
    var cs := Chunks(from, stop, step);
    ChunksOrdered(from, stop, step);
    assert cs[0] == Chunk(from, next);
    if t >= next {
      ChunksCover(next, stop, step, t);
      var i :| 0 <= i < |Chunks(next, stop, step)| && Chunks(next, stop, step)[i].start <= t < Chunks(next, stop, step)[i].end;
      assert cs[i + 1] == Chunks(next, stop, step)[i];
    }
  }

  // ---------------------------------------------------------------------
  // One chunk

  function ChunkQuery(req: Request, c: Chunk): ArchiveQuery
  {
    CreateArchiveQuery(c.start, c.end, req.latitude, req.longitude, req.models, req.fields)
  }

  /** One pass of the loop body: fetch, build the wide frame in the zone of
      the response, tidy it. */
  function FetchChunk(quantities: seq<string>, models: seq<string>, req: Request,
                      fetch: ArchiveQuery -> Response, c: Chunk): Result<TidyFrame>
  {
    var resp := fetch(ChunkQuery(req, c));
    match ResponseToFrame(resp, None)
    case Failure(e) => Failure(e)
    case Success(f) => TidyOpenMeteo(quantities, models, f)
  }

  /** The loop over all chunks: the frames in chunk order, or the first
      chunk's error. */
  function FetchChunks(quantities: seq<string>, models: seq<string>, req: Request,
                       fetch: ArchiveQuery -> Response, cs: seq<Chunk>): Result<seq<TidyFrame>>
  {
    if cs == [] then Success([])
    else match FetchChunk(quantities, models, req, fetch, cs[0])
      case Failure(e) => Failure(e)
      case Success(f) =>
        match FetchChunks(quantities, models, req, fetch, cs[1..])
        case Failure(e) => Failure(e)
        case Success(fs) => Success([f] + fs)
  }

  function Prepend(frames: seq<TidyFrame>, r: Result<seq<TidyFrame>>): Result<seq<TidyFrame>>
  {
    if r.Failure? then r else Success(frames + r.value)
  }

  /** One pass of the loop: the next chunk's frame joins the collected
      ones, or its error ends the loop. */
  lemma LoopStep(quantities: seq<string>, models: seq<string>, req: Request, fetch: ArchiveQuery -> Response,
                 frames: seq<TidyFrame>, start: int, stop: int, step: int)
    requires step > 0 && start < stop
    ensures var next := Min(start + step, stop);
            var r := FetchChunk(quantities, models, req, fetch, Chunk(start, next));
            Prepend(frames, FetchChunks(quantities, models, req, fetch, Chunks(start, stop, step)))
            == if r.Failure? then Failure(r.error)
               else Prepend(frames + [r.value], FetchChunks(quantities, models, req, fetch, Chunks(next, stop, step)))
  {
    var next := Min(start + step, stop);
    var rest := Chunks(next, stop, step);
    var cs := Chunks(start, stop, step);
    assert cs == [Chunk(start, next)] + rest;
    assert cs[0] == Chunk(start, next) && cs[1..] == rest;
    var r := FetchChunk(quantities, models, req, fetch, Chunk(start, next));
    if r.Success? {
      var tail := FetchChunks(quantities, models, req, fetch, rest);
      if tail.Success? {
        assert FetchChunks(quantities, models, req, fetch, cs) == Success([r.value] + tail.value);
        assert frames + ([r.value] + tail.value) == (frames + [r.value]) + tail.value;
      }
    }
  }

  /** When the loop stops, the collected frames are all there is. */
  lemma LoopDone(quantities: seq<string>, models: seq<string>, req: Request, fetch: ArchiveQuery -> Response,
                 frames: seq<TidyFrame>, start: int, stop: int, step: int)
    requires step > 0 && start >= stop
    ensures Prepend(frames, FetchChunks(quantities, models, req, fetch, Chunks(start, stop, step))) == Success(frames)
  {
    assert frames + [] == frames;
  }

  // ---------------------------------------------------------------------
  // Concatenation, de-duplication and trimming

  function Key(row: TidyRow): (int, string)
  {
    (row.time, row.model)
  }

  function Keys(rows: seq<TidyRow>): set<(int, string)>
  {
    set x | x in rows :: Key(x)
  }

  /** No (time, model) occurs twice. */
  predicate UniqueKeys(rows: seq<TidyRow>)
  {
    rows == [] || (Key(rows[0]) !in Keys(rows[1..]) && UniqueKeys(rows[1..]))
  }

  /** Unique keys, stated pairwise. */
  lemma {:induction false} UniqueKeysPairwise(rows: seq<TidyRow>)
    requires UniqueKeys(rows)
    ensures forall k1, k2 :: 0 <= k1 < k2 < |rows| ==> Key(rows[k1]) != Key(rows[k2])
  {
    if rows != [] {
      UniqueKeysPairwise(rows[1..]);
      forall k1, k2 | 0 <= k1 < k2 < |rows| ensures Key(rows[k1]) != Key(rows[k2]) {
        assert rows[k2] == rows[1..][k2 - 1];
        if k1 == 0 {
          assert rows[k2] in rows[1..];
        } else {
          assert rows[k1] == rows[1..][k1 - 1];
        }
      }
    }
  }

  function AllRows(frames: seq<TidyFrame>): (rows: seq<TidyRow>)
    ensures forall x :: x in rows <==> exists i :: 0 <= i < |frames| && x in frames[i].rows
  {
    if frames == [] then []
    else
      var rest := AllRows(frames[1..]);
      assert forall i :: 1 <= i < |frames| ==> frames[i] == frames[1..][i - 1];
      frames[0].rows + rest
  }

  function AllQuantities(frames: seq<TidyFrame>): (qs: set<string>)
    ensures forall q :: q in qs <==> exists i :: 0 <= i < |frames| && q in frames[i].quantities
  {
    if frames == [] then {}
    else
      assert forall i :: 1 <= i < |frames| ==> frames[i] == frames[1..][i - 1];
      frames[0].quantities + AllQuantities(frames[1..])
  }

  /** pd.concat along the rows: the rows of every frame in order, the union
      of the columns (a row lacking a column reads missing there). */
  function Concat(frames: seq<TidyFrame>): TidyFrame
    requires frames != []
  {
    TidyFrame(frames[0].indexNames, frames[0].zone, AllQuantities(frames), AllRows(frames))
  }

  /** The first rows of every (time, model) key, in order, for the keys not
      in `seen`. */
  function FirstOfEachKey(rows: seq<TidyRow>, seen: set<(int, string)>): (out: seq<TidyRow>)
    ensures forall x :: x in out ==> x in rows && Key(x) !in seen
    ensures UniqueKeys(out)
  {
    if rows == [] then []
    else if Key(rows[0]) in seen then FirstOfEachKey(rows[1..], seen)
    else [rows[0]] + FirstOfEachKey(rows[1..], seen + {Key(rows[0])})
  }

  /** A kept row is the first row of its key: no earlier row has the same
      (time, model). */
  lemma {:induction false} FirstOfEachKeyKeepsFirst(rows: seq<TidyRow>, seen: set<(int, string)>, k: int) returns (i: int)
    requires 0 <= k < |FirstOfEachKey(rows, seen)|
    ensures 0 <= i < |rows| && rows[i] == FirstOfEachKey(rows, seen)[k]
    ensures forall j :: 0 <= j < i ==> Key(rows[j]) != Key(rows[i])
  {
    var out := FirstOfEachKey(rows, seen);
    if Key(rows[0]) in seen {
      var i' := FirstOfEachKeyKeepsFirst(rows[1..], seen, k);
      assert Key(out[k]) !in seen;
      i := i' + 1;
      FirstInTail(rows, i');
    } else if k > 0 {
      var rest := FirstOfEachKey(rows[1..], seen + {Key(rows[0])});
      assert out[k] == rest[k - 1];
      var i' := FirstOfEachKeyKeepsFirst(rows[1..], seen + {Key(rows[0])}, k - 1);
      assert Key(rest[k - 1]) !in seen + {Key(rows[0])};
      i := i' + 1;
      FirstInTail(rows, i');
    } else {
      i := 0;
    }
  }

  /** A row first of its key in the tail, whose key differs from the head's,
      is first of its key in the whole sequence. */
  lemma FirstInTail(rows: seq<TidyRow>, i: int)
    requires 0 <= i < |rows| - 1
    requires forall j :: 0 <= j < i ==> Key(rows[1..][j]) != Key(rows[1..][i])
    requires Key(rows[0]) != Key(rows[i + 1])
    ensures forall j :: 0 <= j < i + 1 ==> Key(rows[j]) != Key(rows[i + 1])
  {
    forall j | 0 <= j < i + 1 ensures Key(rows[j]) != Key(rows[i + 1]) {
      if j > 0 { assert rows[j] == rows[1..][j - 1]; }
    }
  }

  /** Every key of the input, unless already seen, keeps a row. */
  lemma {:induction false} FirstOfEachKeyKeepsEveryKey(rows: seq<TidyRow>, seen: set<(int, string)>, x: TidyRow)
    requires x in rows && Key(x) !in seen
    ensures exists y :: y in FirstOfEachKey(rows, seen) && Key(y) == Key(x)
  {
    var out := FirstOfEachKey(rows, seen);
    if Key(rows[0]) in seen {
      assert x in rows[1..];
      FirstOfEachKeyKeepsEveryKey(rows[1..], seen, x);
    } else if Key(x) == Key(rows[0]) {
      assert out[0] == rows[0];
    } else {
      assert x in rows[1..];
      FirstOfEachKeyKeepsEveryKey(rows[1..], seen + {Key(rows[0])}, x);
      var y :| y in FirstOfEachKey(rows[1..], seen + {Key(rows[0])}) && Key(y) == Key(x);
      assert y in out;
    }
  }

  /** Removing the repeated (time, model) rows that overlapping chunks
      produce: the first row of each key is kept. */
  function DropDuplicateKeys(f: TidyFrame): TidyFrame
  {
    f.(rows := FirstOfEachKey(f.rows, {}))
  }

  /** The values of a row over the frame's columns, missing where the row
      has none: what drop_duplicates compares. */
  function Values(row: TidyRow, quantities: set<string>): map<string, Value>
  {
    map q | q in quantities :: Cell(row, q)
  }

  /** The first row of each distinct value vector, as DataFrame.drop_duplicates
      keeps them: the index takes no part in the comparison. */
  function FirstOfEachValues(rows: seq<TidyRow>, quantities: set<string>, seen: set<map<string, Value>>): (out: seq<TidyRow>)
    ensures forall x :: x in out ==> x in rows && Values(x, quantities) !in seen
    ensures forall i, j :: 0 <= i < j < |out| ==> Values(out[i], quantities) != Values(out[j], quantities)
  {
    if rows == [] then []
    else if Values(rows[0], quantities) in seen then FirstOfEachValues(rows[1..], quantities, seen)
    else
      var rest := FirstOfEachValues(rows[1..], quantities, seen + {Values(rows[0], quantities)});
      assert forall j :: 0 < j <= |rest| ==> ([rows[0]] + rest)[j] == rest[j - 1];
      [rows[0]] + rest
  }

  /** A row kept by drop_duplicates is the first row of its value vector:
      no earlier row has the same values. */
  lemma {:induction false} FirstOfEachValuesKeepsFirst(rows: seq<TidyRow>, quantities: set<string>,
                                                       seen: set<map<string, Value>>, k: int) returns (i: int)
    requires 0 <= k < |FirstOfEachValues(rows, quantities, seen)|
    ensures 0 <= i < |rows| && rows[i] == FirstOfEachValues(rows, quantities, seen)[k]
    ensures forall j :: 0 <= j < i ==> Values(rows[j], quantities) != Values(rows[i], quantities)
  {
    var out := FirstOfEachValues(rows, quantities, seen);
    var v := Values(rows[0], quantities);
    if v in seen {
      var i' := FirstOfEachValuesKeepsFirst(rows[1..], quantities, seen, k);
      assert Values(out[k], quantities) !in seen;
      i := i' + 1;
      FirstValuesInTail(rows, quantities, i');
    } else if k > 0 {
      var rest := FirstOfEachValues(rows[1..], quantities, seen + {v});
      assert out[k] == rest[k - 1];
      var i' := FirstOfEachValuesKeepsFirst(rows[1..], quantities, seen + {v}, k - 1);
      assert Values(rest[k - 1], quantities) !in seen + {v};
      i := i' + 1;
      FirstValuesInTail(rows, quantities, i');
    } else {
      i := 0;
    }
  }

  /** A row first of its value vector in the tail, whose values differ from
      the head's, is first of its value vector in the whole sequence. */
  lemma FirstValuesInTail(rows: seq<TidyRow>, quantities: set<string>, i: int)
    requires 0 <= i < |rows| - 1
    requires forall j :: 0 <= j < i ==> Values(rows[1..][j], quantities) != Values(rows[1..][i], quantities)
    requires Values(rows[0], quantities) != Values(rows[i + 1], quantities)
    ensures forall j :: 0 <= j < i + 1 ==> Values(rows[j], quantities) != Values(rows[i + 1], quantities)
  {
    forall j | 0 <= j < i + 1 ensures Values(rows[j], quantities) != Values(rows[i + 1], quantities) {
      if j > 0 { assert rows[j] == rows[1..][j - 1]; }
    }
  }

  /** Every value vector of the input, unless already seen, keeps a row. */
  lemma {:induction false} FirstOfEachValuesKeepsEveryVector(rows: seq<TidyRow>, quantities: set<string>,
                                                             seen: set<map<string, Value>>, x: TidyRow)
    requires x in rows && Values(x, quantities) !in seen
    ensures exists y :: y in FirstOfEachValues(rows, quantities, seen) && Values(y, quantities) == Values(x, quantities)
  {
    var out := FirstOfEachValues(rows, quantities, seen);
    var v := Values(rows[0], quantities);
    if v in seen {
      assert x in rows[1..];
      FirstOfEachValuesKeepsEveryVector(rows[1..], quantities, seen, x);
    } else if Values(x, quantities) == v {
      assert out[0] == rows[0];
    } else {
      assert x in rows[1..];
      FirstOfEachValuesKeepsEveryVector(rows[1..], quantities, seen + {v}, x);
      var y :| y in FirstOfEachValues(rows[1..], quantities, seen + {v}) && Values(y, quantities) == Values(x, quantities);
      assert y in out;
    }
  }

  /** `drop_duplicates()` as written after the concatenation. */
  function DropDuplicatesAsWritten(f: TidyFrame): TidyFrame
  {
    f.(rows := FirstOfEachValues(f.rows, f.quantities, {}))
  }

  /** Two hours of one model with the same values: drop_duplicates keeps only
      the first, so the second hour vanishes from the result although no
      chunk overlap produced it; de-duplicating by (time, model) keeps
      both. */
  lemma DropDuplicatesLosesDistinctHours()
    ensures var f := TidyFrame(["time", "model"], Utc, {"rain"},
                               [TidyRow(0, "era5", map["rain" := Real(0.0)]), TidyRow(3600, "era5", map["rain" := Real(0.0)])]);
            && |DropDuplicatesAsWritten(f).rows| == 1
            && (forall x :: x in DropDuplicatesAsWritten(f).rows ==> Key(x) != (3600, "era5"))
            && DropDuplicateKeys(f).rows == f.rows
  {
    var r0 := TidyRow(0, "era5", map["rain" := Real(0.0)]);
    var r1 := TidyRow(3600, "era5", map["rain" := Real(0.0)]);
    assert Values(r0, {"rain"}) == Values(r1, {"rain"});
    assert [r0, r1][1..] == [r1];
    assert FirstOfEachValues([r1], {"rain"}, {} + {Values(r0, {"rain"})}) == [];
    assert FirstOfEachValues([r0, r1], {"rain"}, {}) == [r0];
    assert [r1][1..] == [];
    assert FirstOfEachKey([r1], {} + {Key(r0)}) == [r1];
    assert FirstOfEachKey([r0, r1], {}) == [r0, r1];
  }

  /** `.loc[start_date:end_date]` on the time level: the rows whose time
      lies in the closed interval, in order. */
  function TrimToRange(f: TidyFrame, startDate: int, endDate: int): (g: TidyFrame)
    ensures g.indexNames == f.indexNames && g.zone == f.zone && g.quantities == f.quantities
    ensures forall x :: x in g.rows <==> x in f.rows && startDate <= x.time <= endDate
    ensures |g.rows| <= |f.rows|
  {
    f.(rows := Filter(f.rows, startDate, endDate))
  }

  function Filter(rows: seq<TidyRow>, startDate: int, endDate: int): (out: seq<TidyRow>)
    ensures forall x :: x in out <==> x in rows && startDate <= x.time <= endDate
    ensures |out| <= |rows|
  {
    if rows == [] then []
    else (if startDate <= rows[0].time <= endDate then [rows[0]] else []) + Filter(rows[1..], startDate, endDate)
  }

  /** Dropping rows keeps the (time, model) keys unique. */
  lemma {:induction false} FilterKeepsUniqueKeys(rows: seq<TidyRow>, startDate: int, endDate: int)
    requires UniqueKeys(rows)
    ensures UniqueKeys(Filter(rows, startDate, endDate))
  {
    if rows != [] {
      FilterKeepsUniqueKeys(rows[1..], startDate, endDate);
      var rest := Filter(rows[1..], startDate, endDate);
      var out := Filter(rows, startDate, endDate);
      if startDate <= rows[0].time <= endDate {
        assert out == [rows[0]] + rest;
        assert out[0] == rows[0] && out[1..] == rest;
        assert Keys(rest) <= Keys(rows[1..]);
        assert Key(out[0]) !in Keys(out[1..]);
      } else {
        assert out == rest;
      }
    }
  }

  /** What follows the loop: concatenation (which refuses an empty list),
      de-duplication, the trim, and the output check of the
      HistoricalWeatherDataFrame return annotation. */
  function Finish(frames: seq<TidyFrame>, startDate: int, endDate: int): Result<TidyFrame>
  {
    if frames == [] then Failure(NothingToConcatenate)
    else
      var out := Combine(frames, startDate, endDate);
      if HistoricalWeatherValid(out) then Success(out) else Failure(SchemaError)
  }

  /** The chain `concat(...).drop_duplicates().loc[start:end]`, with the
      de-duplication by key. */
  function Combine(frames: seq<TidyFrame>, startDate: int, endDate: int): TidyFrame
    requires frames != []
  {
    TrimToRange(DropDuplicateKeys(Concat(frames)), startDate, endDate)
  }

  /** get_open_meteo_data as a function of its inputs. */
  function OpenMeteoData(quantities: seq<string>, models: seq<string>, req: Request, fetch: ArchiveQuery -> Response,
                         startDate: int, endDate: int, chunkSize: int): Result<TidyFrame>
    requires chunkSize > 0
  {
    match FetchChunks(quantities, models, req, fetch, Chunks(startDate, endDate + SecondsPerDay, chunkSize))
    case Failure(e) => Failure(e)
    case Success(frames) => Finish(frames, startDate, endDate)
  }

  // ---------------------------------------------------------------------
  // What the pipeline guarantees

  /** A successful loop yields one frame per chunk, in chunk order. */
  lemma {:induction false} FetchChunksSuccess(quantities: seq<string>, models: seq<string>, req: Request,
                                              fetch: ArchiveQuery -> Response, cs: seq<Chunk>)
    requires FetchChunks(quantities, models, req, fetch, cs).Success?
    ensures var frames := FetchChunks(quantities, models, req, fetch, cs).value;
            && |frames| == |cs|
            && forall i :: 0 <= i < |cs| ==> FetchChunk(quantities, models, req, fetch, cs[i]) == Success(frames[i])
  {
    if cs != [] {
      FetchChunksStep(quantities, models, req, fetch, cs);
      var head := FetchChunk(quantities, models, req, fetch, cs[0]);
      var tail := FetchChunks(quantities, models, req, fetch, cs[1..]);
      FetchChunksSuccess(quantities, models, req, fetch, cs[1..]);
      var frames := [head.value] + tail.value;
      forall i | 0 < i < |cs| ensures FetchChunk(quantities, models, req, fetch, cs[i]) == Success(frames[i]) {
        assert cs[i] == cs[1..][i - 1];
        assert frames[i] == tail.value[i - 1];
      }
    }
  }

  /** One step of a successful loop: the first chunk and the rest both
      succeed, and the frames are the first chunk's frame followed by the
      rest's. A helper for `FetchChunksSuccess`, which keeps the unfolding of
      the loop out of the induction. */
  lemma FetchChunksStep(quantities: seq<string>, models: seq<string>, req: Request,
                        fetch: ArchiveQuery -> Response, cs: seq<Chunk>)
    requires cs != [] && FetchChunks(quantities, models, req, fetch, cs).Success?
    ensures FetchChunk(quantities, models, req, fetch, cs[0]).Success?
    ensures FetchChunks(quantities, models, req, fetch, cs[1..]).Success?
    ensures FetchChunks(quantities, models, req, fetch, cs).value
            == [FetchChunk(quantities, models, req, fetch, cs[0]).value] + FetchChunks(quantities, models, req, fetch, cs[1..]).value
  {
  }

  /** A failed loop reports the error of the first chunk that fails. */
  lemma {:induction false} FetchChunksFailure(quantities: seq<string>, models: seq<string>, req: Request,
                                              fetch: ArchiveQuery -> Response, cs: seq<Chunk>) returns (i: int)
    requires FetchChunks(quantities, models, req, fetch, cs).Failure?
    ensures 0 <= i < |cs|
    ensures FetchChunk(quantities, models, req, fetch, cs[i]) == Failure(FetchChunks(quantities, models, req, fetch, cs).error)
    ensures forall j :: 0 <= j < i ==> FetchChunk(quantities, models, req, fetch, cs[j]).Success?
  {
    var head := FetchChunk(quantities, models, req, fetch, cs[0]);
    if head.Failure? {
      i := 0;
    } else {
      var k := FetchChunksFailure(quantities, models, req, fetch, cs[1..]);
      i := k + 1;
      assert cs[i] == cs[1..][k];
      forall j | 0 < j < i ensures FetchChunk(quantities, models, req, fetch, cs[j]).Success? {
        assert cs[j] == cs[1..][j - 1];
      }
    }
  }

  /** Concatenating frames that each pass the output check gives one that
      passes it, and so do de-duplication and trimming, which only drop
      rows. */
  lemma FinishedFrameValid(frames: seq<TidyFrame>, startDate: int, endDate: int)
    requires frames != [] && forall i :: 0 <= i < |frames| ==> HistoricalWeatherValid(frames[i])
    ensures HistoricalWeatherValid(Combine(frames, startDate, endDate))
  {
    var c := Concat(frames);
    assert HistoricalWeatherValid(frames[0]);
    forall k, q | 0 <= k < |c.rows| && q in HistoricalColumnTypes
      ensures Conforms(Cell(c.rows[k], q), HistoricalColumnTypes[q])
    {
      assert c.rows[k] in AllRows(frames);
      var i :| 0 <= i < |frames| && c.rows[k] in frames[i].rows;
      var j :| 0 <= j < |frames[i].rows| && frames[i].rows[j] == c.rows[k];
    }
    var d := DropDuplicateKeys(c);
    forall k, q | 0 <= k < |d.rows| && q in HistoricalColumnTypes
      ensures Conforms(Cell(d.rows[k], q), HistoricalColumnTypes[q])
    {
      assert d.rows[k] in c.rows;
    }
    var t := TrimToRange(d, startDate, endDate);
    forall k, q | 0 <= k < |t.rows| && q in HistoricalColumnTypes
      ensures Conforms(Cell(t.rows[k], q), HistoricalColumnTypes[q])
    {
      assert t.rows[k] in d.rows;
    }
  }

  /** The frames the loop collects pass the output check. */
  lemma CollectedFramesValid(quantities: seq<string>, models: seq<string>, req: Request,
                             fetch: ArchiveQuery -> Response, cs: seq<Chunk>)
    requires FetchChunks(quantities, models, req, fetch, cs).Success?
    ensures var frames := FetchChunks(quantities, models, req, fetch, cs).value;
            forall i :: 0 <= i < |frames| ==> HistoricalWeatherValid(frames[i])
  {
    FetchChunksSuccess(quantities, models, req, fetch, cs);
  }

  /** get_open_meteo_data fails exactly when a chunk fails (with that
      chunk's error) or when the range yields no chunk at all (nothing to
      concatenate); the output check never fails. */
  lemma OpenMeteoDataOutcome(quantities: seq<string>, models: seq<string>, req: Request, fetch: ArchiveQuery -> Response,
                             startDate: int, endDate: int, chunkSize: int)
    requires chunkSize > 0
    ensures var fetched := FetchChunks(quantities, models, req, fetch, Chunks(startDate, endDate + SecondsPerDay, chunkSize));
            var r := OpenMeteoData(quantities, models, req, fetch, startDate, endDate, chunkSize);
            && (r.Failure? <==> fetched.Failure? || startDate >= endDate + SecondsPerDay)
            && (fetched.Failure? ==> r.error == fetched.error)
            && (fetched.Success? && startDate >= endDate + SecondsPerDay ==> r.error == NothingToConcatenate)
  {
    var cs := Chunks(startDate, endDate + SecondsPerDay, chunkSize);
    var fetched := FetchChunks(quantities, models, req, fetch, cs);
    ChunksTile(startDate, endDate + SecondsPerDay, chunkSize);
    if fetched.Success? {
      CollectedFramesValid(quantities, models, req, fetch, cs);
      if fetched.value != [] {
        FinishedFrameValid(fetched.value, startDate, endDate);
      }
    }
  }

  /** The combined frame holds only rows of the frames, and only times
      within [start, end]. */
  lemma CombineRowsFromFrames(frames: seq<TidyFrame>, startDate: int, endDate: int)
    requires frames != []
    ensures forall x :: x in Combine(frames, startDate, endDate).rows ==>
              startDate <= x.time <= endDate && exists i :: 0 <= i < |frames| && x in frames[i].rows
  {
    var c := Concat(frames);
    var d := DropDuplicateKeys(c);
    forall x | x in Combine(frames, startDate, endDate).rows
      ensures startDate <= x.time <= endDate && exists i :: 0 <= i < |frames| && x in frames[i].rows
    {
      assert x in d.rows;
      assert x in c.rows;
    }
  }

  /** The combined frame has one row per (time, model). */
  lemma CombineKeysUnique(frames: seq<TidyFrame>, startDate: int, endDate: int)
    requires frames != []
    ensures var rows := Combine(frames, startDate, endDate).rows;
            forall k1, k2 :: 0 <= k1 < k2 < |rows| ==> Key(rows[k1]) != Key(rows[k2])
  {
    var d := DropDuplicateKeys(Concat(frames));
    FilterKeepsUniqueKeys(d.rows, startDate, endDate);
    UniqueKeysPairwise(Combine(frames, startDate, endDate).rows);
  }

  /** Every (time, model) within [start, end] that some frame has keeps a
      row in the combined frame. */
  lemma CombineKeepsEveryKey(frames: seq<TidyFrame>, startDate: int, endDate: int, i: int, x: TidyRow)
    requires 0 <= i < |frames| && x in frames[i].rows && startDate <= x.time <= endDate
    ensures exists y :: y in Combine(frames, startDate, endDate).rows && Key(y) == Key(x)
  {
    var c := Concat(frames);
    var d := DropDuplicateKeys(c);
    assert x in c.rows;
    FirstOfEachKeyKeepsEveryKey(c.rows, {}, x);
    var y :| y in d.rows && Key(y) == Key(x);
    assert y in Combine(frames, startDate, endDate).rows;
  }

  /** get_open_meteo_data's result, when there is one, is what follows the
      loop applied to the frames of all chunks. */
  lemma OpenMeteoDataRows(quantities: seq<string>, models: seq<string>, req: Request,
                          fetch: ArchiveQuery -> Response, startDate: int, endDate: int, chunkSize: int)
    requires chunkSize > 0
    requires OpenMeteoData(quantities, models, req, fetch, startDate, endDate, chunkSize).Success?
    ensures var fetched := FetchChunks(quantities, models, req, fetch, Chunks(startDate, endDate + SecondsPerDay, chunkSize));
            && fetched.Success? && fetched.value != []
            && OpenMeteoData(quantities, models, req, fetch, startDate, endDate, chunkSize)
               == Success(Combine(fetched.value, startDate, endDate))
  {
  }

  /** The loop of get_open_meteo_data: one request per chunk from the
      start to one day past the end, the tidy frames collected in order,
      the first error returned. */
  method FetchAllChunks(quantities: seq<string>, models: seq<string>, req: Request, fetch: ArchiveQuery -> Response,
                        startDate: int, endTimestamp: int, chunkSize: int) returns (r: Result<seq<TidyFrame>>)
    requires chunkSize > 0
    ensures r == FetchChunks(quantities, models, req, fetch, Chunks(startDate, endTimestamp, chunkSize))
  {
    var chunkEnd := startDate;
    var chunkFrames: seq<TidyFrame> := [];
    ghost var all := FetchChunks(quantities, models, req, fetch, Chunks(startDate, endTimestamp, chunkSize));
    if all.Success? {
      assert [] + all.value == all.value;
    }
    while chunkEnd < endTimestamp
      invariant all == Prepend(chunkFrames, FetchChunks(quantities, models, req, fetch, Chunks(chunkEnd, endTimestamp, chunkSize)))
      decreases endTimestamp - chunkEnd
    {
      var chunkStart := chunkEnd;
      chunkEnd := Min(chunkStart + chunkSize, endTimestamp);
      LoopStep(quantities, models, req, fetch, chunkFrames, chunkStart, endTimestamp, chunkSize);
      var query := CreateArchiveQuery(chunkStart, chunkEnd, req.latitude, req.longitude, req.models, req.fields);
      var response := fetch(query);
      var original := ResponseToFrame(response, None);
      if original.Failure? {
        assert FetchChunk(quantities, models, req, fetch, Chunk(chunkStart, chunkEnd)) == Failure(original.error);
        return Failure(original.error);
      }
      var tidy := TidyOpenMeteo(quantities, models, original.value);
      assert tidy == FetchChunk(quantities, models, req, fetch, Chunk(chunkStart, chunkEnd));
      if tidy.Failure? {
        return Failure(tidy.error);
      }
      chunkFrames := chunkFrames + [tidy.value];
    }
    LoopDone(quantities, models, req, fetch, chunkFrames, chunkEnd, endTimestamp, chunkSize);
    return Success(chunkFrames);
  }

  /** get_open_meteo_data: the loop over the chunks of [start, end + 1 day),
      then concatenation, de-duplication, the trim to [start, end] and the
      output check. */
  method GetOpenMeteoData(quantities: seq<string>, models: seq<string>, req: Request, fetch: ArchiveQuery -> Response,
                          startDate: int, endDate: int, chunkSize: int) returns (r: Result<TidyFrame>)
    requires chunkSize > 0
    ensures r == OpenMeteoData(quantities, models, req, fetch, startDate, endDate, chunkSize)
  {
    var chunkFrames := FetchAllChunks(quantities, models, req, fetch, startDate, endDate + SecondsPerDay, chunkSize);
    if chunkFrames.Failure? {
      return Failure(chunkFrames.error);
    }
    if chunkFrames.value == [] {
      return Failure(NothingToConcatenate);
    }
    var combined := Concat(chunkFrames.value);
    var deduplicated := DropDuplicateKeys(combined);
    var trimmed := TrimToRange(deduplicated, startDate, endDate);
    assert trimmed == Combine(chunkFrames.value, startDate, endDate);
    if !HistoricalWeatherValid(trimmed) {
      return Failure(SchemaError);
    }
    return Success(trimmed);
  }
}
