/** What tidy_open_meteo_dataframe guarantees about its result: every
    non-missing wide cell reappears in its (time, model) row under its
    quantity, nothing else appears, all-missing rows are dropped, the
    (time, model) keys are unique, and the output check never fails on an
    input that passed the input check. */
module TidyProperties {
  import opened Common
  import opened PaModels
  import opened Vocabulary
  import opened OpenMeteo

  lemma RowValuesAt(row: seq<Value>, ps: seq<(string, string)>, j: int)
    requires |row| == |ps| && Distinct(ps) && 0 <= j < |ps|
    ensures ps[j].0 in RowValues(row, ps, ps[j].1)
    ensures RowValues(row, ps, ps[j].1)[ps[j].0] == row[j]
  {
    assert ps[j] in ps;
    assert ps[j].0 in QuantitiesFor(ps, ps[j].1);
    var i := IndexOf(ps, ps[j]);
    assert i == j;
  }

  lemma RowValuesFrom(row: seq<Value>, ps: seq<(string, string)>, m: string, q: string)
    requires |row| == |ps| && q in RowValues(row, ps, m)
    ensures exists j :: 0 <= j < |ps| && ps[j] == (q, m) && RowValues(row, ps, m)[q] == row[j]
  {
    var j := IndexOf(ps, (q, m));
  }

  /** Each stacked row of one wide row is at its time, for one of the
      models, holds that model's cells and has at least one of them. */
  lemma {:induction false} StackRowRows(t: int, row: seq<Value>, ps: seq<(string, string)>, ms: seq<string>)
    requires |row| == |ps|
    ensures forall s :: s in StackRow(t, row, ps, ms) ==>
              s.time == t && s.model in ms && s.values == RowValues(row, ps, s.model) && AnyPresent(row, ps, s.model)
  {
    if ms != [] {
      StackRowRows(t, row, ps, ms[1..]);
      var rest := StackRow(t, row, ps, ms[1..]);
      if AnyPresent(row, ps, ms[0]) {
        assert StackRow(t, row, ps, ms) == [TidyRow(t, ms[0], RowValues(row, ps, ms[0]))] + rest;
      } else {
        assert StackRow(t, row, ps, ms) == rest;
      }
    }
  }

  /** Every model with a value in the wide row gets its stacked row. */
  lemma {:induction false} StackRowComplete(t: int, row: seq<Value>, ps: seq<(string, string)>, ms: seq<string>)
    requires |row| == |ps|
    ensures forall m :: m in ms && AnyPresent(row, ps, m) ==> TidyRow(t, m, RowValues(row, ps, m)) in StackRow(t, row, ps, ms)
  {
    if ms != [] {
      StackRowComplete(t, row, ps, ms[1..]);
      var rest := StackRow(t, row, ps, ms[1..]);
      if AnyPresent(row, ps, ms[0]) {
        assert StackRow(t, row, ps, ms) == [TidyRow(t, ms[0], RowValues(row, ps, ms[0]))] + rest;
      } else {
        assert StackRow(t, row, ps, ms) == rest;
      }
    }
  }

  /** With distinct models, the stacked rows of one wide row have distinct
      models. */
  lemma {:induction false} StackRowModelsDistinct(t: int, row: seq<Value>, ps: seq<(string, string)>, ms: seq<string>)
    requires |row| == |ps| && Distinct(ms)
    ensures forall k1, k2 :: 0 <= k1 < k2 < |StackRow(t, row, ps, ms)| ==>
              StackRow(t, row, ps, ms)[k1].model != StackRow(t, row, ps, ms)[k2].model
  {
    if ms != [] {
      StackRowModelsDistinct(t, row, ps, ms[1..]);
      StackRowRows(t, row, ps, ms[1..]);
      var rest := StackRow(t, row, ps, ms[1..]);
      var S := StackRow(t, row, ps, ms);
      if AnyPresent(row, ps, ms[0]) {
        assert S == [TidyRow(t, ms[0], RowValues(row, ps, ms[0]))] + rest;
        assert ms[0] !in ms[1..];
        forall k | 0 <= k < |rest| ensures rest[k].model != ms[0] {
          assert rest[k] in rest;
        }
        forall k1, k2 | 0 <= k1 < k2 < |S| ensures S[k1].model != S[k2].model {
          assert S[k2] == rest[k2 - 1];
          if k1 > 0 { assert S[k1] == rest[k1 - 1]; }
        }
      } else {
        assert S == rest;
      }
    }
  }

  /** `s` is the stacked row of some wide row `r` for one of the models. */
  predicate FromWideRow(index: seq<int>, cells: seq<seq<Value>>, ps: seq<(string, string)>, ms: seq<string>, s: TidyRow)
    requires |index| == |cells| && RowsMatch(cells, ps)
  {
    exists r :: 0 <= r < |index| && s.time == index[r] && s.model in ms
      && s.values == RowValues(cells[r], ps, s.model) && AnyPresent(cells[r], ps, s.model)
  }

  lemma {:induction false} StackShape(index: seq<int>, cells: seq<seq<Value>>, ps: seq<(string, string)>, ms: seq<string>)
    requires |index| == |cells| && RowsMatch(cells, ps)
    ensures forall s :: s in Stack(index, cells, ps, ms) ==> FromWideRow(index, cells, ps, ms, s)
    ensures forall r, m :: 0 <= r < |index| && m in ms && AnyPresent(cells[r], ps, m) ==>
              TidyRow(index[r], m, RowValues(cells[r], ps, m)) in Stack(index, cells, ps, ms)
  {
    if index != [] {
      StackRowRows(index[0], cells[0], ps, ms);
      StackRowComplete(index[0], cells[0], ps, ms);
      StackShape(index[1..], cells[1..], ps, ms);
      var head := StackRow(index[0], cells[0], ps, ms);
      var rest := Stack(index[1..], cells[1..], ps, ms);
      var S := Stack(index, cells, ps, ms);
      assert S == head + rest;
      forall s | s in S ensures FromWideRow(index, cells, ps, ms, s) {
        if s in head {
          assert s.time == index[0] && s.model in ms && s.values == RowValues(cells[0], ps, s.model)
                 && AnyPresent(cells[0], ps, s.model);
        } else {
          assert s in rest;
          assert FromWideRow(index[1..], cells[1..], ps, ms, s);
          var r :| 0 <= r < |index[1..]| && s.time == index[1..][r] && s.model in ms
                    && s.values == RowValues(cells[1..][r], ps, s.model) && AnyPresent(cells[1..][r], ps, s.model);
          assert index[1..][r] == index[r + 1] && cells[1..][r] == cells[r + 1];
          assert s.time == index[r + 1] && s.values == RowValues(cells[r + 1], ps, s.model)
                 && AnyPresent(cells[r + 1], ps, s.model);
        }
      }
      forall r, m | 0 <= r < |index| && m in ms && AnyPresent(cells[r], ps, m)
        ensures TidyRow(index[r], m, RowValues(cells[r], ps, m)) in S
      {
        if r == 0 {
          assert TidyRow(index[r], m, RowValues(cells[r], ps, m)) in head;
        } else {
          assert index[1..][r - 1] == index[r] && cells[1..][r - 1] == cells[r];
          assert TidyRow(index[r], m, RowValues(cells[r], ps, m)) in rest;
        }
      }
    }
  }

  lemma {:induction false} StackKeysUnique(index: seq<int>, cells: seq<seq<Value>>, ps: seq<(string, string)>, ms: seq<string>)
    requires |index| == |cells| && RowsMatch(cells, ps)
    requires Distinct(index) && Distinct(ms)
    ensures forall k1, k2 :: 0 <= k1 < k2 < |Stack(index, cells, ps, ms)| ==>
              (Stack(index, cells, ps, ms)[k1].time, Stack(index, cells, ps, ms)[k1].model)
              != (Stack(index, cells, ps, ms)[k2].time, Stack(index, cells, ps, ms)[k2].model)
  {
    if index != [] {
      StackRowRows(index[0], cells[0], ps, ms);
      StackRowModelsDistinct(index[0], cells[0], ps, ms);
      StackShape(index[1..], cells[1..], ps, ms);
      StackKeysUnique(index[1..], cells[1..], ps, ms);
      var head := StackRow(index[0], cells[0], ps, ms);
      var rest := Stack(index[1..], cells[1..], ps, ms);
      var S := Stack(index, cells, ps, ms);
      assert S == head + rest;
      forall k | 0 <= k < |rest| ensures rest[k].time != index[0] {
        assert rest[k] in rest;
        var r :| 0 <= r < |index[1..]| && rest[k].time == index[1..][r];
        assert index[1..][r] == index[r + 1];
      }
      forall k1, k2 | 0 <= k1 < k2 < |S| ensures (S[k1].time, S[k1].model) != (S[k2].time, S[k2].model) {
        if k2 < |head| {
          assert S[k1] == head[k1] && S[k2] == head[k2];
        } else if k1 < |head| {
          assert S[k1] == head[k1] && S[k2] == rest[k2 - |head|];
          assert head[k1] in head && S[k2] in rest;
        } else {
          assert S[k1] == rest[k1 - |head|] && S[k2] == rest[k2 - |head|];
        }
      }
    }
  }

  // ---------------------------------------------------------------------
  // The reshaped frame

  /** The models of the second level are distinct when the model
      vocabulary is. */
  lemma ModelLevelDistinct(models: seq<string>, ps: seq<(string, string)>)
    requires Distinct(models)
    ensures Distinct(ModelsOf(Alternatives(models), ps))
  {
  }

  /** Every non-missing wide cell, in row r under `<q>_<m>`, reappears as
      column q of the tidy row (time of r, m). */
  lemma {:induction false} ReshapeKeepsEveryCell(quantities: seq<string>, models: seq<string>, f: WideFrame, r: int, j: int)
    requires Rectangular(f) && Distinct(f.columns) && AllColumnsMatch(quantities, models, f.columns)
    requires 0 <= r < |f.index| && 0 <= j < |f.columns| && f.cells[r][j] != Missing
    ensures var (q, m) := Split(f.columns[j], quantities, models);
            exists k :: 0 <= k < |Reshape(quantities, models, f).rows|
              && Reshape(quantities, models, f).rows[k].time == f.index[r]
              && Reshape(quantities, models, f).rows[k].model == m
              && Cell(Reshape(quantities, models, f).rows[k], q) == f.cells[r][j]
  {
    var ps := Pairs(quantities, models, f.columns);
    var ms := ModelsOf(Alternatives(models), ps);
    var (q, m) := Split(f.columns[j], quantities, models);
    PairsDistinct(quantities, models, f.columns);
    assert ps[j] == (q, m);
    assert m in ms;
    assert AnyPresent(f.cells[r], ps, m);
    StackShape(f.index, f.cells, ps, ms);
    var row := TidyRow(f.index[r], m, RowValues(f.cells[r], ps, m));
    assert row in Stack(f.index, f.cells, ps, ms);
    RowValuesAt(f.cells[r], ps, j);
    assert Cell(row, q) == f.cells[r][j];
    var rows := Reshape(quantities, models, f).rows;
    var k :| 0 <= k < |rows| && rows[k] == row;
  }

  /** Each value of a stacked row is the cell of its `<quantity>_<model>`
      column. */
  lemma RowValuesProvenance(row: seq<Value>, ps: seq<(string, string)>, columns: seq<string>, m: string)
    requires |row| == |ps| == |columns|
    requires forall j :: 0 <= j < |ps| ==> columns[j] == ps[j].0 + "_" + ps[j].1
    ensures forall q :: q in RowValues(row, ps, m) ==>
              exists j :: 0 <= j < |columns| && columns[j] == q + "_" + m && RowValues(row, ps, m)[q] == row[j]
  {
    forall q | q in RowValues(row, ps, m)
      ensures exists j :: 0 <= j < |columns| && columns[j] == q + "_" + m && RowValues(row, ps, m)[q] == row[j]
    {
      RowValuesFrom(row, ps, m, q);
    }
  }

  /** The wide row a tidy row was stacked from. */
  lemma {:induction false} ReshapeRowOrigin(quantities: seq<string>, models: seq<string>, f: WideFrame, k: int) returns (r: int)
    requires Rectangular(f) && AllColumnsMatch(quantities, models, f.columns)
    requires 0 <= k < |Reshape(quantities, models, f).rows|
    ensures 0 <= r < |f.index|
    ensures var ps := Pairs(quantities, models, f.columns);
            var row := Reshape(quantities, models, f).rows[k];
            && row.time == f.index[r]
            && row.values == RowValues(f.cells[r], ps, row.model)
            && AnyPresent(f.cells[r], ps, row.model)
  {
    var ps := Pairs(quantities, models, f.columns);
    var ms := ModelsOf(Alternatives(models), ps);
    StackShape(f.index, f.cells, ps, ms);
    var row := Reshape(quantities, models, f).rows[k];
    assert row in Stack(f.index, f.cells, ps, ms);
    assert FromWideRow(f.index, f.cells, ps, ms, row);
    r :| 0 <= r < |f.index| && row.time == f.index[r] && row.model in ms
           && row.values == RowValues(f.cells[r], ps, row.model) && AnyPresent(f.cells[r], ps, row.model);
  }

  /** Every value of the tidy frame is the wide cell of its time under
      `<quantity>_<model>`: stacking invents nothing. */
  lemma ReshapeCellsComeFromInput(quantities: seq<string>, models: seq<string>, f: WideFrame, k: int)
    requires Rectangular(f) && AllColumnsMatch(quantities, models, f.columns)
    requires 0 <= k < |Reshape(quantities, models, f).rows|
    ensures var row := Reshape(quantities, models, f).rows[k];
            exists r :: 0 <= r < |f.index| && row.time == f.index[r]
              && forall q :: q in row.values ==>
                   exists j :: 0 <= j < |f.columns| && f.columns[j] == q + "_" + row.model && row.values[q] == f.cells[r][j]
  {
    var r := ReshapeRowOrigin(quantities, models, f, k);
    var row := Reshape(quantities, models, f).rows[k];
    RowValuesProvenance(f.cells[r], Pairs(quantities, models, f.columns), f.columns, row.model);
  }

  /** stack drops the (time, model) rows whose cells are all missing. */
  lemma ReshapeRowsNotAllMissing(quantities: seq<string>, models: seq<string>, f: WideFrame, k: int)
    requires Rectangular(f) && Distinct(f.columns) && AllColumnsMatch(quantities, models, f.columns)
    requires 0 <= k < |Reshape(quantities, models, f).rows|
    ensures exists q :: Cell(Reshape(quantities, models, f).rows[k], q) != Missing
  {
    var r := ReshapeRowOrigin(quantities, models, f, k);
    var row := Reshape(quantities, models, f).rows[k];
    var ps := Pairs(quantities, models, f.columns);
    var j :| 0 <= j < |ps| && ps[j].1 == row.model && f.cells[r][j] != Missing;
    PairsDistinct(quantities, models, f.columns);
    RowValuesAt(f.cells[r], ps, j);
    assert Cell(row, ps[j].0) != Missing;
  }

  /** The (time, model) pairs of the tidy frame are unique when the time
      index and the model vocabulary are. */
  lemma ReshapeKeysUnique(quantities: seq<string>, models: seq<string>, f: WideFrame)
    requires Rectangular(f) && AllColumnsMatch(quantities, models, f.columns)
    requires Distinct(f.index) && Distinct(models)
    ensures var rows := Reshape(quantities, models, f).rows;
            forall k1, k2 :: 0 <= k1 < k2 < |rows| ==> (rows[k1].time, rows[k1].model) != (rows[k2].time, rows[k2].model)
  {
    var ps := Pairs(quantities, models, f.columns);
    ModelLevelDistinct(models, ps);
    StackKeysUnique(f.index, f.cells, ps, ModelsOf(Alternatives(models), ps));
  }

  // ---------------------------------------------------------------------
  // The two checks around the reshaping

  /** A name that splits into a declared column of the output is allowed by
      exactly the input rule of that column's dtype. */
  lemma DeclaredColumnConforms(quantities: seq<string>, models: seq<string>, f: WideFrame, j: int)
    requires Rectangular(f) && OpenMeteoInputValid(quantities, models, f) && AllColumnsMatch(quantities, models, f.columns)
    requires 0 <= j < |f.columns| && Split(f.columns[j], quantities, models).0 in HistoricalColumnTypes
    ensures ColumnConforms(f, j, HistoricalColumnTypes[Split(f.columns[j], quantities, models).0])
  {
    var (q, m) := Split(f.columns[j], quantities, models);
    var c := f.columns[j];
    assert ColumnValid(quantities, models, f, j);
    HistoricalColumnDTypes();
    if q == "is_day" {
      assert IsDayRule(c, models);
    } else if q == "weathercode" {
      assert WeathercodeRule(c, models);
    } else {
      assert q != "" by { NoEmptyColumnName(); }
      assert q in quantities;
      assert q in FloatQuantities(quantities);
      assert FloatRule(c, quantities, models);
    }
  }

  lemma NoEmptyColumnName()
    ensures "" !in HistoricalColumnTypes
  {
  }

  /** A frame that passed the input check and whose names all split always
      passes the output check: the input rules' dtypes are the output
      columns' dtypes. */
  lemma {:induction false} TidyNeverFailsOutputCheck(quantities: seq<string>, models: seq<string>, f: WideFrame)
    requires Rectangular(f) && Distinct(f.columns) && OpenMeteoInputValid(quantities, models, f)
    requires NonMatchingColumns(quantities, models, f.columns) == []
    ensures TidyOpenMeteo(quantities, models, f).Success?
  {
    var out := Reshape(quantities, models, f);
    var ps := Pairs(quantities, models, f.columns);
    forall k, q | 0 <= k < |out.rows| && q in HistoricalColumnTypes
      ensures Conforms(Cell(out.rows[k], q), HistoricalColumnTypes[q])
    {
      var r := ReshapeRowOrigin(quantities, models, f, k);
      var row := out.rows[k];
      if q in row.values {
        RowValuesFrom(f.cells[r], ps, row.model, q);
        var j :| 0 <= j < |ps| && ps[j] == (q, row.model) && row.values[q] == f.cells[r][j];
        DeclaredColumnConforms(quantities, models, f, j);
      }
    }
    assert HistoricalWeatherValid(out);
  }

  /** With is_day, weathercode and at least one float quantity in the
      vocabulary, every name the input check allows splits, so the call
      never reports unexpected columns. */
  lemma NoUnexpectedColumnsAfterInputCheck(quantities: seq<string>, models: seq<string>, f: WideFrame)
    requires "is_day" in quantities && "weathercode" in quantities && FloatQuantities(quantities) != []
    requires Rectangular(f) && OpenMeteoInputValid(quantities, models, f)
    ensures NonMatchingColumns(quantities, models, f.columns) == []
  {
    forall j | 0 <= j < |f.columns| ensures PatternMatches(f.columns[j], quantities, models) {
      var c := f.columns[j];
      assert ColumnValid(quantities, models, f, j);
      var q, m :| (q == "is_day" || q == "weathercode" || q in FloatQuantities(quantities))
                  && m in Alternatives(models) && c == q + "_" + m;
      assert q in quantities;
    }
  }
}
