/** Column names of the wide Open-Meteo frame are `<quantity>_<model>` over
    two vocabularies (the members of HourlyEnum and of HistoryModelsEnum),
    recognised with an anchored regex `^(q1|q2|...)_(m1|m2|...)$`. This
    module models that regex: which names it accepts and which pair
    `str.extract` returns for them. */
module Vocabulary {
  import opened Common

  /** The sample vocabularies the package requests by default. */
  const DefaultModels: seq<string> := ["best_match", "era5", "era5_land", "cerra"]

  const DefaultFields: seq<string> := [
    "temperature_2m",
    "relativehumidity_2m",
    "dewpoint_2m",
    "apparent_temperature",
    "precipitation",
    "rain",
    "snowfall",
    "weathercode",
    "pressure_msl",
    "surface_pressure",
    "cloudcover",
    "cloudcover_low",
    "cloudcover_mid",
    "cloudcover_high",
    "et0_fao_evapotranspiration",
    "vapor_pressure_deficit",
    "windspeed_10m",
    "windspeed_100m",
    "winddirection_10m",
    "winddirection_100m",
    "windgusts_10m",
    "soil_temperature_0_to_7cm",
    "soil_temperature_7_to_28cm",
    "soil_temperature_28_to_100cm",
    "soil_temperature_100_to_255cm",
    "soil_moisture_0_to_7cm",
    "soil_moisture_7_to_28cm",
    "soil_moisture_28_to_100cm",
    "soil_moisture_100_to_255cm",
    "is_day",
    "shortwave_radiation",
    "direct_radiation",
    "diffuse_radiation",
    "direct_normal_irradiance"
  ]

  /** The alternatives of a group built by `"|".join(names)`: joining no
      names gives the empty group `()`, which matches the empty string. */
  function Alternatives(names: seq<string>): (alts: seq<string>)
    ensures alts != []
    ensures names != [] ==> alts == names
  {
    if names == [] then [""] else names
  }

  /** The name is `q + "_" + m` for some alternative q and m. */
  predicate Matches(c: string, qs: seq<string>, ms: seq<string>)
  {
    exists q, m :: q in qs && m in ms && c == q + "_" + m
  }

  /** Whether `name` is accepted by `^(qs)_(ms)$`: the group alternatives are
      the names themselves (enum names carry no regex metacharacters). */
  predicate PatternMatches(c: string, quantities: seq<string>, models: seq<string>)
  {
    Matches(c, Alternatives(quantities), Alternatives(models))
  }

  /** `str.extract` of `^(qs)_(ms)$`: the regex engine tries the quantity
      alternatives in order and keeps the first one after which `_` and
      some model alternative end the name. */
  function ExtractFirst(c: string, qs: seq<string>, ms: seq<string>): (r: Option<(string, string)>)
    ensures r.Some? ==> r.value.0 in qs && r.value.1 in ms && c == r.value.0 + "_" + r.value.1
    ensures r.None? <==> !Matches(c, qs, ms)
  {
    if qs == [] then None
    else
      var q := qs[0];
      if |c| > |q| && c[..|q|] == q && c[|q|] == '_' && c[|q| + 1..] in ms then
        assert c == q + "_" + c[|q| + 1..];
        Some((q, c[|q| + 1..]))
      else
        var rest := ExtractFirst(c, qs[1..], ms);
        rest
  }

  /** The pair extracted from an accepted column name, quantity first. */
  function Split(c: string, quantities: seq<string>, models: seq<string>): (p: (string, string))
    requires PatternMatches(c, quantities, models)
    ensures p.0 in Alternatives(quantities) && p.1 in Alternatives(models)
    ensures c == p.0 + "_" + p.1
  {
    ExtractFirst(c, Alternatives(quantities), Alternatives(models)).value
  }

  /** No two different pairs of the vocabularies spell the same name. */
  predicate Unambiguous(qs: seq<string>, ms: seq<string>)
  {
    forall q1, m1, q2, m2 :: q1 in qs && m1 in ms && q2 in qs && m2 in ms && q1 + "_" + m1 == q2 + "_" + m2 ==>
      q1 == q2 && m1 == m2
  }

  /** Under an unambiguous vocabulary the extracted pair is the only pair
      that spells the name: first-match and unique-split agree. */
  lemma ExtractIsTheUniqueSplit(c: string, qs: seq<string>, ms: seq<string>, q: string, m: string)
    requires Unambiguous(qs, ms)
    requires q in qs && m in ms && c == q + "_" + m
    ensures ExtractFirst(c, qs, ms) == Some((q, m))
  {
  }

  predicate EndsWith(s: string, suffix: string)
  {
    |suffix| <= |s| && s[|s| - |suffix|..] == suffix
  }

  /** No model name ends with `_` followed by another (or the same) model
      name. */
  predicate NoModelEndsWithAnother(ms: seq<string>)
  {
    forall m1, m2 :: m1 in ms && m2 in ms ==> !EndsWith(m1, "_" + m2)
  }

  lemma {:induction false} LongerQuantityForcesModelSuffix(q1: string, m1: string, q2: string, m2: string)
    requires q1 + "_" + m1 == q2 + "_" + m2
    requires |q1| < |q2|
    ensures EndsWith(m1, "_" + m2)
  {
    var s := q1 + "_" + m1;
    assert m1 == s[|q1| + 1..];
    assert s[|q2|..] == "_" + m2;
    assert |m1| - |m2| == |q2| - |q1|;
    assert m1[|m1| - |m2| - 1..] == s[|q2|..];
  }

  /** A sufficient condition on the model vocabulary alone: whatever the
      quantities, if no model ends with `_<model>` then no name has two
      splits. */
  lemma SuffixFreeModelsAreUnambiguous(qs: seq<string>, ms: seq<string>)
    requires NoModelEndsWithAnother(ms)
    ensures Unambiguous(qs, ms)
  {
    forall q1, m1, q2, m2 | q1 in qs && m1 in ms && q2 in qs && m2 in ms && q1 + "_" + m1 == q2 + "_" + m2
      ensures q1 == q2 && m1 == m2
    {
      var s := q1 + "_" + m1;
      if |q1| < |q2| {
        LongerQuantityForcesModelSuffix(q1, m1, q2, m2);
      } else if |q2| < |q1| {
        LongerQuantityForcesModelSuffix(q2, m2, q1, m1);
      } else {
        assert q1 == s[..|q1|] == q2;
        assert m1 == s[|q1| + 1..] == m2;
      }
    }
  }

  /** No default model ends with `_` and a default model. */
  lemma DefaultModelHasNoModelSuffix(m1: string, m2: string)
    requires m1 in DefaultModels && m2 in DefaultModels
    ensures !EndsWith(m1, "_" + m2)
  {
    if m1 == "best_match" {
      assert "best_match"[0] == 'b' && "best_match"[5] == 'm';
    } else if m1 == "era5_land" {
      assert "era5_land"[3] == '5' && "era5_land"[5] == 'l';
    } else if m1 == "cerra" {
      assert "cerra"[0] == 'c';
    }
  }

  /** The default models satisfy the condition, so every default column
      name has exactly one split. */
  lemma DefaultVocabularyUnambiguous()
    ensures NoModelEndsWithAnother(DefaultModels)
    ensures Unambiguous(DefaultFields, DefaultModels)
  {
    forall m1, m2 | m1 in DefaultModels && m2 in DefaultModels
      ensures !EndsWith(m1, "_" + m2)
    {
      DefaultModelHasNoModelSuffix(m1, m2);
    }
    SuffixFreeModelsAreUnambiguous(DefaultFields, DefaultModels);
  }

  // The regex as the source writes it ends in `$`, which in Python also
  // matches just before a final newline; `str.match` and `str.extract` then
  // accept a name carrying one trailing "\n" and drop it from the model.

  /** The first model alternative after which `$` succeeds on the rest. */
  function EndMatchAsWritten(rest: string, ms: seq<string>): Option<string>
  {
    if ms == [] then None
    else if rest == ms[0] || rest == ms[0] + "\n" then Some(ms[0])
    else EndMatchAsWritten(rest, ms[1..])
  }

  /** `str.extract` with `^(qs)_(ms)$` under Python's `$`. */
  function ExtractFirstAsWritten(c: string, qs: seq<string>, ms: seq<string>): Option<(string, string)>
  {
    if qs == [] then None
    else
      var q := qs[0];
      if |c| > |q| && c[..|q|] == q && c[|q|] == '_' && EndMatchAsWritten(c[|q| + 1..], ms).Some? then
        Some((q, EndMatchAsWritten(c[|q| + 1..], ms).value))
      else
        ExtractFirstAsWritten(c, qs[1..], ms)
  }

  predicate PatternMatchesAsWritten(c: string, quantities: seq<string>, models: seq<string>)
  {
    ExtractFirstAsWritten(c, Alternatives(quantities), Alternatives(models)).Some?
  }

  /** A name ending in a newline is no exact split when no model ends in
      one. */
  lemma NewlineNameIsNoSplit(c: string, qs: seq<string>, ms: seq<string>)
    requires |c| > 0 && c[|c| - 1] == '\n'
    requires forall m :: m in ms ==> |m| > 0 && m[|m| - 1] != '\n'
    ensures !Matches(c, qs, ms)
  {
  }

  /** A name with a trailing newline passes the check as written, and the
      pair extracted from it does not spell it back; the exact match
      rejects it. */
  lemma TrailingNewlineAcceptedAsWritten()
    ensures PatternMatchesAsWritten("temperature_2m_era5\n", DefaultFields, DefaultModels)
    ensures ExtractFirstAsWritten("temperature_2m_era5\n", DefaultFields, DefaultModels) == Some(("temperature_2m", "era5"))
    ensures "temperature_2m" + "_" + "era5" != "temperature_2m_era5\n"
    ensures !PatternMatches("temperature_2m_era5\n", DefaultFields, DefaultModels)
  {
    var c := "temperature_2m_era5\n";
    assert c[..14] == "temperature_2m" && c[14] == '_' && c[15..] == "era5" + "\n";
    assert EndMatchAsWritten(c[15..], DefaultModels) == Some("era5");
    assert Alternatives(DefaultFields) == DefaultFields && DefaultFields[0] == "temperature_2m";
    NewlineNameIsNoSplit(c, DefaultFields, DefaultModels);
  }

  lemma {:induction false} EndMatchWithoutNewline(rest: string, ms: seq<string>)
    requires rest == [] || rest[|rest| - 1] != '\n'
    ensures EndMatchAsWritten(rest, ms) == if rest in ms then Some(rest) else None
  {
    if ms != [] {
      assert rest != ms[0] + "\n";
      EndMatchWithoutNewline(rest, ms[1..]);
      assert rest in ms <==> rest == ms[0] || rest in ms[1..];
    }
  }

  /** On names without a trailing newline the regex as written and the
      exact match agree. */
  lemma {:induction false} AsWrittenAgreesWithoutNewline(c: string, qs: seq<string>, ms: seq<string>)
    requires c == [] || c[|c| - 1] != '\n'
    ensures ExtractFirstAsWritten(c, qs, ms) == ExtractFirst(c, qs, ms)
  {
    if qs != [] {
      var q := qs[0];
      if |c| > |q| && c[..|q|] == q && c[|q|] == '_' {
        EndMatchWithoutNewline(c[|q| + 1..], ms);
      }
      AsWrittenAgreesWithoutNewline(c, qs[1..], ms);
    }
  }
}
