/** frontend/src/utils/compareUtils.js: aligning per-model result lists on
    the first model's question ids, and per-model metric means. */
module CompareUtils {
  import opened Wrappers
  import opened Assoc
  import opened JsValues
  import opened Stats

  /** `{ model: rows | null }` as the comparison endpoint returns it; an
      object's keys are distinct. */
  type ModelRows = fs: seq<(string, Option<seq<Value>>)> | DistinctKeys(fs) witness []

  /** `resultsByModel[model] || []` */
  function RowsOf(byModel: ModelRows, model: string): seq<Value> {
    if HasRows(byModel, model) then Lookup(byModel, model).value.value else []
  }

  /** The model has a non-null row list (the `if (!data) continue` test). */
  predicate HasRows(byModel: ModelRows, model: string) {
    Lookup(byModel, model).Some? && Lookup(byModel, model).value.Some?
  }

  // ----------------------------------------------------------- alignment

  /** `null` or `undefined`: reading a property of it throws. */
  predicate Nullish(v: Value) {
    v.Null? || v.Undefined?
  }

  /** Every row can have its properties read. */
  predicate Readable(rows: seq<Value>) {
    forall i :: 0 <= i < |rows| ==> !Nullish(rows[i])
  }

  predicate AllReadable(byModel: ModelRows, models: seq<string>) {
    forall m :: m in models ==> Readable(RowsOf(byModel, m))
  }

  /** `rows.find(r => r.id === id)` when it does not throw. */
  function FindById(rows: seq<Value>, id: Value): (r: Option<Value>)
    ensures r.Some? ==> r.value in rows && Get(r.value, "id") == id
    ensures r.None? ==> forall x :: x in rows ==> Get(x, "id") != id
    decreases |rows|
  {
    if rows == [] then None
    else if Get(rows[0], "id") == id then Some(rows[0])
    else FindById(rows[1..], id)
  }

  /** The row found is the first row with the id. */
  lemma {:induction false} FindByIdFirst(rows: seq<Value>, id: Value, i: nat)
    requires i < |rows| && Get(rows[i], "id") == id
    requires forall j :: 0 <= j < i ==> Get(rows[j], "id") != id
    ensures FindById(rows, id) == Some(rows[i])
    decreases i
  {
    if i > 0 {
      assert Get(rows[0], "id") != id;
      assert forall j :: 0 <= j < i - 1 ==> rows[1..][j] == rows[j + 1];
      FindByIdFirst(rows[1..], id, i - 1);
    }
  }

  /** `rows.find(r => r.id === id)` throws: a `null` or `undefined` row is
      reached before any row with the id. */
  predicate FindThrows(rows: seq<Value>, id: Value)
    decreases |rows|
  {
    rows != [] && (Nullish(rows[0]) || (Get(rows[0], "id") != id && FindThrows(rows[1..], id)))
  }

  /** A `null` or `undefined` row with no row holding the id before it
      makes the scan throw. */
  lemma {:induction false} FindThrowsAt(rows: seq<Value>, id: Value, j: nat)
    requires j < |rows| && Nullish(rows[j])
    requires forall k :: 0 <= k < j ==> Get(rows[k], "id") != id
    ensures FindThrows(rows, id)
    decreases j
  {
    if j > 0 && !Nullish(rows[0]) {
      assert forall k :: 0 <= k < j - 1 ==> rows[1..][k] == rows[k + 1];
      FindThrowsAt(rows[1..], id, j - 1);
    }
  }

  /** When the scan throws, it is at such a row. */
  lemma {:induction false} FindThrowsWitness(rows: seq<Value>, id: Value)
    requires FindThrows(rows, id)
    ensures exists j :: 0 <= j < |rows| && Nullish(rows[j]) && (forall k :: 0 <= k < j ==> Get(rows[k], "id") != id)
    decreases |rows|
  {
    if !Nullish(rows[0]) {
      FindThrowsWitness(rows[1..], id);
      var j :| 0 <= j < |rows[1..]| && Nullish(rows[1..][j]) &&
        forall k :: 0 <= k < j ==> Get(rows[1..][k], "id") != id;
      assert Nullish(rows[j + 1]);
      assert forall k :: 1 <= k < j + 1 ==> rows[k] == rows[1..][k - 1];
    } else {
      assert Nullish(rows[0]);
    }
  }

  /** A list without `null` or `undefined` rows never throws. */
  lemma {:induction false} ReadableNeverThrows(rows: seq<Value>, id: Value)
    requires Readable(rows)
    ensures !FindThrows(rows, id)
    decreases |rows|
  {
    if rows != [] {
      assert !Nullish(rows[0]);
      assert Readable(rows[1..]) by {
        assert forall i :: 0 <= i < |rows[1..]| ==> rows[1..][i] == rows[i + 1];
      }
      ReadableNeverThrows(rows[1..], id);
    }
  }

  /** `match ? { answer: match.answer, ...match } : {}` */
  function ModelEntry(byModel: ModelRows, model: string, row: Value): Value {
    match FindById(RowsOf(byModel, model), Get(row, "id"))
    case Some(m) =>
      if Truthy(m) then Obj(SpreadInto([("answer", Get(m, "answer"))], Entries(m))) else Obj([])
    case None => Obj([])
  }

  /** The three shared fields copied from the first model's row. */
  function SeedFields(row: Value): seq<(string, Value)> {
    [("id", Get(row, "id")), ("question", Get(row, "question")),
     ("ground_truth", Get(row, "ground_truth"))]
  }

  /** `modelNames.forEach(model => { res[model] = ... })` */
  function AddModels(acc: seq<(string, Value)>, byModel: ModelRows, names: seq<string>, row: Value)
    : seq<(string, Value)>
    decreases |names|
  {
    if names == [] then acc
    else AddModels(Put(acc, names[0], ModelEntry(byModel, names[0], row)), byModel, names[1..], row)
  }

  /** The aligned record for one row of the first model. */
  function AlignedFields(byModel: ModelRows, row: Value): seq<(string, Value)> {
    AddModels(SeedFields(row), byModel, KeysOf(byModel), row)
  }

  /** `resultsByModel[modelNames[0]] || []`, or nothing for no models. */
  function BaseRows(byModel: ModelRows): seq<Value> {
    if byModel == [] then [] else RowsOf(byModel, byModel[0].0)
  }

  /** The `base.map` callback throws for `row`: at `row.id`, or inside one
      model's `find`. */
  predicate RowThrows(byModel: ModelRows, row: Value) {
    Nullish(row) || exists m :: m in KeysOf(byModel) && FindThrows(RowsOf(byModel, m), Get(row, "id"))
  }

  /** `alignCompareResults` throws on some row of the first model. */
  predicate AlignThrows(byModel: ModelRows) {
    exists i :: 0 <= i < |BaseRows(byModel)| && RowThrows(byModel, BaseRows(byModel)[i])
  }

  /** None of the first `i` rows makes the callback throw. */
  predicate NoRowThrows(byModel: ModelRows, rows: seq<Value>, i: nat)
    requires i <= |rows|
    decreases i
  {
    i == 0 || (NoRowThrows(byModel, rows, i - 1) && !RowThrows(byModel, rows[i - 1]))
  }

  lemma {:induction false} NoRowThrowsAt(byModel: ModelRows, rows: seq<Value>, i: nat, j: nat)
    requires j < i <= |rows| && NoRowThrows(byModel, rows, i)
    ensures !RowThrows(byModel, rows[j])
    decreases i
  {
    if j < i - 1 {
      NoRowThrowsAt(byModel, rows, i - 1, j);
    }
  }

  lemma RowThrowsAlignThrows(byModel: ModelRows, i: nat)
    requires i < |BaseRows(byModel)| && RowThrows(byModel, BaseRows(byModel)[i])
    ensures AlignThrows(byModel)
  {
  }

  lemma NoRowThrowsAll(byModel: ModelRows)
    requires NoRowThrows(byModel, BaseRows(byModel), |BaseRows(byModel)|)
    ensures !AlignThrows(byModel)
  {
    forall j | 0 <= j < |BaseRows(byModel)|
      ensures !RowThrows(byModel, BaseRows(byModel)[j])
    {
      NoRowThrowsAt(byModel, BaseRows(byModel), |BaseRows(byModel)|, j);
    }
  }

  /** The `base.map` callback: seed the record, then assign every model;
      `None` where the callback throws. */
  method AlignRow(byModel: ModelRows, names: seq<string>, row: Value) returns (res: Option<seq<(string, Value)>>)
    requires names == KeysOf(byModel)
    ensures res.None? <==> RowThrows(byModel, row)
    ensures res.Some? ==> res.value == AlignedFields(byModel, row)
  {
    if Nullish(row) {
      return None;
    }
    var acc := SeedFields(row);
    var k := 0;
    while k < |names|
      invariant 0 <= k <= |names|
      invariant AddModels(acc, byModel, names[k..], row) == AlignedFields(byModel, row)
      invariant forall j :: 0 <= j < k ==> !FindThrows(RowsOf(byModel, names[j]), Get(row, "id"))
    {
      if FindThrows(RowsOf(byModel, names[k]), Get(row, "id")) {
        return None;
      }
      assert names[k..][1..] == names[k + 1..];
      acc := Put(acc, names[k], ModelEntry(byModel, names[k], row));
      k := k + 1;
    }
    forall m | m in names
      ensures !FindThrows(RowsOf(byModel, m), Get(row, "id"))
    {
      var j :| 0 <= j < |names| && names[j] == m;
    }
    return Some(acc);
  }

  /** `alignCompareResults(resultsByModel)`; `None` where it throws. */
  method AlignCompareResults(byModel: ModelRows) returns (aligned: Option<seq<Value>>)
    ensures byModel == [] ==> aligned == Some([])
    ensures aligned.None? <==> AlignThrows(byModel)
    ensures aligned.Some? ==> |aligned.value| == |BaseRows(byModel)|
    ensures aligned.Some? ==> forall i :: 0 <= i < |aligned.value| ==>
      aligned.value[i] == Obj(AlignedFields(byModel, BaseRows(byModel)[i]))
  {
    var names := KeysOf(byModel);
    if |names| == 0 {
      return Some([]);
    }
    var base := RowsOf(byModel, names[0]);
    KeysOfAt(byModel, 0);
    assert base == BaseRows(byModel);
    var acc := [];
    for i := 0 to |base|
      invariant acc == AlignedAll(byModel, base[..i])
      invariant NoRowThrows(byModel, base, i)
    {
      var res := AlignRow(byModel, names, base[i]);
      if res.None? {
        RowThrowsAlignThrows(byModel, i);
        return None;
      }
      assert base[..i + 1][..i] == base[..i];
      acc := acc + [Obj(res.value)];
    }
    assert base[..|base|] == base;
    NoRowThrowsAll(byModel);
    forall i | 0 <= i < |acc|
      ensures acc[i] == Obj(AlignedFields(byModel, base[i]))
    {
      AlignedAllAt(byModel, base, i);
    }
    return Some(acc);
  }

  /** `base.map(...)` over the rows `rows`. */
  function AlignedAll(byModel: ModelRows, rows: seq<Value>): (out: seq<Value>)
    ensures |out| == |rows|
    decreases |rows|
  {
    if rows == [] then []
    else AlignedAll(byModel, rows[..|rows| - 1]) + [Obj(AlignedFields(byModel, rows[|rows| - 1]))]
  }

  lemma {:induction false} AlignedAllAt(byModel: ModelRows, rows: seq<Value>, i: nat)
    requires i < |rows|
    ensures AlignedAll(byModel, rows)[i] == Obj(AlignedFields(byModel, rows[i]))
    decreases |rows|
  {
    var n := |rows| - 1;
    if i < n {
      AlignedAllAt(byModel, rows[..n], i);
    }
  }

  /** How the per-model assignments read back. */
  lemma {:induction false} AddModelsLookup(acc: seq<(string, Value)>, byModel: ModelRows,
                                           names: seq<string>, row: Value, k: string)
    ensures Lookup(AddModels(acc, byModel, names, row), k) ==
      if k in names then Some(ModelEntry(byModel, k, row)) else Lookup(acc, k)
    decreases |names|
  {
    if names != [] {
      AddModelsLookup(Put(acc, names[0], ModelEntry(byModel, names[0], row)), byModel, names[1..], row, k);
      PutLookup(acc, names[0], ModelEntry(byModel, names[0], row), k);
      assert names == [names[0]] + names[1..];
    }
  }

  /** Each aligned record: one entry per model, the shared fields from the
      first model's row unless a model has that name, and no `contexts`. */
  lemma AlignedFieldsLookup(byModel: ModelRows, row: Value, k: string)
    ensures k in KeysOf(byModel) ==>
      Lookup(AlignedFields(byModel, row), k) == Some(ModelEntry(byModel, k, row))
    ensures k !in KeysOf(byModel) ==> Lookup(AlignedFields(byModel, row), k) == Lookup(SeedFields(row), k)
  {
    AddModelsLookup(SeedFields(row), byModel, KeysOf(byModel), row, k);
  }

  /** The seed holds exactly `id`, `question` and `ground_truth`. */
  lemma SeedFieldsLookup(row: Value)
    ensures Lookup(SeedFields(row), "id") == Some(Get(row, "id"))
    ensures Lookup(SeedFields(row), "question") == Some(Get(row, "question"))
    ensures Lookup(SeedFields(row), "ground_truth") == Some(Get(row, "ground_truth"))
    ensures Lookup(SeedFields(row), "contexts") == None
  {
    var s := SeedFields(row);
    var t := s[1..][1..];
    assert t == [("ground_truth", Get(row, "ground_truth"))] && t[1..] == [];
    assert Lookup(s, "ground_truth") == Lookup(t, "ground_truth");
    assert Lookup(s, "contexts") == Lookup(t, "contexts") == Lookup(t[1..], "contexts");
  }

  /** A model's entry is `{}` when no row of that model has the id, and
      otherwise reads exactly like the first matching row plus `answer`. */
  lemma ModelEntryContents(byModel: ModelRows, model: string, row: Value, k: string)
    ensures FindById(RowsOf(byModel, model), Get(row, "id")).None? ==> ModelEntry(byModel, model, row) == Obj([])
    ensures forall m :: (FindById(RowsOf(byModel, model), Get(row, "id")) == Some(m) &&
      Truthy(m) && DistinctKeys(Entries(m))) ==>
        Lookup(Entries(ModelEntry(byModel, model, row)), k) ==
          if k in KeysOf(Entries(m)) then Lookup(Entries(m), k)
          else if k == "answer" then Some(Undefined)
          else None
  {
    match FindById(RowsOf(byModel, model), Get(row, "id"))
    case Some(m) =>
      if Truthy(m) && DistinctKeys(Entries(m)) {
        SpreadIntoLookup([("answer", Get(m, "answer"))], Entries(m), k);
        if k == "answer" && k !in KeysOf(Entries(m)) {
          LookupAbsent(Entries(m), k);
          assert Get(m, "answer") == Undefined;
        }
      }
    case None =>
  }

  /** Ids only the later models have are dropped: with `x` holding ids 1
      and 2 and `y` holding ids 2 and 3, two records come out, and the one
      for id 1 has an empty entry for `y`. */
  lemma FirstModelDecidesRows()
    ensures var byModel: ModelRows := [
      ("x", Some([Obj([("id", Num(1.0))]), Obj([("id", Num(2.0))])])),
      ("y", Some([Obj([("id", Num(2.0))]), Obj([("id", Num(3.0))])]))];
      |BaseRows(byModel)| == 2 &&
      ModelEntry(byModel, "y", BaseRows(byModel)[0]) == Obj([])
  {
    var xs := [Obj([("id", Num(1.0))]), Obj([("id", Num(2.0))])];
    var ys := [Obj([("id", Num(2.0))]), Obj([("id", Num(3.0))])];
    TwoModels(xs, ys);
    var byModel: ModelRows := [("x", Some(xs)), ("y", Some(ys))];
    IdOf(1.0);
    IdOf(2.0);
    IdOf(3.0);
    assert FindById(ys, Num(1.0)) == None by {
      assert ys[1..][1..] == [];
    }
  }

  lemma TwoModels(xs: seq<Value>, ys: seq<Value>)
    ensures var fs := [("x", Some(xs)), ("y", Some(ys))];
      && DistinctKeys(fs)
      && Lookup(fs, "y") == Some(Some(ys))
      && Lookup(fs, "x") == Some(Some(xs))
  {
    var fs := [("x", Some(xs)), ("y", Some(ys))];
    assert fs[1..] == [("y", Some(ys))];
    assert fs[1..][1..] == [];
    assert KeysOf(fs[1..]) == ["y"];
  }

  lemma IdOf(v: real)
    ensures Get(Obj([("id", Num(v))]), "id") == Num(v)
  {
  }

  // ------------------------------------------------------------ averages

  /** A plain number, or an object's numeric `score` (0 included). */
  function ScoreOf(v: Value): (r: Option<real>)
    ensures r.Some? <==> v.Num? || (IsObject(v) && Get(v, "score").Num?)
    ensures v.Num? ==> r == Some(v.n)
    ensures !v.Num? && IsObject(v) && Get(v, "score").Num? ==> r == Some(Get(v, "score").n)
  {
    if v.Num? then Some(v.n)
    else if IsObject(v) && Get(v, "score").Num? then Some(Get(v, "score").n)
    else None
  }

  /** `data.map(row => typeof row[metric] === "number" ? ... : ...score)` */
  function ScoresOf(rows: seq<Value>, metric: string): (os: seq<Option<real>>)
    ensures |os| == |rows|
    decreases |rows|
  {
    if rows == [] then []
    else ScoresOf(rows[..|rows| - 1], metric) + [ScoreOf(Get(rows[|rows| - 1], metric))]
  }

  /** Each row is scored on its own. */
  lemma {:induction false} ScoresOfAt(rows: seq<Value>, metric: string, i: nat)
    requires i < |rows|
    ensures ScoresOf(rows, metric)[i] == ScoreOf(Get(rows[i], metric))
    decreases |rows|
  {
    if i < |rows| - 1 {
      ScoresOfAt(rows[..|rows| - 1], metric, i);
    }
  }

  /** The mean `getCompareMetricAverages` reports: 0 when nothing counts. */
  function ScoreMean(rows: seq<Value>, metric: string): real {
    Mean(Numbers(ScoresOf(rows, metric)))
  }

  /** Numeric strings do not count here, unlike in `resolveMetricValue`. */
  lemma NumericStringNotCounted()
    ensures ScoreOf(Str("0.9")) == None
    ensures ScoreOf(Obj([("score", Str("0.9"))])) == None
    ensures ScoreOf(Obj([("score", Num(0.0))])) == Some(0.0)
  {
    assert Get(Obj([("score", Str("0.9"))]), "score") == Str("0.9");
    assert Get(Obj([("score", Num(0.0))]), "score") == Num(0.0);
  }

  /** The inner `metricsToShow.forEach` for one model's rows; `None` where
      `row[metric]` throws on a `null` or `undefined` row. */
  method ScoreMeans(rows: seq<Value>, metrics: seq<string>) returns (inner: Option<map<string, real>>)
    ensures inner.None? <==> metrics != [] && !Readable(rows)
    ensures inner.Some? ==> inner.value.Keys == set x | x in metrics
    ensures inner.Some? ==> forall x :: x in inner.value ==> inner.value[x] == ScoreMean(rows, x)
  {
    var acc: map<string, real> := map[];
    var j := 0;
    while j < |metrics|
      invariant 0 <= j <= |metrics|
      invariant j > 0 ==> Readable(rows)
      invariant acc.Keys == set x | x in metrics[..j]
      invariant forall x :: x in acc ==> acc[x] == ScoreMean(rows, x)
    {
      if !Readable(rows) {
        return None;
      }
      var vals := Numbers(ScoresOf(rows, metrics[j]));
      acc := acc[metrics[j] := Mean(vals)];
      assert metrics[..j + 1] == metrics[..j] + [metrics[j]];
      j := j + 1;
    }
    assert metrics[..j] == metrics;
    return Some(acc);
  }

  /** `getCompareMetricAverages` throws: there are metrics to show and some
      model's non-null row list holds a `null` or `undefined` row. */
  predicate AveragesThrow(byModel: ModelRows, metrics: seq<string>) {
    metrics != [] && exists m :: m in KeysOf(byModel) && HasRows(byModel, m) && !Readable(RowsOf(byModel, m))
  }

  /** `getCompareMetricAverages(resultsByModel, metricsToShow)`; `None`
      where it throws. */
  method GetCompareMetricAverages(byModel: ModelRows, metrics: seq<string>)
    returns (averages: Option<map<string, map<string, real>>>)
    ensures averages.None? <==> AveragesThrow(byModel, metrics)
    ensures averages.Some? ==> forall m :: m in averages.value <==> HasRows(byModel, m)
    ensures averages.Some? ==> forall m :: m in averages.value ==> averages.value[m].Keys == set x | x in metrics
    ensures averages.Some? ==> forall m, x :: m in averages.value && x in averages.value[m] ==>
      averages.value[m][x] == ScoreMean(RowsOf(byModel, m), x)
  {
    var acc: map<string, map<string, real>> := map[];
    var i := 0;
    while i < |byModel|
      invariant 0 <= i <= |byModel|
      invariant forall m :: m in acc <==> m in KeysOf(byModel[..i]) && HasRows(byModel, m)
      invariant metrics != [] ==> forall m :: m in acc ==> Readable(RowsOf(byModel, m))
      invariant forall m :: m in acc ==> acc[m].Keys == set x | x in metrics
      invariant forall m, x :: m in acc && x in acc[m] ==>
        acc[m][x] == ScoreMean(RowsOf(byModel, m), x)
    {
      var (model, data) := byModel[i];
      LookupDistinct(byModel, i);
      assert byModel[..i + 1] == byModel[..i] + [byModel[i]];
      KeysOfAppend(byModel[..i], byModel[i]);
      if data.Some? {
        var inner := ScoreMeans(data.value, metrics);
        if inner.None? {
          KeysOfAt(byModel, i);
          assert model in KeysOf(byModel) && HasRows(byModel, model) && !Readable(RowsOf(byModel, model));
          return None;
        }
        acc := acc[model := inner.value];
      }
      i := i + 1;
    }
    assert byModel[..i] == byModel;
    forall m | HasRows(byModel, m)
      ensures m in KeysOf(byModel)
    {
      LookupAbsent(byModel, m);
    }
    return Some(acc);
  }

  // ------------------------------------------------------------- throws

  /** Results without `null` or `undefined` rows are aligned and averaged
      without throwing. */
  lemma ReadableResultsNeverThrow(byModel: ModelRows, metrics: seq<string>)
    requires AllReadable(byModel, KeysOf(byModel))
    ensures !AlignThrows(byModel)
    ensures !AveragesThrow(byModel, metrics)
  {
    if byModel != [] {
      KeysOfAt(byModel, 0);
      var base := BaseRows(byModel);
      assert Readable(base);
      forall i, m | 0 <= i < |base| && m in KeysOf(byModel)
        ensures !FindThrows(RowsOf(byModel, m), Get(base[i], "id"))
      {
        ReadableNeverThrows(RowsOf(byModel, m), Get(base[i], "id"));
      }
      forall i | 0 <= i < |base|
        ensures !RowThrows(byModel, base[i])
      {
        assert !Nullish(base[i]);
      }
    }
  }

  /** A `null` row in the results throws in both helpers. */
  lemma NullRowThrows()
    ensures var byModel: ModelRows := [("a", Some([Null]))];
      AlignThrows(byModel) && AveragesThrow(byModel, ["m"])
  {
    var byModel: ModelRows := [("a", Some([Null]))];
    assert KeysOf(byModel) == ["a"];
    assert Lookup(byModel, "a") == Some(Some([Null]));
    assert BaseRows(byModel) == [Null];
    assert RowThrows(byModel, BaseRows(byModel)[0]);
    assert HasRows(byModel, "a") && !Readable(RowsOf(byModel, "a"));
  }
}
