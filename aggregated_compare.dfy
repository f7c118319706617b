/** frontend/src/pages/AggregatedCompareTable.jsx: the per-model,
    per-metric averages behind the aggregated comparison table, whose
    "no data" value is `null` (shown as `-`) rather than 0. */
module AggregatedCompare {
  import opened Wrappers
  import opened JsValues
  import opened Stats
  import opened CompareUtils
  import opened MetricUtils
  import opened InsightSelection
  import opened PerQuestion

  /** What the component produces: nothing (`return null`), a render that
      throws a `TypeError`, or the table of averages by model and metric. */
  datatype Rendered =
    | Hidden
    | Fails
    | Shown(averages: map<string, map<string, Option<real>>>)

  /** `vals.length ? sum / vals.length : null` */
  function NullableMean(vals: seq<real>): (r: Option<real>)
    ensures r.None? <==> vals == []
    ensures r.Some? ==> r.value * |vals| as real == Sum(vals)
  {
    if vals == [] then None else Some(Mean(vals))
  }

  /** One model's average for one metric: the counted values are those
      `getCompareMetricAverages` counts (a number, or an object's numeric
      `score`). */
  function MetricAverage(rows: seq<Value>, metric: string): Option<real> {
    NullableMean(Numbers(ScoresOf(rows, metric)))
  }

  /** `averagesByModel[model]` once every category has been visited. */
  function Averages(rows: seq<Value>, metrics: seq<string>): map<string, Option<real>> {
    map x | x in metrics :: MetricAverage(rows, x)
  }

  /** The whole computation, guard and failures included. Reading a metric
      of a `null` or `undefined` row throws, and so does iterating a
      missing `metricCategories`. */
  function Aggregated(compareResults: Option<ModelRows>, selectedModels: seq<string>,
                      metricCategories: Option<seq<Category>>): Rendered {
    if compareResults.None? || |selectedModels| < 2 then Hidden
    else if metricCategories.None? then Fails
    else if AllMetrics(metricCategories.value) != [] && !AllReadable(compareResults.value, selectedModels) then Fails
    else Shown(map m | m in selectedModels ::
                 Averages(RowsOf(compareResults.value, m), AllMetrics(metricCategories.value)))
  }

  // ------------------------------------------------------------ the loops

  /** `category.metrics.forEach(metric => ...)` over readable rows: each
      metric of the category gets its average, earlier entries stay. */
  method PutAverages(rows: seq<Value>, metrics: seq<string>, acc: map<string, Option<real>>)
    returns (acc': map<string, Option<real>>)
    ensures acc'.Keys == acc.Keys + set x | x in metrics
    ensures forall x :: x in acc' ==>
      acc'[x] == if x in metrics then MetricAverage(rows, x) else acc[x]
  {
    acc' := acc;
    for l := 0 to |metrics|
      invariant acc'.Keys == acc.Keys + set x | x in metrics[..l]
      invariant forall x :: x in acc' ==>
        acc'[x] == if x in metrics[..l] then MetricAverage(rows, x) else acc[x]
    {
      acc' := acc'[metrics[l] := MetricAverage(rows, metrics[l])];
      assert metrics[..l + 1] == metrics[..l] + [metrics[l]];
    }
    assert metrics[..|metrics|] == metrics;
  }

  /** `metricCategories.forEach(category => category.metrics.forEach(...))`
      for one model; `None` when a row read throws, which happens at the
      first metric read from a `null` or `undefined` row. */
  method ModelAverages(rows: seq<Value>, cats: seq<Category>) returns (inner: Option<map<string, Option<real>>>)
    ensures inner.None? <==> AllMetrics(cats) != [] && !Readable(rows)
    ensures inner.Some? ==> inner.value == Averages(rows, AllMetrics(cats))
  {
    var acc: map<string, Option<real>> := map[];
    for j := 0 to |cats|
      invariant acc.Keys == set x | x in AllMetrics(cats[..j])
      invariant forall x :: x in acc ==> acc[x] == MetricAverage(rows, x)
      invariant AllMetrics(cats[..j]) != [] ==> Readable(rows)
    {
      AllMetricsStep(cats, j);
      if cats[j].metrics != [] && !Readable(rows) {
        AllMetricsHas(cats, j);
        return None;
      }
      acc := PutAverages(rows, cats[j].metrics, acc);
      MembersAppend(AllMetrics(cats[..j]), cats[j].metrics);
    }
    assert cats[..|cats|] == cats;
    return Some(acc);
  }

  lemma AllMetricsStep(cats: seq<Category>, j: nat)
    requires j < |cats|
    ensures AllMetrics(cats[..j + 1]) == AllMetrics(cats[..j]) + cats[j].metrics
  {
    AllMetricsAppend(cats[..j], [cats[j]]);
    assert cats[..j + 1] == cats[..j] + [cats[j]];
    assert AllMetrics([cats[j]]) == cats[j].metrics + AllMetrics([]);
  }

  lemma AllMetricsHas(cats: seq<Category>, j: nat)
    requires j < |cats| && cats[j].metrics != []
    ensures AllMetrics(cats) != []
  {
    var tail := cats[j..];
    AllMetricsAppend(cats[..j], tail);
    assert cats == cats[..j] + tail;
    assert AllMetrics(tail) == cats[j].metrics + AllMetrics(tail[1..]);
    assert |AllMetrics(cats)| >= |cats[j].metrics|;
  }

  lemma MembersAppend(a: seq<string>, b: seq<string>)
    ensures (set x | x in a + b) == (set x | x in a) + (set x | x in b)
  {
  }

  /** The component body up to the table: the guard, then
      `selectedModels.forEach(...)` filling `averagesByModel`. */
  method AveragesByModel(compareResults: Option<ModelRows>, selectedModels: seq<string>,
                         metricCategories: Option<seq<Category>>) returns (out: Rendered)
    ensures out == Aggregated(compareResults, selectedModels, metricCategories)
  {
    if compareResults.None? || |selectedModels| < 2 {
      return Hidden;
    }
    if metricCategories.None? {
      return Fails;
    }
    var byModel := compareResults.value;
    var cats := metricCategories.value;
    ghost var metrics := AllMetrics(cats);
    var averages: map<string, map<string, Option<real>>> := map[];
    for i := 0 to |selectedModels|
      invariant averages.Keys == set m | m in selectedModels[..i]
      invariant forall m :: m in averages ==> averages[m] == Averages(RowsOf(byModel, m), metrics)
      invariant metrics != [] ==> forall k :: 0 <= k < i ==> Readable(RowsOf(byModel, selectedModels[k]))
    {
      var inner := ModelAverages(RowsOf(byModel, selectedModels[i]), cats);
      if inner.None? {
        return Fails;
      }
      averages := averages[selectedModels[i] := inner.value];
      assert selectedModels[..i + 1] == selectedModels[..i] + [selectedModels[i]];
    }
    assert selectedModels[..|selectedModels|] == selectedModels;
    assert metrics != [] ==> AllReadable(byModel, selectedModels) by {
      if metrics != [] {
        forall m | m in selectedModels
          ensures Readable(RowsOf(byModel, m))
        {
          var k :| 0 <= k < |selectedModels| && selectedModels[k] == m;
        }
      }
    }
    return Shown(averages);
  }

  // ---------------------------------------------------------- properties

  /** Nothing is rendered without results or with fewer than two models;
      otherwise the table holds every selected model and, for each, every
      metric of every category. */
  lemma AggregatedShape(compareResults: Option<ModelRows>, selectedModels: seq<string>,
                        metricCategories: Option<seq<Category>>)
    ensures Aggregated(compareResults, selectedModels, metricCategories).Hidden?
      <==> compareResults.None? || |selectedModels| < 2
    ensures Aggregated(compareResults, selectedModels, metricCategories).Shown? ==>
      var avgs := Aggregated(compareResults, selectedModels, metricCategories).averages;
      && (forall m :: m in avgs <==> m in selectedModels)
      && (forall m, x :: m in avgs ==> (x in avgs[m] <==> x in AllMetrics(metricCategories.value)))
  {
  }

  /** An average is `null` exactly when no row of the model has a counted
      value for the metric. */
  lemma {:induction false} MetricAverageNone(rows: seq<Value>, metric: string)
    ensures MetricAverage(rows, metric).None? <==>
      forall i :: 0 <= i < |rows| ==> ScoreOf(Get(rows[i], metric)).None?
  {
    var os := ScoresOf(rows, metric);
    NumbersMembers(os);
    if forall i :: 0 <= i < |rows| ==> ScoreOf(Get(rows[i], metric)).None? {
      forall i | 0 <= i < |os|
        ensures os[i].None?
      {
        ScoresOfAt(rows, metric, i);
      }
      NumbersNone(os);
    } else {
      var i :| 0 <= i < |rows| && ScoreOf(Get(rows[i], metric)).Some?;
      ScoresOfAt(rows, metric, i);
      assert os[i].value in Numbers(os);
    }
  }

  /** Where something counts, the table agrees with
      `getCompareMetricAverages`; where nothing counts, the table says
      `null` and the helper says 0. */
  lemma NullWhereHelperSaysZero(rows: seq<Value>, metric: string)
    ensures MetricAverage(rows, metric).Some? ==> MetricAverage(rows, metric).value == ScoreMean(rows, metric)
    ensures MetricAverage(rows, metric).None? ==> ScoreMean(rows, metric) == 0.0
  {
  }

  /** A model without a row list (`compareResults[model] || []`) gets
      `null` for every metric. */
  lemma MissingModelAllNull(compareResults: Option<ModelRows>, selectedModels: seq<string>,
                            metricCategories: Option<seq<Category>>, m: string, x: string)
    requires Aggregated(compareResults, selectedModels, metricCategories).Shown?
    requires m in selectedModels && x in AllMetrics(metricCategories.value)
    requires !HasRows(compareResults.value, m)
    ensures Aggregated(compareResults, selectedModels, metricCategories).averages[m][x] == None
  {
    assert RowsOf(compareResults.value, m) == [];
  }

  /** A score of 0 wrapped in an object counts: the average is 0, not
      `null`. */
  lemma ZeroScoreCounts(metric: string)
    ensures MetricAverage([Obj([(metric, Obj([("score", Num(0.0))]))])], metric) == Some(0.0)
  {
    var row := Obj([(metric, Obj([("score", Num(0.0))]))]);
    assert Get(row, metric) == Obj([("score", Num(0.0))]);
    assert Get(Obj([("score", Num(0.0))]), "score") == Num(0.0);
    ScoresOfAt([row], metric, 0);
    assert ScoresOf([row], metric) == [Some(0.0)];
    assert Numbers([Some(0.0)]) == [0.0] by {
      assert [Some(0.0)][..0] == [];
    }
    assert Sum([0.0]) == 0.0 by {
      assert [0.0][..0] == [];
    }
  }

  /** A numeric string does not count, so a model whose only value is
      `"0.9"` shows `null`. */
  lemma NumericStringIsNull(metric: string)
    ensures MetricAverage([Obj([(metric, Str("0.9"))])], metric) == None
  {
    var row := Obj([(metric, Str("0.9"))]);
    assert Get(row, metric) == Str("0.9");
    MetricAverageNone([row], metric);
  }
}
