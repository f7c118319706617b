/** frontend/src/utils/metricUtils.js: the metric catalogue, the colour
    bands, the tolerant per-row metric resolver and the per-metric mean. */
module MetricUtils {
  import opened Wrappers
  import opened Text
  import opened Assoc
  import opened JsValues
  import opened Stats

  datatype Category = Category(key: string, title: string, metrics: seq<string>)

  const MetricCategories: seq<Category> := [
    Category("retrieval", "Retrieval Metrics",
      ["context_precision", "context_recall", "faithfulness"]),
    Category("nvidia", "Nvidia Metrics",
      ["nv_accuracy", "nv_context_relevance", "nv_response_groundedness"]),
    Category("language", "Language Metrics",
      ["factual_correctness", "semantic_similarity", "bleu_score", "rouge_score",
       "string_present", "exact_match"])
  ]

  // ------------------------------------------------------------ colours

  const Green := "#d0f5e0"
  const Yellow := "#fff9c4"
  const Red := "#ffcdd2"

  /** Background colour of a metric cell: no colour for non-numbers,
      otherwise exactly one of three bands. */
  function MetricColor(value: Value): (c: string)
    ensures !value.Num? <==> c == ""
    ensures c == Green <==> value.Num? && value.n > 0.7
    ensures c == Yellow <==> value.Num? && 0.4 <= value.n <= 0.7
    ensures c == Red <==> value.Num? && value.n < 0.4
  {
    if !value.Num? then ""
    else if value.n > 0.7 then Green
    else if value.n >= 0.4 then Yellow
    else Red
  }

  // ------------------------------------------------------------ display

  /** A score chip: three decimals for a number, `-` otherwise (the
      rounding itself is not modelled). */
  datatype ChipLabel = Dash | Fixed3(x: real)

  function ChipFor(avg: Option<real>): (l: ChipLabel)
    ensures l.Dash? <==> avg.None?
    ensures l.Fixed3? ==> Some(l.x) == avg
  {
    match avg
    case None => Dash
    case Some(x) => Fixed3(x)
  }

  // ---------------------------------------------------------- categories

  /** `METRIC_CATEGORIES.find(c => c.key === key)` */
  function FindCategory(cats: seq<Category>, key: string): (r: Option<Category>)
    ensures r.Some? ==> r.value in cats && r.value.key == key
    ensures r.None? ==> forall c :: c in cats ==> c.key != key
    decreases |cats|
  {
    if cats == [] then None
    else if cats[0].key == key then Some(cats[0])
    else FindCategory(cats[1..], key)
  }

  function MetricsForCategory(key: string): (ms: seq<string>)
    ensures (forall c :: c in MetricCategories ==> c.key != key) ==> ms == []
  {
    match FindCategory(MetricCategories, key)
    case Some(c) => c.metrics
    case None => []
  }

  /** Each known key yields exactly its own category's list. */
  lemma MetricsForKnownCategory(i: nat)
    requires i < |MetricCategories|
    ensures MetricsForCategory(MetricCategories[i].key) == MetricCategories[i].metrics
  {
  }

  // ------------------------------------------------------------ resolver

  /** The fallback key test `^metric(\(|_|$)` with the `i` flag, for a
      metric name that is a plain identifier: the key starts with the
      metric, ignoring case, and goes on with `(`, `_` or nothing. */
  predicate KeyExtends(k: string, metric: string) {
    StartsWithFolded(k, metric) && |metric| <= |k| &&
    (|k| == |metric| || k[|metric|] == '(' || k[|metric|] == '_')
  }

  /** The index found by `Object.keys(row).find(k => re.test(k))`: the
      first key that passes the test. */
  function FirstExtendingIndex(keys: seq<string>, metric: string): (r: Option<nat>)
    ensures r.Some? ==> r.value < |keys| && KeyExtends(keys[r.value], metric)
    ensures r.Some? ==> forall j :: 0 <= j < r.value ==> !KeyExtends(keys[j], metric)
    ensures r.None? ==> forall j :: 0 <= j < |keys| ==> !KeyExtends(keys[j], metric)
    decreases |keys|
  {
    if keys == [] then None
    else if KeyExtends(keys[0], metric) then Some(0)
    else match FirstExtendingIndex(keys[1..], metric)
      case Some(i) => Some(i + 1)
      case None => None
  }

  /** `v` after the exact lookup and the fallback search. */
  function RawMetricValue(row: Value, metric: string): Value {
    var exact := Get(row, metric);
    if !exact.Undefined? then exact
    else
      var keys := KeysOf(Entries(row));
      match FirstExtendingIndex(keys, metric)
      case Some(i) => Get(row, keys[i])
      case None => Undefined
  }

  /** `typeof x === "string" && !isNaN(+x)` */
  predicate NumericString(x: Value) {
    x.Str? && StringToNumber(x.s).Some?
  }

  /** The `{score}` / `{value}` unwrap, in the source's order. */
  function UnwrapObject(v: Value): Option<real> {
    var s := Get(v, "score");
    var w := Get(v, "value");
    if s.Num? then Some(s.n)
    else if w.Num? then Some(w.n)
    else if NumericString(s) then StringToNumber(s.s)
    else if NumericString(w) then StringToNumber(w.s)
    else None
  }

  /** Number, numeric string, `{score}`/`{value}` object, or nothing. */
  function DecodeMetric(v: Value): (r: Option<real>)
    ensures v.Num? ==> r == Some(v.n)
    ensures v.Str? ==> r == StringToNumber(v.s)
    ensures !v.Num? && !v.Str? && !IsObject(v) ==> r.None?
    ensures IsObject(v) && Get(v, "score").Num? ==> r == Some(Get(v, "score").n)
    ensures IsObject(v) && !Get(v, "score").Num? && Get(v, "value").Num? ==> r == Some(Get(v, "value").n)
    ensures (IsObject(v) && !Get(v, "score").Num? && !Get(v, "value").Num? &&
             NumericString(Get(v, "score"))) ==> r == StringToNumber(Get(v, "score").s)
    ensures (IsObject(v) && !Get(v, "score").Num? && !Get(v, "value").Num? &&
             !NumericString(Get(v, "score")) && NumericString(Get(v, "value"))) ==>
      r == StringToNumber(Get(v, "value").s)
    ensures (IsObject(v) && !Get(v, "score").Num? && !Get(v, "value").Num? &&
             !NumericString(Get(v, "score")) && !NumericString(Get(v, "value"))) ==> r.None?
  {
    if IsObject(v) && UnwrapObject(v).Some? then UnwrapObject(v)
    else if v.Num? then Some(v.n)
    else if v.Str? then StringToNumber(v.s)
    else None
  }

  /** `resolveMetricValue(row, metricKey)`; None is `null`. */
  function ResolveMetricValue(row: Value, metric: string): (r: Option<real>)
    ensures !Truthy(row) || metric == "" ==> r.None?
    ensures Truthy(row) && metric != "" && !Get(row, metric).Undefined? ==>
      r == DecodeMetric(Get(row, metric))
    ensures Truthy(row) && metric != "" && Get(row, metric).Undefined? ==>
      r == (var ks := KeysOf(Entries(row));
            match FirstExtendingIndex(ks, metric)
            case Some(i) => DecodeMetric(Get(row, ks[i]))
            case None => None)
  {
    if !Truthy(row) || metric == "" then None
    else DecodeMetric(RawMetricValue(row, metric))
  }

  /** `results.map(row => resolveMetricValue(row, metric))` */
  function ResolveAll(rows: seq<Value>, metric: string): (os: seq<Option<real>>)
    ensures |os| == |rows|
    decreases |rows|
  {
    if rows == [] then []
    else ResolveAll(rows[..|rows| - 1], metric) + [ResolveMetricValue(rows[|rows| - 1], metric)]
  }

  /** Each row is resolved on its own. */
  lemma {:induction false} ResolveAllAt(rows: seq<Value>, metric: string, i: nat)
    requires i < |rows|
    ensures ResolveAll(rows, metric)[i] == ResolveMetricValue(rows[i], metric)
    decreases |rows|
  {
    if i < |rows| - 1 {
      ResolveAllAt(rows[..|rows| - 1], metric, i);
    }
  }

  /** An exact key that holds `null` blocks the fallback: the suffixed
      key is never consulted. */
  lemma ExactNullBlocksFallback()
    ensures ResolveMetricValue(
      Obj([("faithfulness", Null), ("faithfulness_score", Num(0.9))]), "faithfulness") == None
  {
    var row := Obj([("faithfulness", Null), ("faithfulness_score", Num(0.9))]);
    assert Get(row, "faithfulness") == Null;
  }

  /** With no exact key, a key carrying a parenthesised mode is found. */
  lemma FallbackFindsModeKey()
    ensures ResolveMetricValue(
      Obj([("answer", Str("x")), ("factual_correctness(mode=f1)", Num(0.8))]),
      "factual_correctness") == Some(0.8)
  {
    var row := Obj([("answer", Str("x")), ("factual_correctness(mode=f1)", Num(0.8))]);
    var keys := ["answer", "factual_correctness(mode=f1)"];
    assert Get(row, "factual_correctness") == Undefined;
    assert KeysOf(Entries(row)) == keys;
    assert !KeyExtends(keys[0], "factual_correctness");
    ModeKeyExtends();
    assert FirstExtendingIndex(keys, "factual_correctness") == Some(1);
  }

  /** A metric name followed by a parenthesised mode passes the test. */
  lemma ModeKeyExtends()
    ensures KeyExtends("factual_correctness(mode=f1)", "factual_correctness")
  {
    assert "factual_correctness(mode=f1)" == "factual_correctness" + "(mode=f1)";
    StartsWithFoldedHead("factual_correctness", "factual_correctness", "(mode=f1)");
  }

  /** A longer identifier that merely starts with the metric does not
      match, and case is ignored. */
  lemma FallbackNeedsSeparator()
    ensures !KeyExtends("faithfulnessx", "faithfulness")
    ensures KeyExtends("Faithfulness_Score", "faithfulness")
  {
    assert "Faithfulness_Score" == "Faithfulness" + "_Score";
    StartsWithFoldedHead("Faithfulness", "faithfulness", "_Score");
  }

  /** A numeric `value` beats a numeric-string `score`. */
  lemma UnwrapOrder()
    ensures DecodeMetric(Obj([("score", Str("0.5")), ("value", Num(0.7))])) == Some(0.7)
  {
  }

  /** An object with neither a usable `score` nor `value` resolves to null. */
  lemma UnwrapNothing()
    ensures DecodeMetric(Obj([("score", Null), ("note", Num(1.0))])) == None
  {
    var v := Obj([("score", Null), ("note", Num(1.0))]);
    assert Get(v, "score") == Null;
    assert Get(v, "value") == Undefined;
  }

  /** Blank strings pass the `!isNaN(+v)` test and resolve to 0. */
  lemma {:induction false} BlankStringIsZero(s: string)
    requires AllSpace(s, Js)
    ensures DecodeMetric(Str(s)) == Some(0.0)
  {
    TrimBlank(s, Js);
  }

  // ------------------------------------------------------------ averages

  /** The entry of `getMetricAverages` for one metric. */
  function MetricMean(rows: seq<Value>, metric: string): real {
    Mean(Numbers(ResolveAll(rows, metric)))
  }

  /** `getMetricAverages(results, metrics)`; None is a missing argument. */
  method GetMetricAverages(results: Option<seq<Value>>, metrics: Option<seq<string>>)
    returns (avg: map<string, real>)
    ensures results.None? || metrics.None? ==> avg == map[]
    ensures results.Some? && metrics.Some? ==>
      avg.Keys == set m | m in metrics.value &&
      forall m :: m in avg ==> avg[m] == MetricMean(results.value, m)
  {
    avg := map[];
    if results.None? || metrics.None? {
      return;
    }
    var rows, ms := results.value, metrics.value;
    var i := 0;
    while i < |ms|
      invariant 0 <= i <= |ms|
      invariant avg.Keys == set m | m in ms[..i]
      invariant forall m :: m in avg ==> avg[m] == MetricMean(rows, m)
    {
      var values := Numbers(ResolveAll(rows, ms[i]));
      avg := avg[ms[i] := Mean(values)];
      assert ms[..i + 1] == ms[..i] + [ms[i]];
      i := i + 1;
    }
    assert ms[..i] == ms;
  }

  /** A row that does not resolve leaves every mean as it was. */
  lemma UnresolvedRowIgnored(rows: seq<Value>, row: Value, metric: string)
    requires ResolveMetricValue(row, metric).None?
    ensures MetricMean(rows + [row], metric) == MetricMean(rows, metric)
  {
    assert (rows + [row])[..|rows|] == rows;
    NumbersSkip(ResolveAll(rows, metric));
  }

  /** A falsy row (null, undefined, 0, "") never contributes. */
  lemma FalsyRowIgnored(rows: seq<Value>, row: Value, metric: string)
    requires !Truthy(row)
    ensures MetricMean(rows + [row], metric) == MetricMean(rows, metric)
  {
    UnresolvedRowIgnored(rows, row, metric);
  }

  /** When no row contributes the entry is 0, not absent. */
  lemma NoContributionIsZero(rows: seq<Value>, metric: string)
    requires forall i :: 0 <= i < |rows| ==> ResolveMetricValue(rows[i], metric).None?
    ensures MetricMean(rows, metric) == 0.0
  {
    forall i | 0 <= i < |rows|
      ensures ResolveAll(rows, metric)[i].None?
    {
      ResolveAllAt(rows, metric, i);
    }
    NumbersNone(ResolveAll(rows, metric));
  }
}
