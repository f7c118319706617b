/** The state of frontend/src/pages/EvaluationPage.jsx: the evaluate
    request's loading/results/error steps, the per-category metric columns
    and the score shown in a table cell. */
module EvaluationPageState {
  import opened Wrappers
  import opened Text
  import opened Assoc
  import opened JsValues
  import opened OrderedSet
  import opened CompareUtils
  import opened MetricUtils
  import opened MetricSelection
  import opened PageRequest

  /** The page's own `DEFAULT_METRICS`. */
  const EvalDefaults: map<string, seq<string>> := map[
    "retrieval" := ["context_precision", "context_recall"],
    "nvidia" := ["nv_accuracy", "nv_context_relevance"],
    "nlp" := ["factual_correctness(mode=f1)", "semantic_similarity"]
  ]

  /** The same defaults keyed by the catalogue's `language` category. */
  const LanguageDefaults: map<string, seq<string>> := map[
    "retrieval" := ["context_precision", "context_recall"],
    "nvidia" := ["nv_accuracy", "nv_context_relevance"],
    "language" := ["factual_correctness(mode=f1)", "semantic_similarity"]
  ]

  /** The initial `shownMetrics`: one entry per defaults key. */
  function InitialShown(defaults: map<string, seq<string>>): (shown: Shown)
    ensures shown.Keys == defaults.Keys
    ensures forall k :: k in defaults ==> ListOf(shown, k) == defaults[k]
  {
    map k | k in defaults :: Some(defaults[k])
  }

  /** The evaluation page's state, changed only through its setters. */
  class EvaluationPage {
    const defaults: map<string, seq<string>>
    var loading: bool
    var results: Value
    var error: Value
    var categoryKey: string
    var shown: Shown

    constructor (defaults: map<string, seq<string>>)
      ensures this.defaults == defaults
      ensures !loading && results == Null && error == Str("")
      ensures categoryKey == MetricCategories[0].key
      ensures shown == InitialShown(defaults)
    {
      this.defaults := defaults;
      loading := false;
      results := Null;
      error := Str("");
      categoryKey := MetricCategories[0].key;
      shown := InitialShown(defaults);
    }

    /** `shownMetrics[categoryKey] || []` */
    function MetricsToShow(): seq<string>
      reads this
    {
      ListOf(shown, categoryKey)
    }

    /** `handleMetricToggle(metric)` */
    method HandleMetricToggle(metric: string)
      modifies this
      ensures shown == Toggled(old(shown), categoryKey, metric)
      ensures categoryKey == old(categoryKey)
      ensures loading == old(loading) && results == old(results) && error == old(error)
      ensures WellFormed(old(shown)) ==> WellFormed(shown)
      ensures WellFormed(old(shown)) && old(MetricsToShow()) != [] ==> MetricsToShow() != []
    {
      if WellFormed(shown) {
        ToggleEffect(shown, categoryKey, metric);
        if MetricsToShow() != [] {
          ToggleNeverEmpties(shown, categoryKey, metric);
        }
      }
      shown := Toggled(shown, categoryKey, metric);
    }

    /** `handleCategoryChange` */
    method HandleCategoryChange(newCat: string)
      modifies this
      ensures categoryKey == newCat
      ensures shown == CategoryChanged(old(shown), defaults, newCat)
      ensures loading == old(loading) && results == old(results) && error == old(error)
    {
      categoryKey := newCat;
      shown := CategoryChanged(shown, defaults, newCat);
    }

    /** The synchronous start of `handleEvaluate`. */
    method BeginEvaluate()
      modifies this
      ensures loading && results == Null && error == Str("")
      ensures categoryKey == old(categoryKey) && shown == old(shown)
    {
      loading := true;
      results := Null;
      error := Str("");
    }

    /** The rest of `handleEvaluate`, once the request has settled. */
    method FinishEvaluate(reply: Reply<Value>)
      modifies this
      ensures !loading
      ensures Succeeded(reply) ==> results == reply.results && error == old(error)
      ensures !Succeeded(reply) ==>
        results == old(results) && error == FailureText(reply, "Error during evaluation.")
      ensures categoryKey == old(categoryKey) && shown == old(shown)
    {
      if Succeeded(reply) {
        results := reply.results;
      } else {
        error := FailureText(reply, "Error during evaluation.");
      }
      loading := false;
    }

    /** `handleEvaluate` from start to end: a success shows the results
        and no error, a failure shows an error and no results, and in both
        cases loading is over and the column choice is untouched. */
    method HandleEvaluate(reply: Reply<Value>)
      modifies this
      ensures !loading
      ensures Succeeded(reply) ==> results == reply.results && error == Str("")
      ensures !Succeeded(reply) ==> results == Null && Truthy(error)
      ensures categoryKey == old(categoryKey) && shown == old(shown)
    {
      BeginEvaluate();
      FinishEvaluate(reply);
    }
  }

  // ------------------------------------------------------------ the cells

  /** A metric cell: `row[metric]`, unwrapped when it is an object with a
      numeric `score`; anything but a number shows `-`. */
  function CellScore(row: Value, metric: string): (r: Option<real>)
    ensures r.Some? <==> Get(row, metric).Num? || (IsObject(Get(row, metric)) && Get(Get(row, metric), "score").Num?)
    ensures Get(row, metric).Num? ==> r == Some(Get(row, metric).n)
  {
    var val := Get(row, metric);
    var unwrapped := if IsObject(val) && Get(val, "score").Num? then Get(val, "score") else val;
    if unwrapped.Num? then Some(unwrapped.n) else None
  }

  function CellLabel(row: Value, metric: string): ChipLabel {
    ChipFor(CellScore(row, metric))
  }

  /** A cell shows exactly the value the comparison averages count. */
  lemma CellCountsLikeCompare(row: Value, metric: string)
    ensures CellScore(row, metric) == ScoreOf(Get(row, metric))
  {
  }

  /** A cell reads the exact key only: a key carrying a mode suffix shows
      `-`, although the average over the same row finds it
      (`ModeKeyResolved`). */
  lemma CellIgnoresModeKey()
    ensures CellLabel(Obj([("factual_correctness(mode=f1)", Num(0.8))]), "factual_correctness") == Dash
  {
    var row := Obj([("factual_correctness(mode=f1)", Num(0.8))]);
    assert Get(row, "factual_correctness") == Undefined;
  }

  /** The average's reader finds the suffixed key the cell ignores. */
  lemma ModeKeyResolved()
    ensures ResolveMetricValue(Obj([("factual_correctness(mode=f1)", Num(0.8))]), "factual_correctness") == Some(0.8)
  {
    var row := Obj([("factual_correctness(mode=f1)", Num(0.8))]);
    assert Get(row, "factual_correctness") == Undefined;
    var keys := ["factual_correctness(mode=f1)"];
    assert KeysOf(Entries(row)) == keys;
    ModeKeyExtends();
    assert FirstExtendingIndex(keys, "factual_correctness") == Some(0);
  }

  // -------------------------------------------------- the language category

  /** The catalogue's third category is `language`, which the page's
      defaults do not name: switching to it from the initial state shows no
      metric columns. */
  lemma LanguageShowsNothing()
    ensures MetricCategories[2].key == "language"
    ensures ListOf(CategoryChanged(InitialShown(EvalDefaults), EvalDefaults, "language"), "language") == []
  {
    assert "language" !in InitialShown(EvalDefaults);
  }

  /** Keyed by `language`, the defaults give every catalogue category a
      non-empty column list on every switch. */
  lemma LanguageDefaultsShowSomething(shown: Shown, i: nat)
    requires WellFormed(shown) && i < |MetricCategories|
    ensures ListOf(CategoryChanged(shown, LanguageDefaults, MetricCategories[i].key), MetricCategories[i].key) != []
    ensures WellFormed(CategoryChanged(shown, LanguageDefaults, MetricCategories[i].key))
  {
    var k := MetricCategories[i].key;
    assert k == "retrieval" || k == "nvidia" || k == "language";
    assert k in LanguageDefaults;
    assert NoDups(LanguageDefaults[k]);
    CategoryChangedShows(shown, LanguageDefaults, k);
  }
}
