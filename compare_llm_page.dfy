/** The state of frontend/src/pages/CompareLLMPage.jsx: the model choice,
    the run request's loading/results/error steps, the per-category metric
    columns, the tables derived from the results and the aggregated table
    the page mounts. */
module CompareLlmPageState {
  import opened Wrappers
  import opened JsValues
  import opened OrderedSet
  import opened CompareUtils
  import opened MetricUtils
  import opened MetricSelection
  import opened PageRequest
  import opened AggregatedCompare
  import opened PerQuestion
  import opened InsightSelection

  /** frontend/src/constants/defaults.js */
  const SharedDefaults: map<string, seq<string>> := map[
    "retrieval" := ["context_precision", "context_recall"],
    "nvidia" := ["nv_accuracy", "nv_context_relevance"],
    "language" := ["factual_correctness", "semantic_similarity"]
  ]

  /** The keys the initial `shownMetrics` spreads out of the defaults. */
  const SpreadKeys: seq<string> := ["retrieval", "nvidia", "nlp"]

  /** The catalogue's category keys. */
  const CatalogueKeys: seq<string> := ["retrieval", "nvidia", "language"]

  /** `{ k: [...defaults[k]], ... }` for each key; spreading a missing
      entry throws, which is `None`. */
  function SpreadInitial(defaults: map<string, seq<string>>, keys: seq<string>): (r: Option<Shown>)
    ensures r.None? <==> exists k :: k in keys && k !in defaults
    ensures r.Some? ==> r.value.Keys == set k | k in keys
    ensures r.Some? ==> forall k :: k in keys ==> ListOf(r.value, k) == defaults[k]
  {
    if forall k :: k in keys ==> k in defaults then Some(map k | k in keys :: Some(defaults[k]))
    else None
  }

  /** Which of the two tables is displayed. */
  datatype TableMode = PerQuestionMode | AggregatedMode

  /** The comparison page's state, changed only through its setters. The
      categories handed to the aggregated table are a parameter so that the
      page as written (none) and a page passing the catalogue can both be
      stated. */
  class CompareLlmPage {
    const tableCategories: Option<seq<Category>>
    var selectedModels: seq<string>
    var loading: bool
    var compareResults: Option<ModelRows>
    var error: Value
    var categoryKey: string
    var tableMode: TableMode
    var shown: Shown

    /** The first render; it only gets this far when every spread key has
        defaults. */
    constructor (keys: seq<string>, tableCategories: Option<seq<Category>>)
      requires SpreadInitial(SharedDefaults, keys).Some?
      ensures this.tableCategories == tableCategories
      ensures selectedModels == [] && !loading && compareResults.None? && error == Str("")
      ensures categoryKey == MetricCategories[0].key && tableMode == PerQuestionMode
      ensures shown == SpreadInitial(SharedDefaults, keys).value
    {
      this.tableCategories := tableCategories;
      selectedModels := [];
      loading := false;
      compareResults := None;
      error := Str("");
      categoryKey := MetricCategories[0].key;
      tableMode := PerQuestionMode;
      shown := SpreadInitial(SharedDefaults, keys).value;
    }

    /** `shownMetrics[categoryKey] || []` */
    function MetricsToShow(): seq<string>
      reads this
    {
      ListOf(shown, categoryKey)
    }

    /** The Run button's `disabled={loading || selectedModels.length < 2}`,
        negated: a run can start only with two models and none in flight. */
    function RunEnabled(): (r: bool)
      reads this
      ensures r ==> !loading
      ensures r ==> |selectedModels| >= 2
      ensures !loading && |selectedModels| >= 2 ==> r
    {
      !loading && |selectedModels| >= 2
    }

    /** The model selector's `onChange`. */
    method SelectModels(models: seq<string>)
      modifies this
      ensures selectedModels == models
      ensures loading == old(loading) && compareResults == old(compareResults) && error == old(error)
      ensures categoryKey == old(categoryKey) && tableMode == old(tableMode) && shown == old(shown)
    {
      selectedModels := models;
    }

    /** The exclusive toggle group: deselecting the active button passes
        `null`, which keeps the mode. */
    method SelectTableMode(val: Option<TableMode>)
      modifies this
      ensures tableMode == if val.Some? then val.value else old(tableMode)
      ensures selectedModels == old(selectedModels) && loading == old(loading)
      ensures compareResults == old(compareResults) && error == old(error)
      ensures categoryKey == old(categoryKey) && shown == old(shown)
    {
      if val.Some? {
        tableMode := val.value;
      }
    }

    /** `handleMetricToggle(metric)` */
    method HandleMetricToggle(metric: string)
      modifies this
      ensures shown == Toggled(old(shown), categoryKey, metric)
      ensures categoryKey == old(categoryKey) && tableMode == old(tableMode)
      ensures selectedModels == old(selectedModels) && loading == old(loading)
      ensures compareResults == old(compareResults) && error == old(error)
      ensures WellFormed(old(shown)) ==> WellFormed(shown)
      ensures WellFormed(old(shown)) && old(MetricsToShow()) != [] ==> MetricsToShow() != []
    {
      if WellFormed(shown) {
        ToggleEffect(shown, categoryKey, metric);
        if MetricsToShow() != [] {
          ToggleNeverEmpties(shown, categoryKey, metric);
        }
      }
      shown := Toggled(shown, categoryKey, metric);
    }

    /** `handleCategoryChange` */
    method HandleCategoryChange(newCat: string)
      modifies this
      ensures categoryKey == newCat
      ensures shown == CategoryChanged(old(shown), SharedDefaults, newCat)
      ensures tableMode == old(tableMode) && selectedModels == old(selectedModels)
      ensures loading == old(loading) && compareResults == old(compareResults) && error == old(error)
    {
      categoryKey := newCat;
      shown := CategoryChanged(shown, SharedDefaults, newCat);
    }

    /** The synchronous start of `handleRunCompare`. */
    method BeginRun()
      modifies this
      ensures loading && error == Str("") && compareResults.None?
      ensures !RunEnabled()
      ensures selectedModels == old(selectedModels) && categoryKey == old(categoryKey)
      ensures tableMode == old(tableMode) && shown == old(shown)
    {
      loading := true;
      error := Str("");
      compareResults := None;
    }

    /** The rest of `handleRunCompare`, once the request has settled. */
    method FinishRun(reply: Reply<Option<ModelRows>>)
      modifies this
      ensures !loading
      ensures RunEnabled() <==> |selectedModels| >= 2
      ensures Succeeded(reply) ==> compareResults == reply.results && error == old(error)
      ensures !Succeeded(reply) ==>
        compareResults == old(compareResults) && error == FailureText(reply, "Comparison failed.")
      ensures selectedModels == old(selectedModels) && categoryKey == old(categoryKey)
      ensures tableMode == old(tableMode) && shown == old(shown)
    {
      if Succeeded(reply) {
        compareResults := reply.results;
      } else {
        error := FailureText(reply, "Comparison failed.");
      }
      loading := false;
    }

    /** `handleRunCompare` from start to end. */
    method HandleRunCompare(reply: Reply<Option<ModelRows>>)
      modifies this
      ensures !loading
      ensures Succeeded(reply) ==> compareResults == reply.results && error == Str("")
      ensures !Succeeded(reply) ==> compareResults.None? && Truthy(error)
      ensures selectedModels == old(selectedModels) && categoryKey == old(categoryKey)
      ensures tableMode == old(tableMode) && shown == old(shown)
      ensures old(RunEnabled()) ==> RunEnabled()
    {
      BeginRun();
      FinishRun(reply);
    }

    /** Rendering throws while computing `alignedRows` or `metricAverages`
        (a `null` or `undefined` row in the results). */
    predicate DerivedThrows()
      reads this
    {
      compareResults.Some? &&
        (AlignThrows(compareResults.value) || AveragesThrow(compareResults.value, MetricsToShow()))
    }

    /** `alignedRows` and `metricAverages`: computed from the results when
        there are any, otherwise `[]` and `{}`; `None` where the render
        throws. */
    method Derived() returns (tables: Option<(seq<Value>, map<string, map<string, real>>)>)
      ensures tables.None? <==> DerivedThrows()
      ensures compareResults.None? ==> tables == Some(([], map[]))
      ensures compareResults.Some? && tables.Some? ==>
        && |tables.value.0| == |BaseRows(compareResults.value)|
        && (forall i :: 0 <= i < |tables.value.0| ==>
              tables.value.0[i] == Obj(AlignedFields(compareResults.value, BaseRows(compareResults.value)[i])))
        && (forall m :: m in tables.value.1 <==> HasRows(compareResults.value, m))
        && (forall m :: m in tables.value.1 ==> tables.value.1[m].Keys == set x | x in MetricsToShow())
        && (forall m, x :: m in tables.value.1 && x in tables.value.1[m] ==>
              tables.value.1[m][x] == ScoreMean(RowsOf(compareResults.value, m), x))
    {
      if compareResults.None? {
        return Some(([], map[]));
      }
      var aligned := AlignCompareResults(compareResults.value);
      if aligned.None? {
        return None;
      }
      var averages := GetCompareMetricAverages(compareResults.value, MetricsToShow());
      if averages.None? {
        return None;
      }
      return Some((aligned.value, averages.value));
    }

    /** The aggregated table as the page mounts it: only with aligned rows
        and the aggregated mode; `None` when it is not mounted, which
        includes a render that has already thrown. */
    method AggregatedTable() returns (table: Option<Rendered>)
      ensures compareResults.None? || tableMode == PerQuestionMode || DerivedThrows() ==> table.None?
      ensures table.Some? ==> table.value == Aggregated(compareResults, selectedModels, tableCategories)
      ensures compareResults.Some? && tableMode == AggregatedMode && !DerivedThrows() ==>
        (table.Some? <==> BaseRows(compareResults.value) != [])
    {
      var tables := Derived();
      if tables.Some? && |tables.value.0| > 0 && tableMode == AggregatedMode {
        var r := AveragesByModel(compareResults, selectedModels, tableCategories);
        return Some(r);
      }
      return None;
    }
  }

  // ----------------------------------------------------------- findings

  /** The initial state spreads `DEFAULT_METRICS.nlp`, which the shared
      defaults do not have: the first render throws. */
  lemma InitialSpreadThrows()
    ensures SpreadInitial(SharedDefaults, SpreadKeys).None?
  {
    assert "nlp" in SpreadKeys && "nlp" !in SharedDefaults;
  }

  /** Spreading the catalogue's keys instead succeeds and shows a
      non-empty, repeat-free column list for every category. */
  lemma CatalogueSpreadShows()
    ensures SpreadInitial(SharedDefaults, CatalogueKeys).Some?
    ensures var shown := SpreadInitial(SharedDefaults, CatalogueKeys).value;
      WellFormed(shown) && forall i :: 0 <= i < |MetricCategories| ==> ListOf(shown, MetricCategories[i].key) != []
  {
    var shown := SpreadInitial(SharedDefaults, CatalogueKeys).value;
    assert forall k :: k in CatalogueKeys ==> k in SharedDefaults;
    forall k | k in shown && shown[k].Some?
      ensures NoDups(shown[k].value)
    {
      assert k == "retrieval" || k == "nvidia" || k == "language";
    }
    forall i | 0 <= i < |MetricCategories|
      ensures ListOf(shown, MetricCategories[i].key) != []
    {
      assert MetricCategories[i].key in CatalogueKeys;
    }
  }

  /** The page mounts the aggregated table without `metricCategories`, so
      whenever it is shown with results and two models it throws. */
  lemma AggregatedWithoutCategoriesFails(byModel: ModelRows, models: seq<string>)
    requires |models| >= 2
    ensures Aggregated(Some(byModel), models, None) == Fails
  {
  }

  /** Passing the catalogue instead, the table has an entry for every
      selected model and every catalogue metric whenever the rows are
      readable. */
  lemma AggregatedWithCatalogueShows(byModel: ModelRows, models: seq<string>)
    requires |models| >= 2 && AllReadable(byModel, models)
    ensures Aggregated(Some(byModel), models, Some(MetricCategories)).Shown?
    ensures var avgs := Aggregated(Some(byModel), models, Some(MetricCategories)).averages;
      forall m, x :: m in models && x in AllMetrics(MetricCategories) ==> m in avgs && x in avgs[m]
  {
    AggregatedShape(Some(byModel), models, Some(MetricCategories));
  }
}
