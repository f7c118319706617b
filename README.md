# educational_rag, the verified core

This project is a Dafny model of the logic inside `educational_rag`. That is a study assistant: teachers upload course PDFs per subject, the backend cleans and indexes them, students ask questions through a retrieval-augmented LLM chain, and the backend summarises the chosen PDFs and generates question papers. A React frontend evaluates and compares the answering models with RAGAS and NVIDIA-style metrics.

The model covers the parts of that system that are data transformations and small state machines.

- **Metric values.** Metric result rows are decoded, averaged and compared. Three readers disagree on what "no value" means, and the model makes each one explicit:
  - `resolveMetricValue` and `getMetricAverages` (`MetricUtils`) skip unresolvable rows;
  - the tolerant reader stack of the insight dialog (`MetricsInsight`) counts them as 0;
  - the aggregated comparison table (`AggregatedCompare`) reports `null`.
- **Comparison views.** `CompareUtils` covers the alignment of the compared models' rows and their averages. `PerQuestion` covers the per-question drill-down, which groups rows by id and then sorts them.
- **Page state.** The evaluation page and the LLM comparison page are classes (`EvaluationPageState`, `CompareLlmPageState`) whose methods are the column toggles, the category change and the run/evaluate request cycle (`PageRequest`). The question-paper form (`QuestionPaperForm`) covers the type and count updates, the submit checks and the payload. `InsightSelection` covers the insight dialog's category list and metric selection. `LogViewerFilter` covers the log viewer's filter and Details column.
- **Backend utilities.**
  - `CleanText`: the PDF text cleaner.
  - `QuestionGeneration`: block splitting, the recursion guard of the summariser, the exam-question filter, the chunk filter by file name, and the summary cache key.
  - `RagChainCache`: the `(vector-store directory, LLM)` chain cache and its invalidation.
  - `PdfLoaders`: the page filter of the PDF loader.

JavaScript values are modelled in `JsValues` as a datatype whose objects are ordered association lists (`Assoc`), with numbers as `real`. String and number helpers (`Text`), `Option` (`Wrappers`), insertion-ordered sets (`OrderedSet`) and means (`Stats`) support the rest.

Where the source loops or updates state, the model does too: the averaging loops, `valueFromObject`'s early-return scan, `computeMax`, the `Set`-copy toggles, the chain cache's invalidation loop and the page loader are methods with loop invariants. Each of them is proved equal to a specification function, and the properties are proved about that function. The three pages and the chain cache are classes whose methods state their whole new state; the reducers they apply (column toggle, category change, form validation) are functions with their own lemmas.

## Model

| member | source | states |
|---|---|---|
| MetricUtils.MetricColor | frontend/src/utils/metricUtils.js:61-66 | no colour exactly for a non-number; green exactly above 0.7, yellow exactly in [0.4, 0.7], red exactly below 0.4 |
| MetricUtils.FindCategory | frontend/src/utils/metricUtils.js:70 | a found category is in the catalogue and has the key; nothing found means no category has it |
| MetricUtils.MetricsForCategory | frontend/src/utils/metricUtils.js:69-72 | a key no category has yields the empty list |
| MetricUtils.MetricsForKnownCategory | frontend/src/utils/metricUtils.js:69-72 | each catalogue key yields exactly its own category's metric list |
| MetricUtils.FirstExtendingIndex | frontend/src/utils/metricUtils.js:84-85 | the found key starts, case-insensitively, with the metric followed by an opening parenthesis, an underscore or the end of the key, and no earlier key does; nothing found means no key does |
| MetricUtils.DecodeMetric | frontend/src/utils/metricUtils.js:89-98 | an object unwraps, in this order, a numeric `score`, a numeric `value`, a numeric-string `score`, a numeric-string `value`, and is null when none applies; otherwise a number decodes to itself, a string to its numeric reading (or null), anything else to null |
| MetricUtils.ResolveMetricValue | frontend/src/utils/metricUtils.js:77-99 | a falsy row or empty metric name gives null; a defined exact key is decoded and the fallback is not consulted; an undefined exact key decodes the first key that passes the fallback test, and gives null when no key passes |
| MetricUtils.ResolveAllAt | frontend/src/utils/metricUtils.js:106-107 | each row of the mapped list is resolved on its own |
| MetricUtils.ExactNullBlocksFallback | frontend/src/utils/metricUtils.js:81-82 | an exact key holding null is not `undefined`, so a suffixed key is never read and the result is null |
| MetricUtils.FallbackFindsModeKey | frontend/src/utils/metricUtils.js:82-86 | with no exact key, `factual_correctness(mode=f1)` is found for `factual_correctness` |
| MetricUtils.ModeKeyExtends | frontend/src/utils/metricUtils.js:84 | a metric name followed by `(` passes the fallback test |
| MetricUtils.FallbackNeedsSeparator | frontend/src/utils/metricUtils.js:84 | a longer identifier is rejected; the test ignores case before `_` |
| MetricUtils.UnwrapOrder | frontend/src/utils/metricUtils.js:90-93 | a numeric `value` wins over a numeric-string `score` |
| MetricUtils.UnwrapNothing | frontend/src/utils/metricUtils.js:89-98 | an object without a usable `score` or `value` resolves to null |
| MetricUtils.BlankStringIsZero | frontend/src/utils/metricUtils.js:97 | a blank string passes `!isNaN(+v)` and resolves to 0 |
| MetricUtils.GetMetricAverages | frontend/src/utils/metricUtils.js:102-114 | a missing argument gives `{}`; otherwise one entry per metric, the mean of the values that resolve |
| MetricUtils.UnresolvedRowIgnored | frontend/src/utils/metricUtils.js:106-111 | a row that does not resolve leaves the mean unchanged |
| MetricUtils.FalsyRowIgnored | frontend/src/utils/metricUtils.js:78 | a falsy row never changes a mean |
| MetricUtils.NoContributionIsZero | frontend/src/utils/metricUtils.js:109-111 | with no value the entry is 0, not absent |
| MetricUtils.ChipFor | frontend/src/pages/AggregatedCompareTable.jsx:169-173 | a chip shows `-` exactly for a missing (non-number) average, and otherwise that average; the evaluation table's cells (EvaluationPage.jsx line 524) use the same rule |
| Stats.Mean | frontend/src/utils/metricUtils.js:109-111 | the empty list averages to 0; otherwise mean times count is the sum |
| Stats.MeanBounds | frontend/src/utils/metricUtils.js:109-111 | a mean of values in [lo, hi] lies in [lo, hi] |
| Stats.NumbersMembers | frontend/src/utils/metricUtils.js:108 | the filter keeps exactly the defined values |
| MetricSelection.ToggleKeepsOthers | frontend/src/pages/EvaluationPage.jsx:160-170 | only the current category's list can change |
| MetricSelection.ToggleEffect | frontend/src/pages/EvaluationPage.jsx:160-170 | the last metric cannot be removed; a shown metric loses exactly its position; a new one is appended; no list gains a repeat |
| MetricSelection.ToggleNeverEmpties | frontend/src/pages/EvaluationPage.jsx:163-164 | a non-empty list never becomes empty |
| MetricSelection.ToggleTwice | frontend/src/pages/EvaluationPage.jsx:160-170 | adding then removing a metric restores a non-empty list; from an empty list the metric stays |
| MetricSelection.DeleteAt | frontend/src/pages/EvaluationPage.jsx:165 | filtering a metric out of a repeat-free list removes exactly its position |
| MetricSelection.CategoryChangedEffect | frontend/src/pages/EvaluationPage.jsx:148-155 | only the new category's entry changes; a non-empty list survives, an empty or missing one becomes the defaults (or `undefined`) |
| MetricSelection.CategoryChangedShows | frontend/src/pages/EvaluationPage.jsx:151-154 | with non-empty, repeat-free defaults the new category always shows a non-empty list |
| PageRequest.MessageOr | frontend/src/pages/EvaluationPage.jsx:140 | a truthy message is kept, otherwise the fallback text replaces it |
| PageRequest.FailureText | frontend/src/pages/EvaluationPage.jsx:137-144 | a failed request always leaves a non-empty error when the fallback is non-empty |
| OrderedSet.Add | frontend/src/pages/MetricsInsightDialog.jsx:177 | `set.add` keeps every member, adds the new one, and keeps the members distinct |
| OrderedSet.Delete | frontend/src/pages/MetricsInsightDialog.jsx:177 | `set.delete` removes exactly that member |
| OrderedSet.FromSeq | frontend/src/pages/MetricsInsightDialog.jsx:169 | `new Set(xs)` has exactly the members of `xs`, each once |
| OrderedSet.FromSeqNoDups | frontend/src/pages/MetricsInsightDialog.jsx:169 | a repeat-free list becomes a set in the same order |
| EvaluationPageState.InitialShown | frontend/src/pages/EvaluationPage.jsx:114-118 | the initial column choice has one entry per defaults key, holding that key's defaults |
| EvaluationPageState.EvaluationPage.constructor | frontend/src/pages/EvaluationPage.jsx:106-118 | not loading, no results, no error, the first catalogue category, the initial column choice |
| EvaluationPageState.EvaluationPage.HandleMetricToggle | frontend/src/pages/EvaluationPage.jsx:160-170 | the column choice becomes the toggle of the current category; repeat-free lists stay so and a non-empty shown list stays non-empty |
| EvaluationPageState.EvaluationPage.HandleCategoryChange | frontend/src/pages/EvaluationPage.jsx:148-155 | the category becomes the new one and its list is kept or replaced by the defaults |
| EvaluationPageState.EvaluationPage.BeginEvaluate | frontend/src/pages/EvaluationPage.jsx:127-129 | loading, with results and error cleared |
| EvaluationPageState.EvaluationPage.FinishEvaluate | frontend/src/pages/EvaluationPage.jsx:136-145 | success stores the results; failure stores the body's message, the exception's message or the fallback text; loading ends |
| EvaluationPageState.EvaluationPage.HandleEvaluate | frontend/src/pages/EvaluationPage.jsx:126-146 | success shows the results and no error; failure shows a non-empty error and no results; the column choice is untouched |
| EvaluationPageState.CellScore | frontend/src/pages/EvaluationPage.jsx:511-514 | a cell has a score exactly when the entry is a number or an object with a numeric `score`; a number is shown as itself |
| EvaluationPageState.CellCountsLikeCompare | frontend/src/pages/EvaluationPage.jsx:511-514 | a cell reads a row exactly as the comparison averages do |
| EvaluationPageState.CellIgnoresModeKey | frontend/src/pages/EvaluationPage.jsx:511-514 | a cell reads only the exact key, so a mode-suffixed key shows `-` |
| EvaluationPageState.ModeKeyResolved | frontend/src/pages/EvaluationPage.jsx:124 | the averages above the table do find the mode-suffixed key |
| EvaluationPageState.LanguageShowsNothing | frontend/src/pages/EvaluationPage.jsx:22-26 | the catalogue's third key is `language`, which the defaults do not name, so switching to it shows no metric |
| EvaluationPageState.LanguageDefaultsShowSomething | frontend/src/pages/EvaluationPage.jsx:151-154 | with the defaults keyed `language`, every catalogue category shows a non-empty, repeat-free list on every switch |
| CompareLlmPageState.SpreadInitial | frontend/src/pages/CompareLLMPage.jsx:28-32 | the spread throws exactly when a spread key has no defaults; otherwise one entry per key, holding that key's defaults |
| CompareLlmPageState.CompareLlmPage.constructor | frontend/src/pages/CompareLLMPage.jsx:18-32 | no models, not loading, no results, no error, the first catalogue category, the per-question table, the spread column choice |
| CompareLlmPageState.CompareLlmPage.SelectModels | frontend/src/pages/CompareLLMPage.jsx:100 | the selection becomes the given models and nothing else changes |
| CompareLlmPageState.CompareLlmPage.SelectTableMode | frontend/src/pages/CompareLLMPage.jsx:119 | a value sets the mode; deselecting (null) keeps it |
| CompareLlmPageState.CompareLlmPage.HandleMetricToggle | frontend/src/pages/CompareLLMPage.jsx:78-89 | the column choice becomes the toggle of the current category; repeat-free lists stay so and a non-empty shown list stays non-empty |
| CompareLlmPageState.CompareLlmPage.HandleCategoryChange | frontend/src/pages/CompareLLMPage.jsx:68-75 | the category becomes the new one and its list is kept or replaced by the shared defaults |
| CompareLlmPageState.CompareLlmPage.BeginRun | frontend/src/pages/CompareLLMPage.jsx:37-39 | loading, with error and results cleared, and the Run button disabled |
| CompareLlmPageState.CompareLlmPage.FinishRun | frontend/src/pages/CompareLLMPage.jsx:45-53 | success stores the results; failure stores the message or the fallback text; loading ends and the Run button is enabled again exactly when two or more models are selected |
| CompareLlmPageState.CompareLlmPage.RunEnabled | frontend/src/pages/CompareLLMPage.jsx:107 | the Run button is enabled exactly when no run is loading and at least two models are selected |
| CompareLlmPageState.CompareLlmPage.HandleRunCompare | frontend/src/pages/CompareLLMPage.jsx:36-54 | success shows the results and no error; failure shows a non-empty error and no results; the Run button stays enabled |
| CompareLlmPageState.CompareLlmPage.Derived | frontend/src/pages/CompareLLMPage.jsx:57-65 | the render throws exactly when aligning or averaging the results throws; otherwise, without results, `[]` and `{}`; with results, the aligned record of every base row and one average map per model that has rows, with one mean of that model's scores per shown metric |
| CompareLlmPageState.CompareLlmPage.AggregatedTable | frontend/src/pages/CompareLLMPage.jsx:195-203 | when the render has not thrown, the aggregated table is mounted exactly in the aggregated mode with aligned rows, and renders as the aggregated-table model says |
| CompareLlmPageState.InitialSpreadThrows | frontend/src/pages/CompareLLMPage.jsx:31 | spreading the missing `nlp` defaults throws on the first render |
| CompareLlmPageState.CatalogueSpreadShows | frontend/src/pages/CompareLLMPage.jsx:28-32 | spreading the catalogue's keys succeeds and every category shows a non-empty, repeat-free list |
| CompareLlmPageState.AggregatedWithoutCategoriesFails | frontend/src/pages/CompareLLMPage.jsx:196-202 | mounted without `metricCategories`, the aggregated table throws whenever two models are selected |
| CompareLlmPageState.AggregatedWithCatalogueShows | frontend/src/pages/AggregatedCompareTable.jsx:20-35 | given the catalogue and readable rows, the table has an entry for every selected model and every catalogue metric |
| CompareUtils.FindById | frontend/src/utils/compareUtils.js:20 | a found row is in the list and has the id; nothing found means no row has it |
| CompareUtils.FindByIdFirst | frontend/src/utils/compareUtils.js:20 | the row found is the first row holding the id |
| CompareUtils.FindThrowsAt | frontend/src/utils/compareUtils.js:20 | a `null` or `undefined` row reached before any row with the id makes `find` throw at `r.id` |
| CompareUtils.FindThrowsWitness | frontend/src/utils/compareUtils.js:20 | when `find` throws, it is at such a row |
| CompareUtils.ReadableNeverThrows | frontend/src/utils/compareUtils.js:20 | `find` over rows without `null` or `undefined` never throws |
| CompareUtils.AlignCompareResults | frontend/src/utils/compareUtils.js:4-28 | throws exactly when a base row is `null` or `undefined` or a model's `find` throws; otherwise no models gives `[]`, and there is one record per row of the first model, each the aligned record of that row |
| CompareUtils.AlignRow | frontend/src/utils/compareUtils.js:11-26 | the callback for one row throws exactly at a `null` or `undefined` row or a throwing `find`; otherwise its record is the seed fields followed by one entry per model |
| CompareUtils.AlignedAllAt | frontend/src/utils/compareUtils.js:11 | record `i` belongs to base row `i` |
| CompareUtils.AddModelsLookup | frontend/src/utils/compareUtils.js:18-25 | after the model loop each model name reads as that model's entry and every other key as before |
| CompareUtils.AlignedFieldsLookup | frontend/src/utils/compareUtils.js:12-25 | a record has one entry per model, and the shared fields of the first model's row under every other key |
| CompareUtils.SeedFieldsLookup | frontend/src/utils/compareUtils.js:12-17 | the seed holds `id`, `question` and `ground_truth` from the row, and no `contexts` |
| CompareUtils.ModelEntryContents | frontend/src/utils/compareUtils.js:20-24 | a model without the id gets `{}`; otherwise its entry reads like its first matching row, plus `answer` |
| CompareUtils.FirstModelDecidesRows | frontend/src/utils/compareUtils.js:9-11 | ids only a later model has are dropped, and a row another model lacks gets `{}` |
| CompareUtils.ScoreOf | frontend/src/utils/compareUtils.js:38-42 | a number counts as itself, otherwise an object's numeric `score` counts as that score, and nothing else counts |
| CompareUtils.ScoresOfAt | frontend/src/utils/compareUtils.js:38-41 | each row is scored on its own |
| CompareUtils.NumericStringNotCounted | frontend/src/utils/compareUtils.js:39-42 | numeric strings do not count, while a `score` of 0 does |
| CompareUtils.ScoreMeans | frontend/src/utils/compareUtils.js:37-45 | throws exactly when there are metrics and a row is `null` or `undefined`; otherwise one entry per metric, each the mean of the counted scores |
| CompareUtils.GetCompareMetricAverages | frontend/src/utils/compareUtils.js:31-48 | throws exactly when there are metrics and a model's non-null row list holds a `null` or `undefined` row; otherwise one entry exactly per model with a non-null row list, one mean per metric inside it |
| CompareUtils.ReadableResultsNeverThrow | frontend/src/utils/compareUtils.js:4-48 | results without `null` or `undefined` rows are aligned and averaged without throwing |
| CompareUtils.NullRowThrows | frontend/src/utils/compareUtils.js:13 | a model whose only row is `null` makes both helpers throw |
| AggregatedCompare.NullableMean | frontend/src/pages/AggregatedCompareTable.jsx:31-32 | null exactly for no values; otherwise mean times count is the sum |
| AggregatedCompare.PutAverages | frontend/src/pages/AggregatedCompareTable.jsx:25-33 | each metric of the category gets its average and earlier entries stay |
| AggregatedCompare.ModelAverages | frontend/src/pages/AggregatedCompareTable.jsx:22-34 | one model's loop throws exactly when some metric is read from an unreadable row; otherwise it gives the averages of all catalogue metrics |
| AggregatedCompare.AveragesByModel | frontend/src/pages/AggregatedCompareTable.jsx:17-35 | the component's computation, guard and failures included, is the reference definition `Aggregated` |
| AggregatedCompare.AggregatedShape | frontend/src/pages/AggregatedCompareTable.jsx:17-35 | nothing renders exactly without results or with fewer than two models; a table has every selected model and, for each, exactly the categories' metrics |
| AggregatedCompare.MetricAverageNone | frontend/src/pages/AggregatedCompareTable.jsx:26-32 | an average is null exactly when no row has a counted value |
| AggregatedCompare.NullWhereHelperSaysZero | frontend/src/pages/AggregatedCompareTable.jsx:31-32 | where something counts the table agrees with the comparison helper; where nothing counts it says null and the helper says 0 |
| AggregatedCompare.MissingModelAllNull | frontend/src/pages/AggregatedCompareTable.jsx:23 | a model without rows gets null for every metric |
| AggregatedCompare.ZeroScoreCounts | frontend/src/pages/AggregatedCompareTable.jsx:29 | a wrapped score of 0 counts, giving 0 rather than null |
| AggregatedCompare.NumericStringIsNull | frontend/src/pages/AggregatedCompareTable.jsx:27-30 | a numeric string does not count, giving null |
| InsightSelection.KnownIsBase | frontend/src/pages/MetricsInsightDialog.jsx:19-23 | the flattened base categories are the ten listed metrics, in order |
| InsightSelection.AllMetricsMembers | frontend/src/pages/MetricsInsightDialog.jsx:146-149 | a metric is in `ALL_METRICS` exactly when some category lists it |
| InsightSelection.UnknownMembers | frontend/src/pages/MetricsInsightDialog.jsx:139-140 | a label key is extra exactly when no base category lists it |
| InsightSelection.CategoriesShape | frontend/src/pages/MetricsInsightDialog.jsx:137-144 | the base categories come first; "Other" is appended exactly when some label key is unknown, holding exactly those keys; `ALL_METRICS` is the known metrics plus the label keys |
| InsightSelection.AllMetricsNoDups | frontend/src/pages/MetricsInsightDialog.jsx:139-148 | with distinct label keys, `ALL_METRICS` lists no metric twice |
| InsightSelection.DefaultSelectionShape | frontend/src/pages/MetricsInsightDialog.jsx:152 | every default pick is a non-empty metric of `ALL_METRICS` |
| InsightSelection.DefaultStartsWithBase | frontend/src/pages/MetricsInsightDialog.jsx:152 | the default selection starts with the first metric of each base category |
| InsightSelection.InitialSelection | frontend/src/pages/MetricsInsightDialog.jsx:155-160 | a non-empty selection is kept; an empty one becomes the default once there are categories |
| InsightSelection.AllSelectedIff | frontend/src/pages/MetricsInsightDialog.jsx:162 | for a repeat-free selection drawn from `ALL_METRICS`, the length test holds exactly when every metric is selected |
| InsightSelection.ToggleAllEffect | frontend/src/pages/MetricsInsightDialog.jsx:162-167 | for a repeat-free selection drawn from `ALL_METRICS`, the toggle gives the default selection when every metric is selected and every metric otherwise |
| InsightSelection.ToggleMetric | frontend/src/pages/MetricsInsightDialog.jsx:175-179 | the toggled metric flips membership, every other metric keeps it, and the result has no repeats |
| InsightSelection.ToggleMetricTwice | frontend/src/pages/MetricsInsightDialog.jsx:175-179 | toggling an unselected metric twice restores the selection |
| InsightSelection.DeleteAllMembers | frontend/src/pages/MetricsInsightDialog.jsx:171 | deleting a category's metrics keeps exactly the others, without repeats |
| InsightSelection.AddAllMembers | frontend/src/pages/MetricsInsightDialog.jsx:172 | adding a category's metrics gives the union, without repeats |
| InsightSelection.CategoryToggledEffect | frontend/src/pages/MetricsInsightDialog.jsx:168-174 | a wholly selected category is wholly removed, otherwise it is wholly added; other metrics are untouched and no metric repeats |
| InsightSelection.ToggleCategory | frontend/src/pages/MetricsInsightDialog.jsx:168-174 | the method's forEach loops compute the category toggle |
| InsightSelection.DeleteEach | frontend/src/pages/MetricsInsightDialog.jsx:171 | the delete loop removes every metric of the category |
| InsightSelection.AddEach | frontend/src/pages/MetricsInsightDialog.jsx:172 | the add loop adds every metric of the category |
| MetricsInsight.ToNumIsDecodeOrZero | frontend/src/pages/MetricsInsightDialog.jsx:26-28 | for a non-object, `toNum` agrees with the metric decoder of the utilities, with 0 where that decoder gives nothing |
| MetricsInsight.ToNumIgnoresObjects | frontend/src/pages/MetricsInsightDialog.jsx:26-28 | a wrapped `{score}` object reads as 0 here, though the utilities' decoder unwraps it |
| MetricsInsight.DropGroupsGroup | frontend/src/pages/MetricsInsightDialog.jsx:31 | the lazy `\(.*?\)` substitution removes a parenthesised group that closes on the same line |
| MetricsInsight.NormIsNormal | frontend/src/pages/MetricsInsightDialog.jsx:30-31 | `norm` gives lower-case letters, digits and single underscores, with no underscore at either end |
| MetricsInsight.NormOfNormal | frontend/src/pages/MetricsInsightDialog.jsx:30-31 | an already normal key is left as it is |
| MetricsInsight.NormIdempotent | frontend/src/pages/MetricsInsightDialog.jsx:30-31 | normalising twice is normalising once |
| MetricsInsight.AliasesForShape | frontend/src/pages/MetricsInsightDialog.jsx:38-48 | the aliases contain the normalised metric, are all prefixes of it, and are distinct |
| MetricsInsight.MatchesAnyIff | frontend/src/pages/MetricsInsightDialog.jsx:33-36 | a key matches exactly when some target equals, contains or is contained in the normalised key |
| MetricsInsight.KeyInsideMetricMatches | frontend/src/pages/MetricsInsightDialog.jsx:33-36 | a key whose normal form lies inside the metric's normal form always matches |
| MetricsInsight.FirstMatchDecides | frontend/src/pages/MetricsInsightDialog.jsx:54-60 | the first matching entry across the three sources decides the value |
| MetricsInsight.NoMatchIsZero | frontend/src/pages/MetricsInsightDialog.jsx:62 | with no matching entry the value is 0 |
| MetricsInsight.FindValue | frontend/src/pages/MetricsInsightDialog.jsx:50-63 | the nested loops over the sources and their entries return the first match's `toNum`, else 0 |
| MetricsInsight.ScanEntries | frontend/src/pages/MetricsInsightDialog.jsx:55-60 | the inner loop stops at the first matching entry with its value; otherwise the search continues in the remaining entries |
| MetricsInsight.AddRow | frontend/src/pages/MetricsInsightDialog.jsx:70-73 | one row adds its value to the sum and 1 to the count of every listed metric, once per listing |
| MetricsInsight.AccumulatedStep | frontend/src/pages/MetricsInsightDialog.jsx:69-74 | after each row the sums are the column sums and the counts the row counts, scaled by how often the metric is listed |
| MetricsInsight.AccumulatedMean | frontend/src/pages/MetricsInsightDialog.jsx:76 | the final division gives the column mean, repeats in the metric list cancelling out |
| MetricsInsight.Zeroes | frontend/src/pages/MetricsInsightDialog.jsx:67-68 | every listed metric starts at sum 0 and count 0 |
| MetricsInsight.Means | frontend/src/pages/MetricsInsightDialog.jsx:75-76 | one entry per listed metric, the sum over the count or 0 for no rows |
| MetricsInsight.AverageByMetric | frontend/src/pages/MetricsInsightDialog.jsx:66-78 | one entry per listed metric, each the mean over all rows of the read value (a missing row list counting as none) |
| MetricsInsight.EmptyRowCountsAsZero | frontend/src/pages/MetricsInsightDialog.jsx:71-72 | a row without the metric still counts, as 0, and pulls the mean down |
| MetricsInsight.FoldMaxBounds | frontend/src/pages/MetricsInsightDialog.jsx:103 | the running maximum bounds every examined value and is the start or one of them |
| MetricsInsight.ModelsMaxFlat | frontend/src/pages/MetricsInsightDialog.jsx:98-107 | the three nested loops compute the running maximum over the examined values in order |
| MetricsInsight.ExaminedHas | frontend/src/pages/MetricsInsightDialog.jsx:98-101 | every listed metric of every row of every listed model is examined |
| MetricsInsight.ComputeMax | frontend/src/pages/MetricsInsightDialog.jsx:96-109 | the loops compute the maximum of the examined values, with 1 in place of 0 |
| MetricsInsight.RowsMaxLoop | frontend/src/pages/MetricsInsightDialog.jsx:99-106 | the row loop computes the running maximum over one model's rows |
| MetricsInsight.RowMaxLoop | frontend/src/pages/MetricsInsightDialog.jsx:100-105 | the metric loop computes the running maximum over one row |
| MetricsInsight.ComputeMaxBounds | frontend/src/pages/MetricsInsightDialog.jsx:96-109 | the scale is positive and bounds every examined value; it is one of them when some is positive, and 1 otherwise |
| PerQuestion.IndexOfIdNone | frontend/src/pages/MetricsInsightDialog.jsx:296 | `qMap.has(qid)` fails exactly when no entry has the id |
| PerQuestion.SetCellsEffect | frontend/src/pages/MetricsInsightDialog.jsx:304-307 | every selected metric gets the model's reading, and other metrics keep their cells |
| PerQuestion.UpsertIds | frontend/src/pages/MetricsInsightDialog.jsx:295-303 | a new id is appended at the end with its question; a known id keeps its place and its first question |
| PerQuestion.UpsertNewId | frontend/src/pages/MetricsInsightDialog.jsx:296-302 | an unseen id becomes a new last entry, earlier entries unchanged |
| PerQuestion.UpsertKnownId | frontend/src/pages/MetricsInsightDialog.jsx:296-303 | a seen id adds no entry and changes no id or question |
| PerQuestion.UpsertCells | frontend/src/pages/MetricsInsightDialog.jsx:303-307 | the id's entry holds the reading under the model for each selected metric; every other entry is untouched |
| PerQuestion.VisitCells | frontend/src/pages/MetricsInsightDialog.jsx:294-307 | after visiting a row, its id's entry holds `valueFromObject(r, mk)` under the model for each selected metric |
| PerQuestion.UpsertDistinct | frontend/src/pages/MetricsInsightDialog.jsx:291-303 | the map never holds one id twice |
| PerQuestion.VisitModelsDistinct | frontend/src/pages/MetricsInsightDialog.jsx:292-309 | after all models and rows, the entries still have distinct ids |
| PerQuestion.CmpAntisym | frontend/src/pages/MetricsInsightDialog.jsx:312-316 | the comparator is antisymmetric |
| PerQuestion.SortPermutation | frontend/src/pages/MetricsInsightDialog.jsx:311-312 | sorting rearranges the entries without adding or losing any |
| PerQuestion.SortOrdered | frontend/src/pages/MetricsInsightDialog.jsx:312-316 | the sorted entries are in comparator order |
| PerQuestion.SortNumeric | frontend/src/pages/MetricsInsightDialog.jsx:313-314 | with numeric ids throughout, the ids come out in ascending numeric order |
| PerQuestion.FillCells | frontend/src/pages/MetricsInsightDialog.jsx:304-307 | the metric loop writes the model's reading into each selected metric's cell |
| PerQuestion.VisitRow | frontend/src/pages/MetricsInsightDialog.jsx:294-308 | one row's visit creates or finds its entry and fills its cells |
| PerQuestion.VisitAllRows | frontend/src/pages/MetricsInsightDialog.jsx:293-308 | the row loop throws exactly when a row is `null` or `undefined`, and otherwise visits every row in order |
| PerQuestion.PerQuestionMatrix | frontend/src/pages/MetricsInsightDialog.jsx:290-318 | throws exactly when some selected model has an unreadable row; otherwise the first-seen entries, sorted by id |
| QuestionPaperForm.StoredCount | frontend/src/pages/QuestionPaperPage.jsx:77 | the stored count is never negative; it is the parsed integer when that is non-negative, and 0 when the text does not parse |
| QuestionPaperForm.StoredCountOneDigit | frontend/src/pages/QuestionPaperPage.jsx:77 | a digit followed by non-numeric text is stored as that digit, and a negative digit as 0 |
| QuestionPaperForm.Validation | frontend/src/pages/QuestionPaperPage.jsx:86-95 | the three checks in order: subject and PDFs, then at least one type, then counts summing to the parsed total; no error exactly when all three pass |
| QuestionPaperForm.NonNumericTotalFails | frontend/src/pages/QuestionPaperPage.jsx:93 | a total that does not parse never passes the sum check |
| QuestionPaperForm.InitialTotal | frontend/src/pages/QuestionPaperPage.jsx:44 | the initial total 5 parses to 5 |
| QuestionPaperForm.QuestionPaperPage.constructor | frontend/src/pages/QuestionPaperPage.jsx:39-51 | the initial state of every field |
| QuestionPaperForm.QuestionPaperPage.ChangeSubject | frontend/src/pages/QuestionPaperPage.jsx:53-58 | a new non-empty subject loads its PDF list and clears the PDF selection; an empty or unchanged subject leaves them |
| QuestionPaperForm.QuestionPaperPage.HandleTypeChange | frontend/src/pages/QuestionPaperPage.jsx:62-72 | a checked type is unchecked and loses its count; an unchecked type is appended; everything else stays |
| QuestionPaperForm.QuestionPaperPage.HandleDistributionChange | frontend/src/pages/QuestionPaperPage.jsx:74-79 | the type's count becomes the stored count of the text, other counts unchanged |
| QuestionPaperForm.QuestionPaperPage.Post | frontend/src/pages/QuestionPaperPage.jsx:111-119 | a reply fills the summary, questions and a success message; a failure shows the error message; loading ends either way |
| QuestionPaperForm.QuestionPaperPage.HandleGenerate | frontend/src/pages/QuestionPaperPage.jsx:81-120 | results are cleared; a validation error shows its message and sends nothing; otherwise the payload carries the form's fields with the total equal to the counts' sum, and the reply is handled |
| QuestionPaperForm.RemoveKeepsShape | frontend/src/pages/QuestionPaperPage.jsx:65-68 | removing a type's count keeps the keys distinct and the counts non-negative |
| QuestionPaperForm.PutKeepsShape | frontend/src/pages/QuestionPaperPage.jsx:75-78 | storing a count keeps the keys distinct and the counts non-negative, and adds only that key |
| LogViewerFilter.ObjectsMembers | frontend/src/pages/LogViewer.jsx:46 | exactly the non-null objects of the polled logs survive the first filter |
| LogViewerFilter.Tagged | frontend/src/pages/LogViewer.jsx:47 | each surviving entry is tagged with its position among the survivors as `id` |
| LogViewerFilter.WithIdId | frontend/src/pages/LogViewer.jsx:47 | a tagged entry's `id` reads as its index |
| LogViewerFilter.WithIdKeeps | frontend/src/pages/LogViewer.jsx:47 | every other field of the entry reads as before |
| LogViewerFilter.WithIdValues | frontend/src/pages/LogViewer.jsx:47-51 | the index is among the values the search looks through |
| LogViewerFilter.SelectedMembers | frontend/src/pages/LogViewer.jsx:48-52 | an entry is shown exactly when its level matches (or the level is `ALL`) and the lower-cased search text is found in its joined values (or the search is empty) |
| LogViewerFilter.FilteredOrigin | frontend/src/pages/LogViewer.jsx:45-52 | every shown row is a polled non-null object, tagged with its index, that passes the level and search tests |
| LogViewerFilter.FilteredKeeps | frontend/src/pages/LogViewer.jsx:45-52 | every tagged object that passes both tests is shown |
| LogViewerFilter.ShowAll | frontend/src/pages/LogViewer.jsx:45-52 | with level `ALL` and no search, every object is shown, tagged in order |
| LogViewerFilter.SelectedIsSubsequence | frontend/src/pages/LogViewer.jsx:48-52 | the filter keeps the rows in their order |
| LogViewerFilter.FilteredKeepsOrder | frontend/src/pages/LogViewer.jsx:45-52 | the shown rows are in log order and their ids strictly increase |
| LogViewerFilter.DetailPartsMembers | frontend/src/pages/LogViewer.jsx:36-38 | a `k: v` part is shown for exactly the entries whose key is not one of the six shown elsewhere |
| LogViewerFilter.DetailsIgnoreId | frontend/src/pages/LogViewer.jsx:34-40 | the added `id` never shows in the Details column |
| LogViewerFilter.DetailsOfFalsy | frontend/src/pages/LogViewer.jsx:35 | a missing row has empty details |
| LogViewerFilter.DetailsExample | frontend/src/pages/LogViewer.jsx:34-40 | an entry with a level, a string and a null shows `model: llama3`, a bar separator, then `ctx: null` |
| CleanText.JoinsHyphenatedWords | backend/src/utils.py:10 | a hyphen-newline pair is removed wherever it stands, splitting the substitution around it |
| CleanText.DropHyphenBreaksNoNewline | backend/src/utils.py:10 | without newlines the first substitution changes nothing |
| CleanText.RunsToSpaceNoChar | backend/src/utils.py:12-14 | replacing the runs of a non-space character removes it and brings in nothing but spaces |
| CleanText.SqueezeNoDoubleSpace | backend/src/utils.py:14 | after the space squeeze no two spaces are adjacent |
| CleanText.SqueezeSingleSpaces | backend/src/utils.py:14 | text with only single spaces passes the squeeze unchanged |
| CleanText.RunsToSpaceNoRuns | backend/src/utils.py:12 | text without newlines passes the newline substitution unchanged |
| CleanText.StripKeeps | backend/src/utils.py:15 | stripping keeps the no-newline and no-double-space properties |
| CleanText.FinalCleanShape | backend/src/utils.py:5-15 | every cleaned text is one line, with single spaces and no whitespace at either end |
| CleanText.FinalCleanFixes | backend/src/utils.py:5-15 | a text already in that shape is returned unchanged |
| CleanText.FinalCleanIdempotent | backend/src/utils.py:5-15 | cleaning twice is cleaning once |
| CleanText.HyphenatedWordJoined | backend/src/utils.py:5-15 | a clean line broken across two lines with a hyphen comes back whole |
| QuestionGeneration.SplitTextBlocks | backend/src/question_generation.py:64-69 | the blocks are the text's words joined `max_words` at a time |
| QuestionGeneration.JoinChunks | backend/src/question_generation.py:67-68 | the range loop joins each run of at most `max_words` words with single spaces |
| QuestionGeneration.ChunksFlatten | backend/src/question_generation.py:67-68 | the runs, put back together, are exactly the words |
| QuestionGeneration.ChunksSizes | backend/src/question_generation.py:67-68 | every run has between 1 and `max_words` words, and all but the last have exactly `max_words` |
| QuestionGeneration.TextBlocksSpec | backend/src/question_generation.py:64-69 | the blocks hold the text's words in order, `max_words` to a block except the last, and there are as many blocks as `max_words` needs to cover the words |
| QuestionGeneration.Summaries | backend/src/question_generation.py:75-90 | each block's summary lands at the block's own index, whatever order the workers finish in, a failed block giving "" |
| QuestionGeneration.DeepSummarize | backend/src/question_generation.py:59-99 | the returned level never exceeds `max_recursion`; stopping below it means the summary has at most `max_chunk_words` words |
| QuestionGeneration.NoWordsNoBlocks | backend/src/question_generation.py:64-71 | a text has no blocks exactly when it has no words |
| QuestionGeneration.AsWrittenAgrees | backend/src/question_generation.py:59-99 | for a text with words, the code as written returns the intended summary |
| QuestionGeneration.EmptyTextRaises | backend/src/question_generation.py:82 | a text without words makes a pool of zero workers, which raises |
| QuestionGeneration.EmptyTextEmptySummary | backend/src/question_generation.py:154-157 | as intended, a text without words summarises to "" on the first level |
| QuestionGeneration.KeptBlocksMembers | backend/src/question_generation.py:128-129 | a block is kept exactly when it does not mention exam questions |
| QuestionGeneration.FilterSummaryBlocks | backend/src/question_generation.py:126-130 | the filtered summary keeps exactly the summary's blocks that do not mention exam questions |
| QuestionGeneration.FilterSummaryUnchanged | backend/src/question_generation.py:126-130 | a summary with no matching block comes back unchanged |
| QuestionGeneration.HeadingMatches | backend/src/question_generation.py:129 | "Examination Questions" matches, whatever its case |
| QuestionGeneration.NoMatchInsideWord | backend/src/question_generation.py:129 | the trailing word boundary rejects a phrase followed by a word character |
| QuestionGeneration.Basename | backend/src/question_generation.py:40 | the base name is the part of the path after its last slash |
| QuestionGeneration.GetChunksByFilenames | backend/src/question_generation.py:37-49 | the loop over the zipped documents and metadata keeps, in order, the documents whose non-empty `source_pdf` has a requested base name |
| QuestionGeneration.MatchingOrigin | backend/src/question_generation.py:42-47 | every kept chunk comes from a position whose source is wanted |
| QuestionGeneration.MatchingKeeps | backend/src/question_generation.py:42-47 | every position whose source is wanted has its chunk kept |
| QuestionGeneration.BasenameIdempotent | backend/src/question_generation.py:40-45 | asking for a path or for its base name selects the same chunks |
| QuestionGeneration.SortedShape | backend/src/question_generation.py:16 | `sorted` gives an ordered permutation of the names |
| QuestionGeneration.SortedUnique | backend/src/question_generation.py:16 | two ordered permutations of the same names are equal |
| QuestionGeneration.MakeSummaryCacheKey | backend/src/question_generation.py:13-20 | the hashed stream is the subject, the sorted names, the LLM choice and the stripped extra context, in that order |
| QuestionGeneration.KeyIgnoresFileOrder | backend/src/question_generation.py:16 | choosing the same files in another order gives the same key |
| QuestionGeneration.KeyIgnoresContextPadding | backend/src/question_generation.py:19 | whitespace around the extra context does not change the key |
| QuestionGeneration.KeyPartsRun | backend/src/question_generation.py:14-19 | the parts are not delimited, so a file name can move into the subject without changing the key |
| RagChainCache.ReplaceChar | backend/app.py:29 | the result has the input's length, with every occurrence of the character replaced and nothing else changed |
| RagChainCache.UploadThenIngestFindsFile | backend/app.py:29-49 | the file name `upload_pdf` returns, joined onto the uploads directory by `ingest_pdf`, is where the file was saved, unless the subject is an absolute path |
| RagChainCache.ChromaDirShape | backend/app.py:53 | each subject's store is a directory under `outputs/` with one character per subject character, none a space or a capital |
| RagChainCache.UploadNameShape | backend/app.py:40 | the upload name ends with the whole original file name, after the subject with spaces turned into underscores |
| RagChainCache.ChromaDirFolds | backend/app.py:53 | subjects that differ only in case, or in spaces against underscores, share one store and one set of cached chains |
| RagChainCache.WithoutDir | backend/app.py:58-60 | exactly the entries of other directories remain, each unchanged |
| RagChainCache.ChainCache.constructor | backend/app.py:20 | the table starts empty |
| RagChainCache.ChainCache.ChainFor | backend/app.py:72-88 | a hit returns the stored chain and builds nothing; a miss builds one chain for the key and stores it, unless building raises |
| RagChainCache.ChainCache.Invalidate | backend/app.py:57-60 | the loop deletes exactly the keys of the subject's directory, for every LLM |
| RagChainCache.ChainCache.Ingest | backend/app.py:43-64 | a missing file and a failed ingestion give their error replies and leave the table alone; success drops exactly the subject's chains |
| RagChainCache.IngestThenAskMisses | backend/app.py:57-60 | after a successful ingest, every LLM's next question on the subject misses the table, while other subjects keep their chains |
| PdfLoaders.LoadPdfPages | backend/src/loaders.py:15-27 | the page loop returns the kept pages, in order, numbered from 1 by their position in the document |
| PdfLoaders.LoadedMembers | backend/src/loaders.py:17-27 | a page is returned exactly when the document has a kept page at its number, with that page's text unchanged |
| PdfLoaders.LoadedIncreasing | backend/src/loaders.py:17-27 | page numbers strictly increase |
| PdfLoaders.AllFullPagesKept | backend/src/loaders.py:19 | when every page has at least ten non-blank characters, every page is returned, numbered 1 to n |
| PdfLoaders.Loaded | src/loaders.py:14-21 | the older copy keeps and numbers the same pages, so it has the same model; never more pages than the document |

## Left out

- Rendering: JSX trees, charts, styling and layout are not modelled. Only the values the tables and chips display are.
- Rounding with `toFixed`: averages and cell values are exact `real`s. A chip records that it shows three decimals, not the rounded digits.
- Correlations: `pearson` in the insight dialog needs square roots and floating-point cancellation.
- Floating point: numbers are `real`s, with no NaN, no Infinity and no rounding. Backend JSON cannot carry NaN or Infinity. Because of this, `valueFromObject`'s skip of NaN numbers never fires.
- Number conversion: `+s` and `parseInt` are modelled for decimal text, plus the hexadecimal prefix of `parseInt`. `Infinity`, `0o`/`0b` literals and precision loss on long digit runs are not modelled.
- Number printing: `String(n)` prints integers exactly and other numbers as a decimal expansion of at most 20 digits. Exponent notation is not modelled.
- Network I/O: every `axios`/`fetch` call is a parameter carrying the reply or the rejection (`PageRequest.Reply`, `QuestionPaperForm.PostReply`). The log viewer's two-second polling is left out; the polled list is an input.
- LLM, embeddings, vector store, PDF parsing and spaCy:
  - `llm_summarize_func` is a function parameter returning `None` when it raises.
  - `extract_text` results are an input sequence.
  - `ingest_pdfs_to_chroma` and `get_rag_chain` are a flag saying whether they raise.
  - `chain.invoke` and `spacy_polish` in `ask_question` are not modelled; the model stops at the chain it looked up.
  - Vector-store metadata is reduced to its `source_pdf` entry.
- Concurrency: the `ThreadPoolExecutor` of the summariser is modelled by its outcome, each summary stored at its block's index; completion order is not modelled. The `cache_lock` is left out, and the chain cache is sequential.
- Hashing and files:
  - SHA-256 is left out; `QuestionGeneration.MakeSummaryCacheKey` gives the text the hash is taken over.
  - The pickle summary cache, the upload file write and the existence check of `ingest_pdf` are left out; the existence check is a flag.
  - The text is treated as characters, not as its UTF-8 encoding.
- Logging: `print`, `logging` and the `pdfplumber` context manager are left out.
- Final compression: the compression step of `summarize_selected_pdfs` (an LLM call when a summary exceeds 1800 words, then a slice) is not modelled.
- Case folding is ASCII only, `\w` in `filter_summary` is ASCII word characters, and `localeCompare` is code-unit order.
- `os.path` is POSIX (`basename`, `join`).
- The `RegExp` of `resolveMetricValue` assumes metric keys are plain identifiers, so its test is a literal prefix followed by `(`, `_` or the end.
- Object identity and key order: `===` and `Map` keys compare rows and ids structurally, not by reference, and `Entries` keeps insertion order where `Object.keys` lists integer-like keys first. With mixed numeric and string question ids, the per-question sort's comparator is inconsistent and the engine's order is not modelled. This affects `CompareUtils.FindById` and `PerQuestion`.
- Object keys are assumed distinct in the lemmas that need it, since JavaScript objects cannot repeat a key.
- Plain setters, such as the difficulty or LLM choice of the question-paper form, are fields the model does not update beyond the constructor.
- QuestionPaperForm.QuestionPaperPage.HandleDistributionChange: requires the type to be checked, because the count field of an unchecked type is disabled (frontend/src/pages/QuestionPaperPage.jsx:222).
- QuestionGeneration.SplitTextBlocks: requires `max_words > 0`. Python's `range` raises on a step of 0, and the only caller passes 1200. The same holds for `JoinChunks` and `DeepSummarize`.

## Findings

| source | as written | input that shows it | evidently intended | confidence | as-written member | corrected member |
|---|---|---|---|---|---|---|
| frontend/src/pages/CompareLLMPage.jsx:31 | the initial column state spreads `DEFAULT_METRICS.nlp`, but the imported defaults have `retrieval`, `nvidia` and `language` only, so the spread of `undefined` throws | the first render of the page | spread the catalogue's keys (`language`), so each category starts with its defaults | high, not executed | CompareLlmPageState.InitialSpreadThrows | CompareLlmPageState.CatalogueSpreadShows |
| frontend/src/pages/CompareLLMPage.jsx:196-202 | the aggregated table is mounted without `metricCategories`, and it reads `metricCategories.forEach` | any result with two models selected and the table mode set to aggregated | pass `METRIC_CATEGORIES`, so every selected model gets an average for every metric | high, not executed | CompareLlmPageState.AggregatedWithoutCategoriesFails | CompareLlmPageState.AggregatedWithCatalogueShows |
| frontend/src/pages/EvaluationPage.jsx:22-26 | the page's own defaults are keyed `nlp`, while the third category's key is `language`, so choosing it installs no columns | changing the category to `language` from the initial state | key the defaults `language`, so every category shows its default columns | medium, not executed | EvaluationPageState.LanguageShowsNothing | EvaluationPageState.LanguageDefaultsShowSomething |
| backend/src/question_generation.py:82 | a text without words gives no blocks and a pool of `min(2, 0)` workers, which raises, although lines 154-157 expect an empty summary (`DeepSummarizeAsWritten`; the intended `DeepSummarize` is what the rest of the model uses) | no chunk matched the selected files, so `long_text` is `""` | summarise to `""` and skip the cache | high, not executed | QuestionGeneration.EmptyTextRaises | QuestionGeneration.EmptyTextEmptySummary |
