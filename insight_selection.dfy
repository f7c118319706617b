/** The category list of frontend/src/pages/MetricsInsightDialog.jsx and
    its metric-selection reducers: the default selection, "select all",
    and the per-category and per-metric toggles over a `Set` copy of the
    selection. The drill-down tab repeats the same reducers on a second
    selection, so the functions here model both. */
module InsightSelection {
  import opened Wrappers
  import opened Assoc
  import opened JsValues
  import opened OrderedSet
  import opened MetricUtils

  /** `BASE_METRIC_CATEGORIES` */
  const BaseCategories: seq<Category> := [
    Category("retrieval", "Retrieval", ["context_precision", "context_recall", "faithfulness"]),
    Category("nvidia", "Nvidia", ["nv_accuracy", "nv_context_relevance", "nv_response_groundedness"]),
    Category("language", "Language", ["factual_correctness", "semantic_similarity", "bleu_score", "rouge_score"])
  ]

  /** The metrics of the base categories, one after the other. */
  const Known: seq<string> := [
    "context_precision", "context_recall", "faithfulness",
    "nv_accuracy", "nv_context_relevance", "nv_response_groundedness",
    "factual_correctness", "semantic_similarity", "bleu_score", "rouge_score"
  ]

  // ------------------------------------------------------------ categories

  /** `cats.flatMap(c => c.metrics)`, which is `ALL_METRICS`. */
  function AllMetrics(cats: seq<Category>): seq<string>
    decreases |cats|
  {
    if cats == [] then [] else cats[0].metrics + AllMetrics(cats[1..])
  }

  lemma {:induction false} AllMetricsAppend(a: seq<Category>, b: seq<Category>)
    ensures AllMetrics(a + b) == AllMetrics(a) + AllMetrics(b)
    decreases |a|
  {
    if a != [] {
      assert (a + b)[1..] == a[1..] + b;
      AllMetricsAppend(a[1..], b);
    } else {
      assert a + b == b;
    }
  }

  /** A metric belongs to `ALL_METRICS` exactly when some category lists it. */
  lemma {:induction false} AllMetricsMembers(cats: seq<Category>, m: string)
    ensures m in AllMetrics(cats) <==> exists i :: 0 <= i < |cats| && m in cats[i].metrics
    decreases |cats|
  {
    if cats != [] {
      AllMetricsMembers(cats[1..], m);
      if m in AllMetrics(cats[1..]) {
        var i :| 0 <= i < |cats[1..]| && m in cats[1..][i].metrics;
        assert m in cats[i + 1].metrics;
      }
      forall i | 0 < i < |cats| && m in cats[i].metrics
        ensures m in AllMetrics(cats[1..])
      {
        assert cats[1..][i - 1] == cats[i];
      }
    }
  }

  lemma KnownIsBase()
    ensures AllMetrics(BaseCategories) == Known
  {
    assert BaseCategories[1..][1..][1..] == [];
  }

  lemma KnownNoDups()
    ensures NoDups(Known)
  {
  }

  /** `Object.keys(metricLabels || {})`: a falsy value and a value that is
      not an object give no keys. */
  function LabelKeys(labels: Value): seq<string> {
    KeysOf(Entries(labels))
  }

  /** `.filter(k => !known.has(k))` */
  function Unknown(keys: seq<string>, known: seq<string>): (r: seq<string>)
    ensures |r| <= |keys|
    decreases |keys|
  {
    if keys == [] then []
    else (if keys[0] in known then [] else [keys[0]]) + Unknown(keys[1..], known)
  }

  lemma {:induction false} UnknownMembers(keys: seq<string>, known: seq<string>, k: string)
    ensures k in Unknown(keys, known) <==> k in keys && k !in known
    decreases |keys|
  {
    if keys != [] {
      UnknownMembers(keys[1..], known, k);
      assert keys == [keys[0]] + keys[1..];
    }
  }

  lemma {:induction false} UnknownNoDups(keys: seq<string>, known: seq<string>)
    requires NoDups(keys)
    ensures NoDups(Unknown(keys, known))
    decreases |keys|
  {
    if keys != [] {
      UnknownNoDups(keys[1..], known);
      UnknownMembers(keys[1..], known, keys[0]);
      assert keys[0] !in keys[1..];
      var rest := Unknown(keys[1..], known);
      if keys[0] !in known {
        assert keys[0] !in rest;
        forall i, j | 0 <= i < j < |[keys[0]] + rest|
          ensures ([keys[0]] + rest)[i] != ([keys[0]] + rest)[j]
        {
          if i > 0 {
            assert ([keys[0]] + rest)[i] == rest[i - 1];
          }
          assert ([keys[0]] + rest)[j] == rest[j - 1];
        }
      }
    }
  }

  /** `categories`: the base categories, plus an "Other" category holding
      the label keys no base category lists, when there are any. */
  function Categories(labels: Value): seq<Category> {
    var extra := Unknown(LabelKeys(labels), Known);
    BaseCategories + (if extra != [] then [Category("other", "Other", extra)] else [])
  }

  /** The base categories always come first; "Other" is added exactly
      when some label key is unknown and holds exactly those keys; every
      label key ends up in `ALL_METRICS`, which holds nothing else. */
  lemma CategoriesShape(labels: Value)
    ensures |Categories(labels)| >= 3 && Categories(labels)[..3] == BaseCategories
    ensures |Categories(labels)| == 4 <==> exists k :: k in LabelKeys(labels) && k !in Known
    ensures |Categories(labels)| == 4 ==>
      Categories(labels)[3].key == "other" &&
      forall k :: k in Categories(labels)[3].metrics <==> k in LabelKeys(labels) && k !in Known
    ensures forall k :: k in AllMetrics(Categories(labels)) <==> k in Known || k in LabelKeys(labels)
  {
    var keys := LabelKeys(labels);
    var extra := Unknown(keys, Known);
    var cats := Categories(labels);
    var tail := if extra != [] then [Category("other", "Other", extra)] else [];
    assert cats == BaseCategories + tail;
    assert cats[..3] == BaseCategories;
    forall k ensures k in extra <==> k in keys && k !in Known {
      UnknownMembers(keys, Known, k);
    }
    if extra != [] {
      assert extra[0] in keys && extra[0] !in Known;
    }
    KnownIsBase();
    AllMetricsAppend(BaseCategories, tail);
    assert AllMetrics(tail) == extra by {
      if extra != [] {
        assert tail[1..] == [];
      }
    }
  }

  /** Object keys are distinct, so `ALL_METRICS` lists no metric twice. */
  lemma AllMetricsNoDups(labels: Value)
    requires NoDups(LabelKeys(labels))
    ensures NoDups(AllMetrics(Categories(labels)))
  {
    var keys := LabelKeys(labels);
    var extra := Unknown(keys, Known);
    var tail := if extra != [] then [Category("other", "Other", extra)] else [];
    UnknownNoDups(keys, Known);
    KnownIsBase();
    AllMetricsAppend(BaseCategories, tail);
    assert AllMetrics(tail) == extra by {
      if extra != [] {
        assert tail[1..] == [];
      }
    }
    forall k | k in extra
      ensures k !in Known
    {
      UnknownMembers(keys, Known, k);
    }
    KnownNoDups();
    AppendNoDups(Known, extra);
  }

  // ------------------------------------------------------------ selection

  /** `getDefaultSelection()`: the first metric of each category, leaving
      out empty categories and empty names. */
  function DefaultSelection(cats: seq<Category>): (r: seq<string>)
    ensures |r| <= |cats|
    decreases |cats|
  {
    if cats == [] then []
    else
      (if cats[0].metrics != [] && cats[0].metrics[0] != "" then [cats[0].metrics[0]] else [])
      + DefaultSelection(cats[1..])
  }

  /** Every default pick is a non-empty metric name of `ALL_METRICS`. */
  lemma {:induction false} DefaultSelectionShape(cats: seq<Category>, i: nat)
    requires i < |DefaultSelection(cats)|
    ensures DefaultSelection(cats)[i] != "" && DefaultSelection(cats)[i] in AllMetrics(cats)
    decreases |cats|
  {
    var head := if cats[0].metrics != [] && cats[0].metrics[0] != "" then [cats[0].metrics[0]] else [];
    if i >= |head| {
      DefaultSelectionShape(cats[1..], i - |head|);
    }
  }

  lemma {:induction false} DefaultSelectionAppend(a: seq<Category>, b: seq<Category>)
    ensures DefaultSelection(a + b) == DefaultSelection(a) + DefaultSelection(b)
    decreases |a|
  {
    if a != [] {
      assert (a + b)[1..] == a[1..] + b;
      DefaultSelectionAppend(a[1..], b);
    } else {
      assert a + b == b;
    }
  }

  /** With the base categories in front, the default selection starts
      with their first metrics. */
  lemma DefaultStartsWithBase(labels: Value)
    ensures |DefaultSelection(Categories(labels))| >= 3
    ensures DefaultSelection(Categories(labels))[..3] == ["context_precision", "nv_accuracy", "factual_correctness"]
  {
    var extra := Unknown(LabelKeys(labels), Known);
    var tail := if extra != [] then [Category("other", "Other", extra)] else [];
    DefaultSelectionAppend(BaseCategories, tail);
    assert DefaultSelection(BaseCategories) == ["context_precision", "nv_accuracy", "factual_correctness"] by {
      assert BaseCategories[1..][1..][1..] == [];
    }
  }

  /** The mount effect: an empty selection becomes the default once there
      are categories; anything else is kept. */
  function InitialSelection(selected: seq<string>, cats: seq<Category>): (r: seq<string>)
    ensures |selected| > 0 ==> r == selected
  {
    if |selected| == 0 && |cats| > 0 then DefaultSelection(cats) else selected
  }

  /** `toggleAllMetrics`: "all selected" is a length test; it then falls
      back to the default selection, and otherwise selects every metric. */
  function ToggleAll(selected: seq<string>, cats: seq<Category>): seq<string> {
    if |selected| == |AllMetrics(cats)| then DefaultSelection(cats) else AllMetrics(cats)
  }

  lemma {:induction false} NoDupsCard(xs: seq<string>)
    requires NoDups(xs)
    ensures |set x | x in xs| == |xs|
    decreases |xs|
  {
    if xs != [] {
      var init := xs[..|xs| - 1];
      NoDupsCard(init);
      assert xs == init + [xs[|xs| - 1]];
      assert (set x | x in xs) == (set x | x in init) + {xs[|xs| - 1]};
    }
  }

  lemma {:induction false} SubsetCardLe(a: set<string>, b: set<string>)
    requires a <= b
    ensures |a| <= |b|
    decreases |a|
  {
    if a != {} {
      var y :| y in a;
      SubsetCardLe(a - {y}, b - {y});
    }
  }

  lemma SubsetCard(a: set<string>, b: set<string>)
    requires a <= b && |a| == |b|
    ensures a == b
  {
    if a != b {
      var x :| x in b && x !in a;
      SubsetCardLe(a, b - {x});
    }
  }

  /** For a repeat-free selection drawn from `ALL_METRICS`, the length test
      of `toggleAllMetrics` holds exactly when every metric is selected. */
  lemma AllSelectedIff(selected: seq<string>, labels: Value)
    requires NoDups(selected) && NoDups(LabelKeys(labels))
    requires forall m :: m in selected ==> m in AllMetrics(Categories(labels))
    ensures |selected| == |AllMetrics(Categories(labels))| <==>
      forall m :: m in AllMetrics(Categories(labels)) ==> m in selected
  {
    var all := AllMetrics(Categories(labels));
    AllMetricsNoDups(labels);
    NoDupsCard(selected);
    NoDupsCard(all);
    var s := set x | x in selected;
    var t := set x | x in all;
    if |selected| == |all| {
      SubsetCard(s, t);
      forall m | m in all
        ensures m in selected
      {
        assert m in t;
      }
    }
    if forall m :: m in all ==> m in selected {
      assert s == t;
    }
  }

  /** `toggleAllMetrics` on a repeat-free selection drawn from
      `ALL_METRICS`: with every metric selected it falls back to the
      default selection, and otherwise it selects every metric. */
  lemma ToggleAllEffect(selected: seq<string>, labels: Value)
    requires NoDups(selected) && NoDups(LabelKeys(labels))
    requires forall m :: m in selected ==> m in AllMetrics(Categories(labels))
    ensures (forall m :: m in AllMetrics(Categories(labels)) ==> m in selected) ==>
      ToggleAll(selected, Categories(labels)) == DefaultSelection(Categories(labels))
    ensures !(forall m :: m in AllMetrics(Categories(labels)) ==> m in selected) ==>
      ToggleAll(selected, Categories(labels)) == AllMetrics(Categories(labels))
  {
    AllSelectedIff(selected, labels);
  }

  /** `toggleMetric(m)`: delete `m` from the set copy when present,
      otherwise add it at the end. */
  function ToggleMetric(selected: seq<string>, m: string): (r: seq<string>)
    ensures forall x :: x in r <==> (x in selected <==> x != m)
    ensures NoDups(r)
  {
    var s := FromSeq(selected);
    if m in s then (DeleteNoDups(s, m); Delete(s, m)) else Add(s, m)
  }

  /** Toggling an unselected metric twice restores a repeat-free selection,
      order included. */
  lemma ToggleMetricTwice(selected: seq<string>, m: string)
    requires NoDups(selected) && m !in selected
    ensures ToggleMetric(ToggleMetric(selected, m), m) == selected
  {
    FromSeqNoDups(selected);
    var once := selected + [m];
    assert ToggleMetric(selected, m) == once;
    FromSeqNoDups(once);
    DeleteAppend(selected, m);
  }

  lemma {:induction false} DeleteAppend(xs: seq<string>, m: string)
    requires m !in xs
    ensures Delete(xs + [m], m) == xs
    decreases |xs|
  {
    if xs == [] {
      assert [m][1..] == [];
    } else {
      assert (xs + [m])[1..] == xs[1..] + [m];
      DeleteAppend(xs[1..], m);
      assert xs == [xs[0]] + xs[1..];
    }
  }

  /** `cat.metrics.every(m => setSel.has(m))` */
  predicate AllIn(ms: seq<string>, s: seq<string>) {
    forall m :: m in ms ==> m in s
  }

  /** `ms.forEach(m => setSel.delete(m))` */
  function DeleteAll(s: seq<string>, ms: seq<string>): seq<string>
    decreases |ms|
  {
    if ms == [] then s else DeleteAll(Delete(s, ms[0]), ms[1..])
  }

  /** `ms.forEach(m => setSel.add(m))` */
  function AddAll(s: seq<string>, ms: seq<string>): seq<string>
    decreases |ms|
  {
    if ms == [] then s else AddAll(Add(s, ms[0]), ms[1..])
  }

  lemma {:induction false} DeleteAllMembers(s: seq<string>, ms: seq<string>)
    requires NoDups(s)
    ensures forall x :: x in DeleteAll(s, ms) <==> x in s && x !in ms
    ensures NoDups(DeleteAll(s, ms))
    decreases |ms|
  {
    if ms != [] {
      DeleteNoDups(s, ms[0]);
      DeleteAllMembers(Delete(s, ms[0]), ms[1..]);
      assert ms == [ms[0]] + ms[1..];
    }
  }

  lemma {:induction false} AddAllMembers(s: seq<string>, ms: seq<string>)
    requires NoDups(s)
    ensures forall x :: x in AddAll(s, ms) <==> x in s || x in ms
    ensures NoDups(AddAll(s, ms))
    decreases |ms|
  {
    if ms != [] {
      AddAllMembers(Add(s, ms[0]), ms[1..]);
      assert ms == [ms[0]] + ms[1..];
    }
  }

  /** The selection `toggleCategory(cat)` installs. */
  function CategoryToggled(selected: seq<string>, ms: seq<string>): seq<string> {
    var s := FromSeq(selected);
    if AllIn(ms, s) then DeleteAll(s, ms) else AddAll(s, ms)
  }

  /** After a category toggle the category is wholly selected or wholly
      unselected (unselected exactly when it was wholly selected before),
      every metric outside it keeps its state, and nothing repeats. */
  lemma CategoryToggledEffect(selected: seq<string>, ms: seq<string>)
    ensures AllIn(ms, selected) ==> forall m :: m in ms ==> m !in CategoryToggled(selected, ms)
    ensures !AllIn(ms, selected) ==> forall m :: m in ms ==> m in CategoryToggled(selected, ms)
    ensures forall x :: x !in ms ==> (x in CategoryToggled(selected, ms) <==> x in selected)
    ensures NoDups(CategoryToggled(selected, ms))
  {
    var s := FromSeq(selected);
    DeleteAllMembers(s, ms);
    AddAllMembers(s, ms);
  }

  /** `toggleCategory(cat)`: the forEach over the category's metrics on a
      `Set` copy of the selection, deleting each when all were selected
      and adding each otherwise. */
  method ToggleCategory(selected: seq<string>, cat: Category) returns (r: seq<string>)
    ensures r == CategoryToggled(selected, cat.metrics)
  {
    var copy := FromSeq(selected);
    if AllIn(cat.metrics, copy) {
      r := DeleteEach(copy, cat.metrics);
    } else {
      r := AddEach(copy, cat.metrics);
    }
  }

  /** `ms.forEach(m => next.delete(m))` */
  method DeleteEach(s: seq<string>, ms: seq<string>) returns (r: seq<string>)
    ensures r == DeleteAll(s, ms)
  {
    r := s;
    assert ms[0..] == ms;
    for i := 0 to |ms|
      invariant DeleteAll(r, ms[i..]) == DeleteAll(s, ms)
    {
      assert ms[i..][1..] == ms[i + 1..];
      r := Delete(r, ms[i]);
    }
    assert ms[|ms|..] == [];
  }

  /** `ms.forEach(m => next.add(m))` */
  method AddEach(s: seq<string>, ms: seq<string>) returns (r: seq<string>)
    ensures r == AddAll(s, ms)
  {
    r := s;
    assert ms[0..] == ms;
    for i := 0 to |ms|
      invariant AddAll(r, ms[i..]) == AddAll(s, ms)
    {
      assert ms[i..][1..] == ms[i + 1..];
      r := Add(r, ms[i]);
    }
    assert ms[|ms|..] == [];
  }
}
