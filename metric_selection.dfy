/** The "Show Columns" reducers shared by frontend/src/pages/EvaluationPage.jsx
    and frontend/src/pages/CompareLLMPage.jsx: `shownMetrics` holds one
    list of metric columns per category key, the toggle edits the current
    category's list and the category change installs defaults. */
module MetricSelection {
  import opened Wrappers
  import opened OrderedSet

  /** `shownMetrics`; a key mapped to `None` is present with the value
      `undefined`. */
  type Shown = map<string, Option<seq<string>>>

  /** `prev[key] || []` */
  function ListOf(shown: Shown, key: string): seq<string> {
    if key in shown && shown[key].Some? then shown[key].value else []
  }

  /** `handleMetricToggle(metric)` while `key` is the current category. */
  function Toggled(shown: Shown, key: string, metric: string): Shown {
    var prev := ListOf(shown, key);
    if metric in prev then
      if |prev| == 1 then shown else shown[key := Some(Delete(prev, metric))]
    else shown[key := Some(prev + [metric])]
  }

  /** `handleCategoryChange`: a non-empty list stays, anything else is
      replaced by the category's defaults (`undefined` when there are none). */
  function CategoryChanged(shown: Shown, defaults: map<string, seq<string>>, newCat: string): Shown {
    shown[newCat := if ListOf(shown, newCat) != [] then shown[newCat]
                    else if newCat in defaults then Some(defaults[newCat])
                    else None]
  }

  /** The lists a reducer keeps meaningful: no metric twice. */
  predicate WellFormed(shown: Shown) {
    forall k :: k in shown && shown[k].Some? ==> NoDups(shown[k].value)
  }

  // ------------------------------------------------------------ deletion

  /** Filtering out a member of a repeat-free list removes exactly its
      one position. */
  lemma {:induction false} DeleteAt(xs: seq<string>, i: nat)
    requires NoDups(xs) && i < |xs|
    ensures Delete(xs, xs[i]) == xs[..i] + xs[i + 1..]
    decreases |xs|
  {
    if i == 0 {
      assert xs[0] !in xs[1..];
      DeleteAbsent(xs[1..], xs[0]);
    } else {
      assert NoDups(xs[1..]);
      DeleteAt(xs[1..], i - 1);
      assert xs[1..][i - 1] == xs[i];
      assert xs[1..][..i - 1] == xs[1..i];
      assert xs[1..][i..] == xs[i + 1..];
      assert [xs[0]] + xs[1..i] == xs[..i];
    }
  }

  // ---------------------------------------------------------- the toggle

  /** Only the current category's list can change. */
  lemma ToggleKeepsOthers(shown: Shown, key: string, metric: string, k: string)
    requires k != key
    ensures k in Toggled(shown, key, metric) <==> k in shown
    ensures k in shown ==> Toggled(shown, key, metric)[k] == shown[k]
  {
  }

  /** The toggle is the one-element symmetric difference, except that the
      last remaining metric cannot be removed: then nothing changes at all. */
  lemma ToggleEffect(shown: Shown, key: string, metric: string)
    requires WellFormed(shown)
    ensures var prev := ListOf(shown, key);
      var r := Toggled(shown, key, metric);
      && (prev == [metric] ==> r == shown)
      && (metric in prev && prev != [metric] ==>
            exists i :: 0 <= i < |prev| && prev[i] == metric && ListOf(r, key) == prev[..i] + prev[i + 1..])
      && (metric !in prev ==> ListOf(r, key) == prev + [metric])
      && WellFormed(r)
  {
    var prev := ListOf(shown, key);
    var r := Toggled(shown, key, metric);
    assert NoDups(prev);
    if metric in prev {
      var i :| 0 <= i < |prev| && prev[i] == metric;
      if |prev| == 1 {
        assert prev == [metric];
      } else {
        DeleteAt(prev, i);
        DeleteNoDups(prev, metric);
        assert prev != [metric] by {
          assert |prev| != 1;
        }
        assert ListOf(r, key) == prev[..i] + prev[i + 1..];
      }
    } else {
      AppendNoDups(prev, [metric]);
    }
  }

  /** A non-empty list of the current category never becomes empty. */
  lemma ToggleNeverEmpties(shown: Shown, key: string, metric: string)
    requires WellFormed(shown)
    requires ListOf(shown, key) != []
    ensures ListOf(Toggled(shown, key, metric), key) != []
  {
    var prev := ListOf(shown, key);
    if metric in prev && |prev| > 1 {
      var i :| 0 <= i < |prev| && prev[i] == metric;
      DeleteAt(prev, i);
      assert |prev[..i] + prev[i + 1..]| == |prev| - 1;
    }
  }

  /** Adding a metric to a non-empty list and then removing it restores
      the list. From an empty list the added metric is the last one and
      stays. */
  lemma ToggleTwice(shown: Shown, key: string, metric: string)
    requires WellFormed(shown)
    requires metric !in ListOf(shown, key)
    ensures ListOf(shown, key) == [] ==>
      ListOf(Toggled(Toggled(shown, key, metric), key, metric), key) == [metric]
    ensures ListOf(shown, key) != [] ==>
      ListOf(Toggled(Toggled(shown, key, metric), key, metric), key) == ListOf(shown, key)
  {
    var prev := ListOf(shown, key);
    var mid := Toggled(shown, key, metric);
    assert ListOf(mid, key) == prev + [metric];
    AppendNoDups(prev, [metric]);
    assert (prev + [metric])[|prev|] == metric;
    DeleteAt(prev + [metric], |prev|);
    assert (prev + [metric])[..|prev|] == prev;
    assert prev != [] ==> |prev + [metric]| != 1;
  }

  // ----------------------------------------------------- category change

  /** A category change touches only the new category's entry; a non-empty
      list survives it, an empty or missing one becomes the defaults. */
  lemma CategoryChangedEffect(shown: Shown, defaults: map<string, seq<string>>, newCat: string)
    ensures var r := CategoryChanged(shown, defaults, newCat);
      && newCat in r
      && (forall k :: k != newCat ==> (k in r <==> k in shown))
      && (forall k :: k != newCat && k in shown ==> r[k] == shown[k])
      && (ListOf(shown, newCat) != [] ==> ListOf(r, newCat) == ListOf(shown, newCat))
      && (ListOf(shown, newCat) == [] && newCat in defaults ==> ListOf(r, newCat) == defaults[newCat])
      && (ListOf(shown, newCat) == [] && newCat !in defaults ==> ListOf(r, newCat) == [])
  {
  }

  /** With repeat-free, non-empty defaults for a key, switching to that
      key always leaves a well-formed, non-empty list on display. */
  lemma CategoryChangedShows(shown: Shown, defaults: map<string, seq<string>>, newCat: string)
    requires WellFormed(shown)
    requires newCat in defaults && defaults[newCat] != [] && NoDups(defaults[newCat])
    ensures ListOf(CategoryChanged(shown, defaults, newCat), newCat) != []
    ensures WellFormed(CategoryChanged(shown, defaults, newCat))
  {
  }
}
