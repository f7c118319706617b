/** The per-question drill-down of frontend/src/pages/MetricsInsightDialog.jsx
    (`perQuestionMatrix`): every selected model's rows are grouped by
    question id in a `Map` that keeps first-seen order, each entry
    collects `cells[metric][model]`, and the entries are then sorted by
    id. */
module PerQuestion {
  import opened Wrappers
  import opened Text
  import opened JsValues
  import opened CompareUtils
  import opened MetricsInsight

  /** One question: its id, its text and `cells[metric][model]`. */
  datatype QEntry = QEntry(id: Value, question: Value, cells: map<string, map<string, real>>)

  /** `r.id ?? idx + 1` */
  function QidOf(r: Value, idx: nat): Value {
    Coalesce(Get(r, "id"), Num((idx + 1) as real))
  }

  /** `r.question || r.user_input || `Q${qid}`` */
  function QuestionOf(r: Value, qid: Value): Value {
    if Truthy(Get(r, "question")) then Get(r, "question")
    else if Truthy(Get(r, "user_input")) then Get(r, "user_input")
    else Str("Q" + ToJsString(qid))
  }

  /** The ids of the entries, in the map's order. */
  function Ids(es: seq<QEntry>): (ids: seq<Value>)
    ensures |ids| == |es|
    decreases |es|
  {
    if es == [] then [] else Ids(es[..|es| - 1]) + [es[|es| - 1].id]
  }

  lemma {:induction false} IdsAt(es: seq<QEntry>, i: nat)
    requires i < |es|
    ensures Ids(es)[i] == es[i].id
    decreases |es|
  {
    if i < |es| - 1 {
      IdsAt(es[..|es| - 1], i);
    }
  }

  /** A `Map` never holds a key twice. */
  predicate DistinctIds(es: seq<QEntry>) {
    forall i, j :: 0 <= i < j < |es| ==> es[i].id != es[j].id
  }

  /** `qMap.has(qid)` and `qMap.get(qid)`: where the entry for `id` sits. */
  function IndexOfId(es: seq<QEntry>, id: Value): (r: Option<nat>)
    ensures r.Some? ==> r.value < |es| && es[r.value].id == id
    decreases |es|
  {
    if es == [] then None
    else if es[0].id == id then Some(0)
    else
      var r := IndexOfId(es[1..], id);
      if r.Some? then Some(r.value + 1) else None
  }

  /** The search misses exactly when no entry has the id. */
  lemma {:induction false} IndexOfIdNone(es: seq<QEntry>, id: Value)
    ensures IndexOfId(es, id).None? <==> forall i :: 0 <= i < |es| ==> es[i].id != id
    decreases |es|
  {
    if es != [] {
      IndexOfIdNone(es[1..], id);
      forall i | 1 <= i < |es|
        ensures es[i] == es[1..][i - 1]
      {
      }
    }
  }

  /** `selectedDrillMetrics.forEach(mk => ...)` on one entry: the cell of
      `model` under every selected metric gets the row's reading `vals`. */
  function SetCells(cells: map<string, map<string, real>>, model: string, vals: map<string, real>, ms: seq<string>)
    : map<string, map<string, real>>
    decreases |ms|
  {
    if ms == [] then cells
    else
      var inner := if ms[0] in cells then cells[ms[0]] else map[];
      var v := if ms[0] in vals then vals[ms[0]] else 0.0;
      SetCells(cells[ms[0] := inner[model := v]], model, vals, ms[1..])
  }

  /** After the metric loop every selected metric has a cell map whose
      entry for `model` is the row's value and whose other models are as
      before; unselected metrics keep their cells. */
  lemma {:induction false} SetCellsEffect(cells: map<string, map<string, real>>, model: string,
                                          vals: map<string, real>, ms: seq<string>, mk: string)
    requires mk in ms ==> mk in vals
    ensures mk in SetCells(cells, model, vals, ms) <==> mk in cells || mk in ms
    ensures mk in ms ==>
      SetCells(cells, model, vals, ms)[mk] == (if mk in cells then cells[mk] else map[])[model := vals[mk]]
    ensures mk !in ms && mk in cells ==> SetCells(cells, model, vals, ms)[mk] == cells[mk]
    decreases |ms|
  {
    if ms != [] {
      var inner := if ms[0] in cells then cells[ms[0]] else map[];
      var v := if ms[0] in vals then vals[ms[0]] else 0.0;
      var cells' := cells[ms[0] := inner[model := v]];
      assert ms == [ms[0]] + ms[1..];
      SetCellsEffect(cells', model, vals, ms[1..], mk);
      if mk == ms[0] && mk in ms[1..] {
        var once := inner[model := vals[mk]];
        assert once[model := vals[mk]] == once;
      }
    }
  }

  /** Find the entry for `qid`, creating it with text `q` and no cells when
      the id is new, then set its cells from the row's reading `vals`. */
  function Upsert(es: seq<QEntry>, qid: Value, q: Value, model: string, vals: map<string, real>, ms: seq<string>)
    : (es': seq<QEntry>)
    ensures |es| <= |es'| <= |es| + 1
  {
    var found := IndexOfId(es, qid);
    if found.None? then es + [QEntry(qid, q, SetCells(map[], model, vals, ms))]
    else es[found.value := es[found.value].(cells := SetCells(es[found.value].cells, model, vals, ms))]
  }

  /** One `rows.forEach` step. */
  function Visit(es: seq<QEntry>, model: string, r: Value, idx: nat, ms: seq<string>): seq<QEntry> {
    Upsert(es, QidOf(r, idx), QuestionOf(r, QidOf(r, idx)), model, Reading(r, set m | m in ms), ms)
  }

  lemma {:induction false} IdsSame(a: seq<QEntry>, b: seq<QEntry>)
    requires |a| == |b|
    requires forall i :: 0 <= i < |a| ==> a[i].id == b[i].id
    ensures Ids(a) == Ids(b)
    decreases |a|
  {
    if a != [] {
      IdsSame(a[..|a| - 1], b[..|b| - 1]);
    }
  }

  /** An upsert appends the id when it is new and otherwise keeps the ids;
      entries already present keep their id and question text, so the
      text is the one of the first row seen with that id; a new entry
      gets the text `q`. */
  lemma UpsertIds(es: seq<QEntry>, qid: Value, q: Value, model: string, vals: map<string, real>, ms: seq<string>)
    ensures Ids(Upsert(es, qid, q, model, vals, ms)) == Ids(es) + (if qid in Ids(es) then [] else [qid])
    ensures forall i :: 0 <= i < |es| ==>
      Upsert(es, qid, q, model, vals, ms)[i].id == es[i].id &&
      Upsert(es, qid, q, model, vals, ms)[i].question == es[i].question
    ensures qid !in Ids(es) ==> Upsert(es, qid, q, model, vals, ms)[|es|].question == q
  {
    if IndexOfId(es, qid).None? {
      UpsertNewId(es, qid, q, model, vals, ms);
    } else {
      UpsertKnownId(es, qid, q, model, vals, ms);
    }
  }

  lemma UpsertNewId(es: seq<QEntry>, qid: Value, q: Value, model: string, vals: map<string, real>, ms: seq<string>)
    requires IndexOfId(es, qid).None?
    ensures qid !in Ids(es)
    ensures Ids(Upsert(es, qid, q, model, vals, ms)) == Ids(es) + [qid]
    ensures forall i :: 0 <= i < |es| ==> Upsert(es, qid, q, model, vals, ms)[i] == es[i]
    ensures Upsert(es, qid, q, model, vals, ms)[|es|].question == q
  {
    var es' := Upsert(es, qid, q, model, vals, ms);
    IndexOfIdNone(es, qid);
    forall i | 0 <= i < |es| ensures Ids(es)[i] != qid { IdsAt(es, i); }
    assert es'[..|es|] == es;
  }

  lemma UpsertKnownId(es: seq<QEntry>, qid: Value, q: Value, model: string, vals: map<string, real>, ms: seq<string>)
    requires IndexOfId(es, qid).Some?
    ensures qid in Ids(es)
    ensures Ids(Upsert(es, qid, q, model, vals, ms)) == Ids(es)
    ensures forall i :: 0 <= i < |es| ==>
      Upsert(es, qid, q, model, vals, ms)[i].id == es[i].id &&
      Upsert(es, qid, q, model, vals, ms)[i].question == es[i].question
  {
    var k := IndexOfId(es, qid).value;
    IdsAt(es, k);
    IdsSame(Upsert(es, qid, q, model, vals, ms), es);
  }

  /** The entry for `qid` has the reading under `model` for every selected
      metric; every other entry is left alone. */
  lemma UpsertCells(es: seq<QEntry>, qid: Value, q: Value, model: string, vals: map<string, real>,
                    ms: seq<string>, k: nat, mk: string)
    requires DistinctIds(es) && k < |Upsert(es, qid, q, model, vals, ms)|
    requires mk in ms ==> mk in vals
    ensures Upsert(es, qid, q, model, vals, ms)[k].id == qid && mk in ms ==>
      mk in Upsert(es, qid, q, model, vals, ms)[k].cells &&
      model in Upsert(es, qid, q, model, vals, ms)[k].cells[mk] &&
      Upsert(es, qid, q, model, vals, ms)[k].cells[mk][model] == vals[mk]
    ensures Upsert(es, qid, q, model, vals, ms)[k].id != qid ==>
      k < |es| && Upsert(es, qid, q, model, vals, ms)[k] == es[k]
  {
    IndexOfIdNone(es, qid);
    var found := IndexOfId(es, qid);
    if found.None? {
      SetCellsEffect(map[], model, vals, ms, mk);
    } else {
      SetCellsEffect(es[found.value].cells, model, vals, ms, mk);
    }
  }

  /** For a visit: the row's id entry holds `valueFromObject(r, mk)` under
      `model` for each selected metric `mk`. */
  lemma VisitCells(es: seq<QEntry>, model: string, r: Value, idx: nat, ms: seq<string>, k: nat, mk: string)
    requires DistinctIds(es) && k < |Visit(es, model, r, idx, ms)|
    ensures Visit(es, model, r, idx, ms)[k].id == QidOf(r, idx) && mk in ms ==>
      mk in Visit(es, model, r, idx, ms)[k].cells &&
      model in Visit(es, model, r, idx, ms)[k].cells[mk] &&
      Visit(es, model, r, idx, ms)[k].cells[mk][model] == ValueFromObject(r, mk)
    ensures Visit(es, model, r, idx, ms)[k].id != QidOf(r, idx) ==>
      k < |es| && Visit(es, model, r, idx, ms)[k] == es[k]
  {
    var qid := QidOf(r, idx);
    var vals := Reading(r, set m | m in ms);
    UpsertCells(es, qid, QuestionOf(r, qid), model, vals, ms, k, mk);
  }

  lemma UpsertDistinct(es: seq<QEntry>, qid: Value, q: Value, model: string, vals: map<string, real>, ms: seq<string>)
    requires DistinctIds(es)
    ensures DistinctIds(Upsert(es, qid, q, model, vals, ms))
  {
    IndexOfIdNone(es, qid);
  }

  /** `rows.forEach((r, idx) => ...)` from position `idx` on. */
  function VisitRows(es: seq<QEntry>, model: string, rows: seq<Value>, idx: nat, ms: seq<string>): seq<QEntry>
    decreases |rows| - idx
  {
    if idx >= |rows| then es else VisitRows(Visit(es, model, rows[idx], idx, ms), model, rows, idx + 1, ms)
  }

  /** `(selectedModels || []).forEach(model => ...)` */
  function VisitModels(es: seq<QEntry>, byModel: ModelRows, models: seq<string>, ms: seq<string>): seq<QEntry>
    decreases |models|
  {
    if models == [] then es
    else VisitModels(VisitRows(es, models[0], RowsOf(byModel, models[0]), 0, ms), byModel, models[1..], ms)
  }

  lemma {:induction false} VisitRowsDistinct(es: seq<QEntry>, model: string, rows: seq<Value>, idx: nat, ms: seq<string>)
    requires DistinctIds(es)
    ensures DistinctIds(VisitRows(es, model, rows, idx, ms))
    decreases |rows| - idx
  {
    if idx < |rows| {
      UpsertDistinct(es, QidOf(rows[idx], idx), QuestionOf(rows[idx], QidOf(rows[idx], idx)), model,
        Reading(rows[idx], set m | m in ms), ms);
      VisitRowsDistinct(Visit(es, model, rows[idx], idx, ms), model, rows, idx + 1, ms);
    }
  }

  /** The grouped entries never hold an id twice. */
  lemma {:induction false} VisitModelsDistinct(es: seq<QEntry>, byModel: ModelRows, models: seq<string>, ms: seq<string>)
    requires DistinctIds(es)
    ensures DistinctIds(VisitModels(es, byModel, models, ms))
    decreases |models|
  {
    if models != [] {
      VisitRowsDistinct(es, models[0], RowsOf(byModel, models[0]), 0, ms);
      VisitModelsDistinct(VisitRows(es, models[0], RowsOf(byModel, models[0]), 0, ms), byModel, models[1..], ms);
    }
  }

  // -------------------------------------------------------------- sorting

  /** The sort comparator: `na - nb` when both ids convert to numbers,
      otherwise `localeCompare` of their strings, modelled as code-unit
      order. */
  function Cmp(a: QEntry, b: QEntry): real {
    var na := ToJsNumber(a.id);
    var nb := ToJsNumber(b.id);
    if na.Some? && nb.Some? then na.value - nb.value
    else CompareStrings(ToJsString(a.id), ToJsString(b.id)) as real
  }

  lemma CmpAntisym(a: QEntry, b: QEntry)
    ensures Cmp(a, b) == -Cmp(b, a)
  {
    CompareStringsAntisym(ToJsString(a.id), ToJsString(b.id));
  }

  /** Insert after every entry that does not compare greater, which keeps
      equal entries in their original order. */
  function Insert(x: QEntry, s: seq<QEntry>): (r: seq<QEntry>)
    ensures |r| == |s| + 1
    decreases |s|
  {
    if s == [] then [x]
    else if Cmp(x, s[0]) < 0.0 then [x] + s
    else [s[0]] + Insert(x, s[1..])
  }

  /** `arr.sort(cmp)` as a stable insertion sort. */
  function SortById(xs: seq<QEntry>): (r: seq<QEntry>)
    ensures |r| == |xs|
    decreases |xs|
  {
    if xs == [] then [] else Insert(xs[|xs| - 1], SortById(xs[..|xs| - 1]))
  }

  predicate Ordered(s: seq<QEntry>) {
    forall i :: 0 <= i < |s| - 1 ==> Cmp(s[i], s[i + 1]) <= 0.0
  }

  lemma {:induction false} InsertPerm(x: QEntry, s: seq<QEntry>)
    ensures multiset(Insert(x, s)) == multiset(s) + multiset{x}
    decreases |s|
  {
    if s != [] && Cmp(x, s[0]) >= 0.0 {
      InsertPerm(x, s[1..]);
      assert s == [s[0]] + s[1..];
    }
  }

  lemma {:induction false} InsertOrdered(x: QEntry, s: seq<QEntry>)
    requires Ordered(s)
    ensures Ordered(Insert(x, s))
    ensures s != [] ==> Insert(x, s)[0] == x || Insert(x, s)[0] == s[0]
    decreases |s|
  {
    if s != [] && Cmp(x, s[0]) >= 0.0 {
      var t := Insert(x, s[1..]);
      assert Ordered(s[1..]) by {
        forall i | 0 <= i < |s[1..]| - 1 ensures Cmp(s[1..][i], s[1..][i + 1]) <= 0.0 {
          assert s[1..][i] == s[i + 1] && s[1..][i + 1] == s[i + 2];
        }
      }
      InsertOrdered(x, s[1..]);
      CmpAntisym(x, s[0]);
      var r := [s[0]] + t;
      forall i | 0 <= i < |r| - 1 ensures Cmp(r[i], r[i + 1]) <= 0.0 {
        if i > 0 {
          assert r[i] == t[i - 1] && r[i + 1] == t[i];
        }
      }
    }
  }

  /** The sorted entries are the grouped entries, reordered. */
  lemma {:induction false} SortPermutation(xs: seq<QEntry>)
    ensures multiset(SortById(xs)) == multiset(xs)
    decreases |xs|
  {
    if xs != [] {
      var init := xs[..|xs| - 1];
      SortPermutation(init);
      InsertPerm(xs[|xs| - 1], SortById(init));
      assert xs == init + [xs[|xs| - 1]];
    }
  }

  /** Neighbours in the result never compare greater-than. */
  lemma {:induction false} SortOrdered(xs: seq<QEntry>)
    ensures Ordered(SortById(xs))
    decreases |xs|
  {
    if xs != [] {
      SortOrdered(xs[..|xs| - 1]);
      InsertOrdered(xs[|xs| - 1], SortById(xs[..|xs| - 1]));
    }
  }

  predicate NumericIds(s: seq<QEntry>) {
    forall i :: 0 <= i < |s| ==> ToJsNumber(s[i].id).Some?
  }

  /** When every id converts to a number the comparator is a numeric
      order, and the result is sorted by that number. */
  lemma SortNumeric(xs: seq<QEntry>)
    requires NumericIds(xs)
    ensures NumericIds(SortById(xs))
    ensures forall i, j :: 0 <= i < j < |SortById(xs)| ==>
      ToJsNumber(SortById(xs)[i].id).value <= ToJsNumber(SortById(xs)[j].id).value
  {
    var s := SortById(xs);
    SortPermutation(xs);
    SortOrdered(xs);
    forall i | 0 <= i < |s| ensures ToJsNumber(s[i].id).Some? {
      assert s[i] in multiset(xs);
      var k :| 0 <= k < |xs| && xs[k] == s[i];
    }
    forall i, j | 0 <= i < j < |s|
      ensures ToJsNumber(s[i].id).value <= ToJsNumber(s[j].id).value
    {
      NumericChain(s, i, j);
    }
  }

  lemma {:induction false} NumericChain(s: seq<QEntry>, i: nat, j: nat)
    requires Ordered(s) && i <= j < |s|
    requires forall k :: 0 <= k < |s| ==> ToJsNumber(s[k].id).Some?
    ensures ToJsNumber(s[i].id).value <= ToJsNumber(s[j].id).value
    decreases j - i
  {
    if i < j {
      NumericChain(s, i + 1, j);
      assert Cmp(s[i], s[i + 1]) <= 0.0;
    }
  }

  // --------------------------------------------------------------- matrix

  lemma VisitRowsStep(es: seq<QEntry>, model: string, rows: seq<Value>, idx: nat, ms: seq<string>)
    requires idx < |rows|
    ensures VisitRows(es, model, rows, idx, ms) == VisitRows(Visit(es, model, rows[idx], idx, ms), model, rows, idx + 1, ms)
  {
  }

  /** The metric loop on one entry's cells. */
  method FillCells(cells0: map<string, map<string, real>>, model: string, r: Value, ms: seq<string>)
    returns (cells: map<string, map<string, real>>)
    ensures cells == SetCells(cells0, model, Reading(r, set m | m in ms), ms)
  {
    cells := cells0;
    ghost var vals := Reading(r, set m | m in ms);
    assert ms[0..] == ms;
    for j := 0 to |ms|
      invariant SetCells(cells, model, vals, ms[j..]) == SetCells(cells0, model, vals, ms)
    {
      var mk := ms[j];
      var v := FindValue(r, mk);
      assert mk in vals && v == vals[mk];
      var inner := if mk in cells then cells[mk] else map[];
      assert ms[j..][1..] == ms[j + 1..];
      cells := cells[mk := inner[model := v]];
    }
    assert ms[|ms|..] == [];
  }

  /** The body of `rows.forEach` for one row: `qMap.has`, `qMap.set` of a
      fresh entry, and the cells. */
  method VisitRow(es: seq<QEntry>, model: string, r: Value, idx: nat, ms: seq<string>) returns (es': seq<QEntry>)
    ensures es' == Visit(es, model, r, idx, ms)
  {
    var qid := QidOf(r, idx);
    var found := IndexOfId(es, qid);
    var cells0 := if found.None? then map[] else es[found.value].cells;
    var cells := FillCells(cells0, model, r, ms);
    if found.None? {
      es' := es + [QEntry(qid, QuestionOf(r, qid), cells)];
    } else {
      es' := es[found.value := es[found.value].(cells := cells)];
    }
  }

  /** `rows.forEach(...)` for one model; `None` when a row is `null` or
      `undefined`, where `r.id` throws. */
  method VisitAllRows(es: seq<QEntry>, model: string, rows: seq<Value>, ms: seq<string>)
    returns (out: Option<seq<QEntry>>)
    ensures out.None? <==> !Readable(rows)
    ensures out.Some? ==> out.value == VisitRows(es, model, rows, 0, ms)
  {
    var cur := es;
    for idx := 0 to |rows|
      invariant VisitRows(cur, model, rows, idx, ms) == VisitRows(es, model, rows, 0, ms)
      invariant forall k :: 0 <= k < idx ==> !rows[k].Null? && !rows[k].Undefined?
    {
      var r := rows[idx];
      if r.Null? || r.Undefined? {
        return None;
      }
      VisitRowsStep(cur, model, rows, idx, ms);
      cur := VisitRow(cur, model, r, idx, ms);
    }
    out := Some(cur);
  }

  /** `perQuestionMatrix`: `None` when a row is `null` or `undefined` (the
      memo throws); otherwise the grouped entries, sorted. */
  method PerQuestionMatrix(byModel: ModelRows, models: Option<seq<string>>, ms: seq<string>)
    returns (out: Option<seq<QEntry>>)
    ensures out.None? <==> !AllReadable(byModel, models.GetOr([]))
    ensures out.Some? ==> out.value == SortById(VisitModels([], byModel, models.GetOr([]), ms))
  {
    var names := models.GetOr([]);
    var es: seq<QEntry> := [];
    ghost var goal := VisitModels([], byModel, names, ms);
    assert names[0..] == names;
    for i := 0 to |names|
      invariant VisitModels(es, byModel, names[i..], ms) == goal
      invariant forall k :: 0 <= k < i ==> Readable(RowsOf(byModel, names[k]))
    {
      assert names[i..][1..] == names[i + 1..];
      var next := VisitAllRows(es, names[i], RowsOf(byModel, names[i]), ms);
      if next.None? {
        return None;
      }
      es := next.value;
    }
    assert names[..|names|] == names;
    out := Some(SortById(es));
  }
}
