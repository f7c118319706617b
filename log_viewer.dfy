/** The log table of frontend/src/pages/LogViewer.jsx: which of the polled
    log entries are shown, the row id each one gets, and the text of its
    Details column. */
module LogViewerFilter {
  import opened Wrappers
  import opened Text
  import opened Assoc
  import opened JsValues

  /** The keys that have their own column (or are the row id) and so are
      left out of Details. */
  const HiddenKeys: seq<string> := ["timestamp", "level", "event", "subject", "question", "id"]

  // ------------------------------------------------------- the row pipeline

  /** `logs.filter(l => typeof l === "object" && l !== null)` */
  function Objects(logs: seq<Value>): (objs: seq<Value>)
    ensures |objs| <= |logs|
    decreases |logs|
  {
    if logs == [] then []
    else (if IsObject(logs[0]) then [logs[0]] else []) + Objects(logs[1..])
  }

  /** `{ ...l, id: idx }` */
  function WithId(l: Value, idx: nat): Value {
    Obj(Put(SpreadInto([], Entries(l)), "id", Num(idx as real)))
  }

  /** `.map((l, idx) => ({ ...l, id: idx }))`, numbering from `from`. */
  function Tagged(objs: seq<Value>, from: nat): (rows: seq<Value>)
    ensures |rows| == |objs|
    ensures forall i :: 0 <= i < |objs| ==> rows[i] == WithId(objs[i], from + i)
    decreases |objs|
  {
    if objs == [] then [] else [WithId(objs[0], from)] + Tagged(objs[1..], from + 1)
  }

  /** `Object.values(l)` */
  function ValuesOf(fs: seq<(string, Value)>): (vs: seq<Value>)
    ensures |vs| == |fs|
    decreases |fs|
  {
    if fs == [] then [] else [fs[0].1] + ValuesOf(fs[1..])
  }

  /** `Object.values(l).join(" ").toLowerCase()` */
  function SearchText(l: Value): string {
    Lower(JoinWith(ItemStrings(Arr(ValuesOf(Entries(l))), 0), " "))
  }

  /** `level === "ALL" || l.level === level` */
  predicate LevelMatches(l: Value, level: string) {
    level == "ALL" || Get(l, "level") == Str(level)
  }

  /** `search === "" || <values>.includes(search.toLowerCase())` */
  predicate SearchMatches(l: Value, search: string) {
    search == "" || Contains(SearchText(l), Lower(search))
  }

  predicate Keep(l: Value, level: string, search: string) {
    LevelMatches(l, level) && SearchMatches(l, search)
  }

  /** The last `.filter`. */
  function Selected(rows: seq<Value>, level: string, search: string): (kept: seq<Value>)
    ensures |kept| <= |rows|
    decreases |rows|
  {
    if rows == [] then []
    else (if Keep(rows[0], level, search) then [rows[0]] else []) + Selected(rows[1..], level, search)
  }

  /** `filteredLogs` */
  function Filtered(logs: seq<Value>, level: string, search: string): seq<Value> {
    Selected(Tagged(Objects(logs), 0), level, search)
  }

  // ------------------------------------------------------ pipeline lemmas

  /** Exactly the objects (arrays included) survive the first filter;
      `null` and every primitive are dropped. */
  lemma {:induction false} ObjectsMembers(logs: seq<Value>, x: Value)
    ensures x in Objects(logs) <==> x in logs && IsObject(x)
    decreases |logs|
  {
    if logs != [] {
      ObjectsMembers(logs[1..], x);
      assert logs == [logs[0]] + logs[1..];
    }
  }

  /** A row's `id` is the number it was given. */
  lemma WithIdId(l: Value, idx: nat)
    ensures Get(WithId(l, idx), "id") == Num(idx as real)
  {
    PutLookup(SpreadInto([], Entries(l)), "id", Num(idx as real), "id");
  }

  /** Every other key reads as in the log entry it came from. */
  lemma WithIdKeeps(l: Value, idx: nat, k: string)
    requires DistinctKeys(Entries(l)) && k != "id"
    ensures Get(WithId(l, idx), k) == Get(l, k)
  {
    var fs := Entries(l);
    PutLookup(SpreadInto([], fs), "id", Num(idx as real), k);
    SpreadIntoLookup([], fs, k);
    LookupAbsent(fs, k);
  }

  /** The search text includes the assigned id among the values. */
  lemma WithIdValues(l: Value, idx: nat)
    ensures Num(idx as real) in ValuesOf(Entries(WithId(l, idx)))
  {
    var fs := Put(SpreadInto([], Entries(l)), "id", Num(idx as real));
    PutLookup(SpreadInto([], Entries(l)), "id", Num(idx as real), "id");
    LookupValue(fs, "id");
  }

  lemma {:induction false} LookupValue(fs: seq<(string, Value)>, k: string)
    requires Lookup(fs, k).Some?
    ensures Lookup(fs, k).value in ValuesOf(fs)
    decreases |fs|
  {
    if fs[0].0 != k {
      LookupValue(fs[1..], k);
    }
  }

  /** A row is shown exactly when it is a tagged object that passes both
      tests. */
  lemma {:induction false} SelectedMembers(rows: seq<Value>, level: string, search: string, x: Value)
    ensures x in Selected(rows, level, search) <==> x in rows && Keep(x, level, search)
    decreases |rows|
  {
    if rows != [] {
      SelectedMembers(rows[1..], level, search, x);
      assert rows == [rows[0]] + rows[1..];
    }
  }

  /** Every shown row is an object of the polled list, numbered by its
      position among the objects, that passes both tests ... */
  lemma FilteredOrigin(logs: seq<Value>, level: string, search: string, x: Value) returns (i: nat)
    requires x in Filtered(logs, level, search)
    ensures i < |Objects(logs)| && x == WithId(Objects(logs)[i], i)
    ensures Objects(logs)[i] in logs && IsObject(Objects(logs)[i])
    ensures Keep(x, level, search) && Get(x, "id") == Num(i as real)
  {
    var objs := Objects(logs);
    SelectedMembers(Tagged(objs, 0), level, search, x);
    i :| 0 <= i < |objs| && Tagged(objs, 0)[i] == x;
    ObjectsMembers(logs, objs[i]);
    WithIdId(objs[i], i);
  }

  /** ... and every numbered object that passes both tests is shown. */
  lemma FilteredKeeps(logs: seq<Value>, level: string, search: string, i: nat)
    requires i < |Objects(logs)| && Keep(WithId(Objects(logs)[i], i), level, search)
    ensures WithId(Objects(logs)[i], i) in Filtered(logs, level, search)
  {
    var rows := Tagged(Objects(logs), 0);
    assert rows[i] == WithId(Objects(logs)[i], i);
    SelectedMembers(rows, level, search, rows[i]);
  }

  /** Level "ALL" with an empty search shows every object. */
  lemma {:induction false} SelectAllKeepsAll(rows: seq<Value>)
    ensures Selected(rows, "ALL", "") == rows
    decreases |rows|
  {
    if rows != [] {
      SelectAllKeepsAll(rows[1..]);
      assert rows == [rows[0]] + rows[1..];
    }
  }

  lemma ShowAll(logs: seq<Value>)
    ensures Filtered(logs, "ALL", "") == Tagged(Objects(logs), 0)
  {
    SelectAllKeepsAll(Tagged(Objects(logs), 0));
  }

  // ----------------------------------------------------------- order

  /** `a` is `b` with some entries left out, the rest in order. */
  predicate IsSubsequence(a: seq<Value>, b: seq<Value>)
    decreases |b|
  {
    a == [] || (b != [] && ((a[0] == b[0] && IsSubsequence(a[1..], b[1..])) || IsSubsequence(a, b[1..])))
  }

  lemma {:induction false} SelectedIsSubsequence(rows: seq<Value>, level: string, search: string)
    ensures IsSubsequence(Selected(rows, level, search), rows)
    decreases |rows|
  {
    if rows != [] {
      var rest := Selected(rows[1..], level, search);
      SelectedIsSubsequence(rows[1..], level, search);
      if Keep(rows[0], level, search) {
        assert ([rows[0]] + rest)[1..] == rest;
      } else {
        assert Selected(rows, level, search) == rest;
      }
    }
  }

  /** Every row's id is a number above `lo` and above the id of the row
      before it. */
  predicate IdsAbove(rows: seq<Value>, lo: real)
    decreases |rows|
  {
    rows == [] ||
      (Get(rows[0], "id").Num? && Get(rows[0], "id").n > lo && IdsAbove(rows[1..], Get(rows[0], "id").n))
  }

  lemma IdsAboveLower(rows: seq<Value>, lo: real, lo': real)
    requires IdsAbove(rows, lo) && lo' <= lo
    ensures IdsAbove(rows, lo')
  {
  }

  lemma {:induction false} TaggedIdsAbove(objs: seq<Value>, from: nat)
    ensures IdsAbove(Tagged(objs, from), from as real - 1.0)
    decreases |objs|
  {
    if objs != [] {
      WithIdId(objs[0], from);
      TaggedIdsAbove(objs[1..], from + 1);
      assert Tagged(objs, from)[1..] == Tagged(objs[1..], from + 1);
    }
  }

  lemma {:induction false} SelectedIdsAbove(rows: seq<Value>, level: string, search: string, lo: real)
    requires IdsAbove(rows, lo)
    ensures IdsAbove(Selected(rows, level, search), lo)
    decreases |rows|
  {
    if rows != [] {
      var first := Get(rows[0], "id").n;
      var rest := Selected(rows[1..], level, search);
      SelectedIdsAbove(rows[1..], level, search, first);
      if Keep(rows[0], level, search) {
        assert ([rows[0]] + rest)[1..] == rest;
      } else {
        assert Selected(rows, level, search) == rest;
        assert IdsAbove(rows[1..], first) && first > lo;
        IdsAboveLower(rest, first, lo);
      }
    }
  }

  /** The shown rows are the object-only list with entries left out, in
      their original order, so their ids strictly increase from 0 on
      (with gaps wherever entries were filtered away). */
  lemma FilteredKeepsOrder(logs: seq<Value>, level: string, search: string)
    ensures IsSubsequence(Filtered(logs, level, search), Tagged(Objects(logs), 0))
    ensures IdsAbove(Filtered(logs, level, search), -1.0)
  {
    var rows := Tagged(Objects(logs), 0);
    SelectedIsSubsequence(rows, level, search);
    TaggedIdsAbove(Objects(logs), 0);
    SelectedIdsAbove(rows, level, search, -1.0);
  }

  // ---------------------------------------------------------- Details

  /** `${k}: ${typeof v === "object" ? JSON.stringify(v) : v}` */
  function DetailValue(v: Value): string {
    if IsObject(v) || v.Null? then JsonText(v) else ToJsString(v)
  }

  /** The visible entries, each rendered as `k: v`. */
  function DetailParts(fs: seq<(string, Value)>): (parts: seq<string>)
    ensures |parts| <= |fs|
    decreases |fs|
  {
    if fs == [] then []
    else
      var part := if fs[0].0 in HiddenKeys then [] else [fs[0].0 + ": " + DetailValue(fs[0].1)];
      part + DetailParts(fs[1..])
  }

  /** The Details column: `params?.row || {}`, then the visible parts
      joined with " | ". */
  function Details(row: Value): string {
    var log := if Truthy(row) then row else Obj([]);
    JoinWith(DetailParts(Entries(log)), " | ")
  }

  /** A part is shown for exactly the entries whose key is not hidden. */
  lemma {:induction false} DetailPartsMembers(fs: seq<(string, Value)>, p: string)
    ensures p in DetailParts(fs) <==>
      exists i :: 0 <= i < |fs| && fs[i].0 !in HiddenKeys && p == fs[i].0 + ": " + DetailValue(fs[i].1)
    decreases |fs|
  {
    if fs != [] {
      DetailPartsMembers(fs[1..], p);
      if exists i :: 0 <= i < |fs| && fs[i].0 !in HiddenKeys && p == fs[i].0 + ": " + DetailValue(fs[i].1) {
        var i :| 0 <= i < |fs| && fs[i].0 !in HiddenKeys && p == fs[i].0 + ": " + DetailValue(fs[i].1);
        if i > 0 {
          assert fs[1..][i - 1] == fs[i];
        }
      }
      if exists i :: 0 <= i < |fs[1..]| && fs[1..][i].0 !in HiddenKeys && p == fs[1..][i].0 + ": " + DetailValue(fs[1..][i].1) {
        var i :| 0 <= i < |fs[1..]| && fs[1..][i].0 !in HiddenKeys && p == fs[1..][i].0 + ": " + DetailValue(fs[1..][i].1);
        assert fs[i + 1] == fs[1..][i];
      }
    }
  }

  /** Assigning the id never shows up in Details. */
  lemma {:induction false} DetailPartsPutId(fs: seq<(string, Value)>, x: Value)
    ensures DetailParts(Put(fs, "id", x)) == DetailParts(fs)
    decreases |fs|
  {
    if fs == [] {
      assert "id" in HiddenKeys;
    } else if fs[0].0 == "id" {
      assert ([("id", x)] + fs[1..])[1..] == fs[1..];
    } else {
      var rest := Put(fs[1..], "id", x);
      assert ([fs[0]] + rest)[1..] == rest;
      DetailPartsPutId(fs[1..], x);
    }
  }

  /** Putting a new key appends it. */
  lemma {:induction false} PutFresh(fs: seq<(string, Value)>, k: string, x: Value)
    requires k !in KeysOf(fs)
    ensures Put(fs, k, x) == fs + [(k, x)]
    decreases |fs|
  {
    if fs != [] {
      PutFresh(fs[1..], k, x);
    }
  }

  /** Spreading entries with distinct, fresh keys appends them in order. */
  lemma {:induction false} SpreadIntoFresh(acc: seq<(string, Value)>, fs: seq<(string, Value)>)
    requires DistinctKeys(fs)
    requires forall k :: k in KeysOf(fs) ==> k !in KeysOf(acc)
    ensures SpreadInto(acc, fs) == acc + fs
    decreases |fs|
  {
    if fs != [] {
      assert KeysOf(fs) == [fs[0].0] + KeysOf(fs[1..]);
      PutFresh(acc, fs[0].0, fs[0].1);
      KeysOfAppend(acc, fs[0]);
      SpreadIntoFresh(acc + [fs[0]], fs[1..]);
      assert acc + [fs[0]] + fs[1..] == acc + fs;
    }
  }

  /** A shown row has the same Details as the log entry it came from. */
  lemma DetailsIgnoreId(l: Value, idx: nat)
    requires IsObject(l) && DistinctKeys(Entries(l))
    ensures Details(WithId(l, idx)) == Details(l)
  {
    var fs := Entries(l);
    SpreadIntoFresh([], fs);
    assert [] + fs == fs;
    DetailPartsPutId(fs, Num(idx as real));
  }

  /** An entry with only hidden keys has empty Details, and a falsy row
      is read as `{}`. */
  lemma {:induction false} DetailPartsAllHidden(fs: seq<(string, Value)>)
    requires forall i :: 0 <= i < |fs| ==> fs[i].0 in HiddenKeys
    ensures DetailParts(fs) == []
    decreases |fs|
  {
    if fs != [] {
      DetailPartsAllHidden(fs[1..]);
    }
  }

  lemma DetailsOfFalsy(row: Value)
    requires !Truthy(row)
    ensures Details(row) == ""
  {
  }

  lemma ExampleKeys()
    ensures "level" in HiddenKeys && "model" !in HiddenKeys && "ctx" !in HiddenKeys
  {
    assert HiddenKeys[1] == "level";
  }

  lemma ExampleParts(fs: seq<(string, Value)>)
    requires fs == [("level", Str("INFO")), ("model", Str("llama3")), ("ctx", Null)]
    ensures DetailParts(fs) == ["model: llama3", "ctx: null"]
  {
    ExampleKeys();
    var mid := fs[1..];
    var last := mid[1..];
    assert last == [("ctx", Null)] && last[1..] == [];
    assert DetailParts(last[1..]) == [];
    assert last[0].0 + ": " + DetailValue(last[0].1) == "ctx: null";
    assert DetailParts(last) == ["ctx: null"];
    assert mid[0].0 + ": " + DetailValue(mid[0].1) == "model: llama3";
    assert DetailParts(mid) == ["model: llama3", "ctx: null"];
  }

  /** A typical entry: the column keys disappear, a null value reads
      `null`, and the parts are joined with " | ". */
  lemma DetailsExample()
    ensures Details(Obj([("level", Str("INFO")), ("model", Str("llama3")), ("ctx", Null)]))
      == "model: llama3 | ctx: null"
  {
    var fs := [("level", Str("INFO")), ("model", Str("llama3")), ("ctx", Null)];
    var row := Obj(fs);
    assert Truthy(row) && Entries(row) == fs;
    ExampleParts(fs);
    var parts := ["model: llama3", "ctx: null"];
    assert parts[1..] == ["ctx: null"];
    assert JoinWith(parts[1..], " | ") == "ctx: null";
    assert JoinWith(parts, " | ") == parts[0] + " | " + JoinWith(parts[1..], " | ");
    assert Details(row) == JoinWith(parts, " | ");
  }
}
