/** frontend/src/pages/MetricsInsightDialog.jsx: the tolerant metric
    readers (`toNum`, `norm`, `aliasesFor`, `keyMatches`,
    `valueFromObject`), the per-metric mean that counts every row, the
    largest examined value, the category list and the selection toggles. */
module MetricsInsight {
  import opened Wrappers
  import opened Text
  import opened Assoc
  import opened JsValues
  import opened Stats
  import opened OrderedSet
  import opened MetricUtils
  import opened CompareUtils

  // ---------------------------------------------------------------- toNum

  /** `toNum(v)`: a number as it is, a non-blank numeric string parsed,
      anything else 0. */
  function ToNum(v: Value): real {
    if v.Num? then v.n
    else if v.Str? && JsTrim(v.s) != [] && StringToNumber(v.s).Some? then StringToNumber(v.s).value
    else 0.0
  }

  /** On anything but an object, `toNum` is the decoder of
      `resolveMetricValue` with its `null` read as 0: the blank-string
      test changes nothing, because a blank string converts to 0 anyway. */
  lemma ToNumIsDecodeOrZero(v: Value)
    requires !IsObject(v)
    ensures ToNum(v) == DecodeMetric(v).GetOr(0.0)
  {
  }

  /** Objects are not unwrapped by `toNum`. */
  lemma ToNumIgnoresObjects()
    ensures ToNum(Obj([("score", Num(0.9))])) == 0.0
    ensures DecodeMetric(Obj([("score", Num(0.9))])) == Some(0.9)
  {
    assert Get(Obj([("score", Num(0.9))]), "score") == Num(0.9);
  }

  // ----------------------------------------------------------------- norm

  predicate IsLineTerminator(c: char) {
    c == '\n' || c == '\r' || c == '\U{2028}' || c == '\U{2029}'
  }

  /** Where the lazy group `\(.*?\)` opened just before `s` closes: the
      first `)`, unless a line terminator (which `.` does not match) comes
      first. */
  function GroupClose(s: string): (r: Option<nat>)
    ensures r.Some? ==> r.value < |s| && s[r.value] == ')'
    decreases |s|
  {
    if s == [] || IsLineTerminator(s[0]) then None
    else if s[0] == ')' then Some(0)
    else match GroupClose(s[1..])
      case Some(j) => Some(j + 1)
      case None => None
  }

  /** `.replace(/\(.*?\)/g, "")` */
  function DropGroups(s: string): (r: string)
    ensures |r| <= |s|
    decreases |s|
  {
    if s == [] then []
    else if s[0] == '(' && GroupClose(s[1..]).Some? then DropGroups(s[GroupClose(s[1..]).value + 2..])
    else [s[0]] + DropGroups(s[1..])
  }

  predicate IsLowerAlnum(c: char) {
    'a' <= c <= 'z' || '0' <= c <= '9'
  }

  /** The rest of a run of characters outside `[a-z0-9]`, dropped. */
  function SkipRun(s: string): (r: string)
    ensures |r| <= |s|
    ensures r == [] || IsLowerAlnum(r[0])
    decreases |s|
  {
    if s != [] && !IsLowerAlnum(s[0]) then SkipRun(s[1..]) else s
  }

  /** `.replace(/[^a-z0-9]+/g, "_")` */
  function Underscores(s: string): (r: string)
    decreases |s|
  {
    if s == [] then []
    else if IsLowerAlnum(s[0]) then [s[0]] + Underscores(s[1..])
    else "_" + Underscores(SkipRun(s[1..]))
  }

  /** `norm(s)`: lower-case, drop parenthesised groups, turn every run of
      other characters into one `_`, strip `_` at both ends. */
  function Norm(s: string): string {
    Trim(Underscores(DropGroups(Lower(s))), Underscore)
  }

  predicate NormChar(c: char) {
    IsLowerAlnum(c) || c == '_'
  }

  /** Only `[a-z0-9_]` and never two `_` in a row. */
  predicate SingleUnderscores(n: string) {
    (forall i :: 0 <= i < |n| ==> NormChar(n[i])) &&
    (forall i :: 0 <= i < |n| - 1 && n[i] == '_' ==> n[i + 1] != '_')
  }

  /** The shape of every `norm` result. */
  predicate IsNormal(n: string) {
    SingleUnderscores(n) && (n == [] || (n[0] != '_' && n[|n| - 1] != '_'))
  }

  /** A group with no line break inside is removed when nothing before it
      opens a parenthesis. */
  lemma DropGroupsGroup(s: string, p: string, t: string)
    requires '(' !in s && ')' !in p
    requires forall i :: 0 <= i < |p| ==> !IsLineTerminator(p[i])
    ensures DropGroups(s + "(" + p + ")" + t) == s + DropGroups(t)
  {
    var g := "(" + p + ")" + t;
    assert s + "(" + p + ")" + t == s + g;
    DropGroupsPrefix(s, g);
    DropGroupsHere(p, t);
  }

  /** Text that opens no group is kept as it is. */
  lemma {:induction false} DropGroupsPrefix(s: string, rest: string)
    requires '(' !in s
    ensures DropGroups(s + rest) == s + DropGroups(rest)
    decreases |s|
  {
    if s != [] {
      var tail := s[1..];
      assert s + rest == [s[0]] + (tail + rest);
      DropGroupsCons(s[0], tail + rest);
      DropGroupsPrefix(tail, rest);
      assert s == [s[0]] + tail;
      assert [s[0]] + (tail + DropGroups(rest)) == s + DropGroups(rest);
    } else {
      assert s + rest == rest;
    }
  }

  /** A group right at the front is dropped. */
  lemma DropGroupsHere(p: string, t: string)
    requires ')' !in p
    requires forall i :: 0 <= i < |p| ==> !IsLineTerminator(p[i])
    ensures DropGroups("(" + p + ")" + t) == DropGroups(t)
  {
    var w := "(" + p + ")" + t;
    GroupCloseAfter(p, t);
    assert w[1..] == p + ")" + t;
    assert w[|p| + 2..] == t;
  }

  /** A character that opens no group is kept. */
  lemma DropGroupsCons(c: char, rest: string)
    requires c != '('
    ensures DropGroups([c] + rest) == [c] + DropGroups(rest)
  {
    assert ([c] + rest)[1..] == rest;
  }

  lemma {:induction false} GroupCloseAfter(p: string, t: string)
    requires ')' !in p
    requires forall i :: 0 <= i < |p| ==> !IsLineTerminator(p[i])
    ensures GroupClose(p + ")" + t) == Some(|p|)
    decreases |p|
  {
    if p != [] {
      assert (p + ")" + t)[1..] == p[1..] + ")" + t;
      assert p[0] != ')';
      GroupCloseAfter(p[1..], t);
    }
  }

  lemma {:induction false} DropGroupsNoOpen(s: string)
    requires '(' !in s
    ensures DropGroups(s) == s
    decreases |s|
  {
    if s != [] {
      DropGroupsNoOpen(s[1..]);
    }
  }

  lemma {:induction false} UnderscoresShape(s: string)
    ensures SingleUnderscores(Underscores(s))
    ensures Underscores(s) != [] && Underscores(s)[0] == '_' ==> s != [] && !IsLowerAlnum(s[0])
    decreases |s|
  {
    if s != [] {
      if IsLowerAlnum(s[0]) {
        UnderscoresShape(s[1..]);
        var r := Underscores(s[1..]);
        assert Underscores(s) == [s[0]] + r;
      } else {
        var t := SkipRun(s[1..]);
        UnderscoresShape(t);
        var r := Underscores(t);
        assert Underscores(s) == "_" + r;
        assert r == [] || r[0] != '_';
      }
    }
  }

  lemma {:induction false} UnderscoresFixed(n: string)
    requires SingleUnderscores(n)
    ensures Underscores(n) == n
    decreases |n|
  {
    if n != [] {
      assert SingleUnderscores(n[1..]) by {
        assert forall i :: 0 <= i < |n[1..]| ==> n[1..][i] == n[i + 1];
      }
      if !IsLowerAlnum(n[0]) {
        assert n[1..] == [] || IsLowerAlnum(n[1..][0]) by {
          if |n| > 1 {
            assert n[0] == '_' && n[1] != '_' && NormChar(n[1]);
          }
        }
        assert SkipRun(n[1..]) == n[1..];
      }
      UnderscoresFixed(n[1..]);
    }
  }

  /** A stripped string is a slice of what was stripped. */
  lemma TrimSlice(s: string, ws: Space) returns (k: nat)
    ensures k + |Trim(s, ws)| <= |s|
    ensures Trim(s, ws) == s[k..k + |Trim(s, ws)|]
  {
    var l := TrimLeft(s, ws);
    TrimLeftShape(s, ws);
    TrimRightShape(l, ws);
    k := |s| - |l|;
  }

  /** Every `norm` result has the normal shape. */
  lemma NormIsNormal(s: string)
    ensures IsNormal(Norm(s))
  {
    var u := Underscores(DropGroups(Lower(s)));
    UnderscoresShape(DropGroups(Lower(s)));
    var n := Norm(s);
    var k := TrimSlice(u, Underscore);
    TrimShape(u, Underscore);
    forall i | 0 <= i < |n|
      ensures NormChar(n[i])
    {
      assert n[i] == u[k + i];
    }
    forall i | 0 <= i < |n| - 1 && n[i] == '_'
      ensures n[i + 1] != '_'
    {
      assert n[i] == u[k + i] && n[i + 1] == u[k + i + 1];
    }
  }

  /** `norm` leaves a normal string alone. */
  lemma NormOfNormal(n: string)
    requires IsNormal(n)
    ensures Norm(n) == n
  {
    assert Lower(n) == n;
    DropGroupsNoOpen(n);
    UnderscoresFixed(n);
    assert TrimLeft(n, Underscore) == n;
    assert TrimRight(n, Underscore) == n;
  }

  /** `norm(norm(s)) == norm(s)` */
  lemma NormIdempotent(s: string)
    ensures Norm(Norm(s)) == Norm(s)
  {
    NormIsNormal(s);
    NormOfNormal(Norm(s));
  }

  // ------------------------------------------------------------- aliases

  /** `s.replace(/<suffix>$/, "")` for a literal suffix. */
  function DropSuffix(s: string, suffix: string): (r: string)
    ensures r <= s
  {
    if |suffix| <= |s| && s[|s| - |suffix|..] == suffix then s[..|s| - |suffix|] else s
  }

  predicate NoLineTerminator(s: string) {
    forall i :: 0 <= i < |s| ==> !IsLineTerminator(s[i])
  }

  /** The leftmost match of `/_mode_.+$/` at or after `i`. */
  function ModeStart(s: string, i: nat): (r: Option<nat>)
    ensures r.Some? ==> i <= r.value && r.value + 6 < |s|
    decreases |s| - i
  {
    if i + 6 >= |s| then None
    else if s[i..i + 6] == "_mode_" && NoLineTerminator(s[i + 6..]) then Some(i)
    else ModeStart(s, i + 1)
  }

  /** `s.replace(/_mode_.+$/, "")` */
  function CutMode(s: string): (r: string)
    ensures r <= s
  {
    match ModeStart(s, 0)
    case Some(i) => s[..i]
    case None => s
  }

  /** `aliasesFor(metric)`: the distinct names among the normalised metric
      and its variants without `_score`, `_mode_...` and `_f1` endings. */
  function AliasesFor(metric: string): seq<string> {
    var base := Norm(metric);
    FromSeq([base, DropSuffix(base, "_score"), CutMode(base),
             DropSuffix(CutMode(base), "_score"), DropSuffix(base, "_f1")])
  }

  /** The normalised metric is always an alias, and every alias is a
      prefix of it. */
  lemma AliasesForShape(metric: string)
    ensures Norm(metric) in AliasesFor(metric)
    ensures forall a :: a in AliasesFor(metric) ==> a <= Norm(metric)
    ensures NoDups(AliasesFor(metric))
  {
    var base := Norm(metric);
    var c := CutMode(base);
    assert DropSuffix(c, "_score") <= base by {
      assert DropSuffix(c, "_score") <= c;
    }
  }

  // ----------------------------------------------------------- keyMatches

  /** One target test of `keyMatches`: equal, or either contains the other. */
  predicate Related(nk: string, t: string) {
    nk == t || Contains(nk, t) || Contains(t, nk)
  }

  /** `targets.some(t => ...)` */
  predicate MatchesAny(nk: string, targets: seq<string>)
    decreases |targets|
  {
    targets != [] && (Related(nk, targets[0]) || MatchesAny(nk, targets[1..]))
  }

  /** `keyMatches(candidate, targets)` */
  predicate KeyMatches(candidate: string, targets: seq<string>) {
    MatchesAny(Norm(candidate), targets)
  }

  lemma {:induction false} MatchesAnyIff(nk: string, targets: seq<string>)
    ensures MatchesAny(nk, targets) <==> exists i :: 0 <= i < |targets| && Related(nk, targets[i])
    decreases |targets|
  {
    if targets != [] {
      MatchesAnyIff(nk, targets[1..]);
      if MatchesAny(nk, targets[1..]) {
        var i :| 0 <= i < |targets[1..]| && Related(nk, targets[1..][i]);
        assert Related(nk, targets[i + 1]);
      }
      if exists i :: 0 <= i < |targets| && Related(nk, targets[i]) {
        var i :| 0 <= i < |targets| && Related(nk, targets[i]);
        if i > 0 {
          assert targets[1..][i - 1] == targets[i];
        }
      }
    }
  }

  /** A key whose normal form lies inside the metric's normal form always
      matches: in particular the same name, a shorter stem such as
      `context` for `context_precision`, and any key whose normal form is
      empty, which matches every metric. */
  lemma KeyInsideMetricMatches(key: string, metric: string)
    requires Contains(Norm(metric), Norm(key))
    ensures KeyMatches(key, AliasesFor(metric))
  {
    AliasesForShape(metric);
    var targets := AliasesFor(metric);
    var i :| 0 <= i < |targets| && targets[i] == Norm(metric);
    assert Related(Norm(key), targets[i]);
    MatchesAnyIff(Norm(key), targets);
  }

  // ------------------------------------------------------ valueFromObject

  /** `x || {}` */
  function OrEmpty(v: Value): Value {
    if Truthy(v) then v else Obj([])
  }

  /** `[obj, obj.metrics || {}, obj.scores || {}]` */
  function Sources(obj: Value): seq<Value> {
    [obj, OrEmpty(Get(obj, "metrics")), OrEmpty(Get(obj, "scores"))]
  }

  /** The entries of the sources, one source after the other. */
  function AllEntries(srcs: seq<Value>): seq<(string, Value)>
    decreases |srcs|
  {
    if srcs == [] then [] else Entries(srcs[0]) + AllEntries(srcs[1..])
  }

  /** `toNum` of the first entry whose key matches, or 0. */
  function FirstMatchValue(fs: seq<(string, Value)>, targets: seq<string>): real
    decreases |fs|
  {
    if fs == [] then 0.0
    else if KeyMatches(fs[0].0, targets) then ToNum(fs[0].1)
    else FirstMatchValue(fs[1..], targets)
  }

  /** `valueFromObject(obj, metricKey)` */
  function ValueFromObject(obj: Value, metric: string): real {
    if !IsObject(obj) then 0.0 else FirstMatchValue(AllEntries(Sources(obj)), AliasesFor(metric))
  }

  /** The first matching entry decides, whatever it holds: a later numeric
      entry is never reached. */
  lemma {:induction false} FirstMatchDecides(fs: seq<(string, Value)>, targets: seq<string>, i: nat)
    requires i < |fs| && KeyMatches(fs[i].0, targets)
    requires forall j :: 0 <= j < i ==> !KeyMatches(fs[j].0, targets)
    ensures FirstMatchValue(fs, targets) == ToNum(fs[i].1)
    decreases i
  {
    if i > 0 {
      FirstMatchDecides(fs[1..], targets, i - 1);
    }
  }

  /** With no matching key anywhere the value is 0. */
  lemma {:induction false} NoMatchIsZero(fs: seq<(string, Value)>, targets: seq<string>)
    requires forall j :: 0 <= j < |fs| ==> !KeyMatches(fs[j].0, targets)
    ensures FirstMatchValue(fs, targets) == 0.0
    decreases |fs|
  {
    if fs != [] {
      NoMatchIsZero(fs[1..], targets);
    }
  }

  /** One step of the search through `fs` followed by `rest`. */
  lemma FirstMatchStep(fs: seq<(string, Value)>, rest: seq<(string, Value)>, targets: seq<string>, e: nat)
    requires e < |fs|
    ensures FirstMatchValue(fs[e..] + rest, targets) ==
      if KeyMatches(fs[e].0, targets) then ToNum(fs[e].1) else FirstMatchValue(fs[e + 1..] + rest, targets)
  {
    assert (fs[e..] + rest)[0] == fs[e];
    assert (fs[e..] + rest)[1..] == fs[e + 1..] + rest;
  }

  /** The searched entries start with those of the first source left. */
  lemma AllEntriesStep(srcs: seq<Value>, s: nat)
    requires s < |srcs|
    ensures AllEntries(srcs[s..]) == Entries(srcs[s]) + AllEntries(srcs[s + 1..])
  {
    assert srcs[s..][1..] == srcs[s + 1..];
  }

  /** The loops of `valueFromObject`, returning at the first match. */
  method FindValue(obj: Value, metric: string) returns (n: real)
    ensures n == ValueFromObject(obj, metric)
  {
    if !IsObject(obj) {
      return 0.0;
    }
    var targets := AliasesFor(metric);
    var sources := Sources(obj);
    ghost var goal := FirstMatchValue(AllEntries(sources), targets);
    assert sources[0..] == sources;
    var s := 0;
    while s < |sources|
      invariant 0 <= s <= |sources|
      invariant FirstMatchValue(AllEntries(sources[s..]), targets) == goal
    {
      var fs := Entries(sources[s]);
      AllEntriesStep(sources, s);
      ghost var rest := AllEntries(sources[s + 1..]);
      var found, v := ScanEntries(fs, rest, targets, goal);
      if found {
        return v;
      }
      s := s + 1;
    }
    return 0.0;
  }

  /** The inner loop of `valueFromObject` over one source's entries. */
  method ScanEntries(fs: seq<(string, Value)>, ghost rest: seq<(string, Value)>, targets: seq<string>, ghost goal: real)
    returns (found: bool, n: real)
    requires FirstMatchValue(fs + rest, targets) == goal
    ensures found ==> n == goal
    ensures !found ==> FirstMatchValue(rest, targets) == goal
  {
    assert fs[0..] == fs;
    var e := 0;
    while e < |fs|
      invariant 0 <= e <= |fs|
      invariant FirstMatchValue(fs[e..] + rest, targets) == goal
    {
      FirstMatchStep(fs, rest, targets, e);
      if KeyMatches(fs[e].0, targets) {
        return true, ToNum(fs[e].1);
      }
      e := e + 1;
    }
    assert fs[e..] + rest == rest;
    return false, 0.0;
  }

  // ------------------------------------------------------ averageByMetric

  /** `rows.map(r => valueFromObject(r, m))` */
  function Column(rows: seq<Value>, m: string): (vs: seq<real>)
    ensures |vs| == |rows|
    decreases |rows|
  {
    if rows == [] then [] else Column(rows[..|rows| - 1], m) + [ValueFromObject(rows[|rows| - 1], m)]
  }

  lemma ColumnAppend(rows: seq<Value>, r: Value, m: string)
    ensures Column(rows + [r], m) == Column(rows, m) + [ValueFromObject(r, m)]
  {
    assert (rows + [r])[..|rows|] == rows;
  }

  /** The entry `averageByMetric` reports for `m`: every row counts, so it
      is the plain mean of the column, and 0 for no rows. */
  function ColumnMean(rows: seq<Value>, m: string): real {
    Mean(Column(rows, m))
  }

  /** How often `m` occurs in `ms`. */
  function Count(ms: seq<string>, m: string): nat
    decreases |ms|
  {
    if ms == [] then 0
    else Count(ms[..|ms| - 1], m) + (if ms[|ms| - 1] == m then 1 else 0)
  }

  lemma CountStep(ms: seq<string>, j: nat, m: string)
    requires j < |ms|
    ensures Count(ms[..j + 1], m) == Count(ms[..j], m) + (if ms[j] == m then 1 else 0)
  {
    assert ms[..j + 1][..j] == ms[..j];
  }

  /** What one row reads for each of the given metrics. */
  function Reading(r: Value, keys: set<string>): (vals: map<string, real>)
    ensures vals.Keys == keys
  {
    map m | m in keys :: ValueFromObject(r, m)
  }

  lemma ReadingAt(r: Value, keys: set<string>, m: string)
    requires m in keys
    ensures Reading(r, keys)[m] == ValueFromObject(r, m)
  {
  }

  /** Before any occurrence, nothing is added. */
  lemma RowAddedNone(sums: map<string, real>, counts: map<string, nat>, vals: map<string, real>)
    requires sums.Keys == counts.Keys && sums.Keys <= vals.Keys
    ensures RowAdded(sums, counts, sums, counts, vals, [])
  {
  }

  /** The sums and counts after the occurrences `ms` of a row's metrics,
      the row reading `vals`. */
  predicate RowAdded(sums0: map<string, real>, counts0: map<string, nat>,
                     sums: map<string, real>, counts: map<string, nat>, vals: map<string, real>, ms: seq<string>)
  {
    sums.Keys == counts.Keys == sums0.Keys == counts0.Keys && sums.Keys <= vals.Keys &&
    forall m :: m in sums ==>
      sums[m] == sums0[m] + Times(Count(ms, m), vals[m]) &&
      counts[m] == counts0[m] + Count(ms, m)
  }

  lemma RowAddedStep(sums0: map<string, real>, counts0: map<string, nat>,
                     sums: map<string, real>, counts: map<string, nat>, vals: map<string, real>,
                     ms: seq<string>, j: nat, k: string, v: real)
    requires j < |ms| && k == ms[j] && k in sums
    requires RowAdded(sums0, counts0, sums, counts, vals, ms[..j])
    requires v == vals[k]
    ensures RowAdded(sums0, counts0, sums[k := sums[k] + v], counts[k := counts[k] + 1], vals, ms[..j + 1])
  {
    var sums' := sums[k := sums[k] + v];
    var counts' := counts[k := counts[k] + 1];
    assert sums'.Keys == sums.Keys && counts'.Keys == counts.Keys;
    forall m | m in sums'
      ensures sums'[m] == sums0[m] + Times(Count(ms[..j + 1], m), vals[m])
      ensures counts'[m] == counts0[m] + Count(ms[..j + 1], m)
    {
      CountStep(ms, j, m);
      if k == m {
        StepAt(Count(ms[..j], m), 1, vals[m], sums0[m], sums[m], sums'[m], counts0[m], counts[m], counts'[m]);
      } else {
        assert sums'[m] == sums[m] && counts'[m] == counts[m];
      }
    }
  }

  /** One metric's sum and count after one more occurrence, `hit` being 1
      when the occurrence is this metric's. */
  lemma StepAt(c: nat, hit: nat, v: real, s0: real, s: real, s': real, k0: nat, k: nat, k': nat)
    requires hit <= 1
    requires s == s0 + Times(c, v) && k == k0 + c
    requires s' == s + (if hit == 1 then v else 0.0) && k' == k + hit
    ensures s' == s0 + Times(c + hit, v) && k' == k0 + c + hit
  {
  }

  /** The inner `metrics.forEach` for one row: each occurrence of a metric
      adds the row's value to its sum and one to its count. */
  method AddRow(sums: map<string, real>, counts: map<string, nat>, r: Value, metrics: seq<string>)
    returns (sums': map<string, real>, counts': map<string, nat>)
    requires sums.Keys == counts.Keys
    requires forall m :: m in metrics ==> m in sums
    ensures RowAdded(sums, counts, sums', counts', Reading(r, sums.Keys), metrics)
  {
    ghost var vals := Reading(r, sums.Keys);
    sums', counts' := sums, counts;
    assert metrics[..0] == [];
    RowAddedNone(sums, counts, vals);
    for j := 0 to |metrics|
      invariant RowAdded(sums, counts, sums', counts', vals, metrics[..j])
    {
      var m := metrics[j];
      // `valueFromObject` never yields NaN, so the value always counts.
      var v := FindValue(r, m);
      ReadingAt(r, sums.Keys, m);
      RowAddedStep(sums, counts, sums', counts', vals, metrics, j, m, v);
      sums' := sums'[m := sums'[m] + v];
      counts' := counts'[m := counts'[m] + 1];
    }
    assert metrics[..|metrics|] == metrics;
  }

  /** The state after the rows `rows`: each metric's sum holds its column
      total once per occurrence in `metrics`, its count one per row and
      occurrence. */
  predicate Accumulated(sums: map<string, real>, counts: map<string, nat>, rows: seq<Value>, metrics: seq<string>) {
    sums.Keys == counts.Keys == (set m | m in metrics) &&
    forall m :: m in sums ==>
      sums[m] == Times(Count(metrics, m), Sum(Column(rows, m))) &&
      counts[m] == Count(metrics, m) * |rows|
  }

  lemma AccumulatedStart(sums: map<string, real>, counts: map<string, nat>, metrics: seq<string>)
    requires sums.Keys == counts.Keys == (set m | m in metrics)
    requires forall m :: m in sums ==> sums[m] == 0.0 && counts[m] == 0
    ensures Accumulated(sums, counts, [], metrics)
  {
    forall m | m in sums
      ensures sums[m] == Times(Count(metrics, m), Sum(Column([], m)))
    {
      TimesIsProduct(Count(metrics, m), 0.0);
    }
  }

  /** One metric's sum and count after one more row. */
  lemma AccumulatedAt(c: nat, rows: seq<Value>, r: Value, m: string, s0: real, s: real, k0: nat, k: nat)
    requires s0 == Times(c, Sum(Column(rows, m))) && k0 == c * |rows|
    requires s == s0 + Times(c, ValueFromObject(r, m)) && k == k0 + c
    ensures s == Times(c, Sum(Column(rows + [r], m)))
    ensures k == c * |rows + [r]|
  {
    ColumnAppend(rows, r, m);
    SumAt(c, Column(rows, m), ValueFromObject(r, m), s0, s);
    CountAt(c, |rows|, k0, k);
  }

  lemma SumAt(c: nat, col: seq<real>, v: real, s0: real, s: real)
    requires s0 == Times(c, Sum(col)) && s == s0 + Times(c, v)
    ensures s == Times(c, Sum(col + [v]))
  {
    SumAppend(col, [v]);
    TimesAdd(c, Sum(col), v);
  }

  lemma CountAt(c: nat, n: nat, k0: nat, k: nat)
    requires k0 == c * n && k == k0 + c
    ensures k == c * (n + 1)
  {
    MulSucc(c, n);
  }

  lemma AccumulatedStep(sums0: map<string, real>, counts0: map<string, nat>,
                        sums: map<string, real>, counts: map<string, nat>,
                        rows: seq<Value>, r: Value, metrics: seq<string>)
    requires Accumulated(sums0, counts0, rows, metrics)
    requires RowAdded(sums0, counts0, sums, counts, Reading(r, sums0.Keys), metrics)
    ensures Accumulated(sums, counts, rows + [r], metrics)
  {
    forall m | m in sums
      ensures sums[m] == Times(Count(metrics, m), Sum(Column(rows + [r], m)))
      ensures counts[m] == Count(metrics, m) * |rows + [r]|
    {
      AccumulatedStepAt(sums0, counts0, sums, counts, rows, r, metrics, m);
    }
  }

  lemma AccumulatedStepAt(sums0: map<string, real>, counts0: map<string, nat>,
                          sums: map<string, real>, counts: map<string, nat>,
                          rows: seq<Value>, r: Value, metrics: seq<string>, m: string)
    requires Accumulated(sums0, counts0, rows, metrics)
    requires RowAdded(sums0, counts0, sums, counts, Reading(r, sums0.Keys), metrics)
    requires m in sums
    ensures sums[m] == Times(Count(metrics, m), Sum(Column(rows + [r], m)))
    ensures counts[m] == Count(metrics, m) * |rows + [r]|
  {
    var vals := Reading(r, sums0.Keys);
    var c := Count(metrics, m);
    assert sums0[m] == Times(c, Sum(Column(rows, m))) && counts0[m] == c * |rows|;
    assert sums[m] == sums0[m] + Times(c, vals[m]) && counts[m] == counts0[m] + c;
    ReadingAt(r, sums0.Keys, m);
    AccumulatedAt(c, rows, r, m, sums0[m], sums[m], counts0[m], counts[m]);
  }

  /** What the last loop of `averageByMetric` reports for one metric is
      the mean of its column. */
  lemma AccumulatedMean(sums: map<string, real>, counts: map<string, nat>, rows: seq<Value>,
                        metrics: seq<string>, m: string)
    requires Accumulated(sums, counts, rows, metrics) && m in sums
    ensures (if counts[m] != 0 then sums[m] / counts[m] as real else 0.0) == ColumnMean(rows, m)
  {
    CountPositive(metrics, m);
    if counts[m] != 0 {
      ScaledMean(Count(metrics, m), Column(rows, m));
    }
  }

  /** A metric that occurs is counted. */
  lemma {:induction false} CountPositive(ms: seq<string>, m: string)
    requires m in ms
    ensures Count(ms, m) > 0
    decreases |ms|
  {
    var n := |ms| - 1;
    if ms[n] != m {
      assert m in ms[..n];
      CountPositive(ms[..n], m);
    }
  }

  /** The first loop of `averageByMetric`: every metric starts at 0. */
  method Zeroes(metrics: seq<string>) returns (sums: map<string, real>, counts: map<string, nat>)
    ensures sums.Keys == counts.Keys == (set m | m in metrics)
    ensures forall m :: m in sums ==> sums[m] == 0.0 && counts[m] == 0
  {
    sums, counts := map[], map[];
    for j := 0 to |metrics|
      invariant sums.Keys == counts.Keys == (set m | m in metrics[..j])
      invariant forall m :: m in sums ==> sums[m] == 0.0 && counts[m] == 0
    {
      sums := sums[metrics[j] := 0.0];
      counts := counts[metrics[j] := 0];
      assert metrics[..j + 1] == metrics[..j] + [metrics[j]];
    }
    assert metrics[..|metrics|] == metrics;
  }

  /** The last loop of `averageByMetric`: each metric's sum over its
      count, or 0 when nothing was counted. */
  method Means(sums: map<string, real>, counts: map<string, nat>, metrics: seq<string>)
    returns (out: map<string, real>)
    requires forall m :: m in metrics ==> m in sums && m in counts
    ensures out.Keys == (set m | m in metrics)
    ensures forall m :: m in out ==> out[m] == if counts[m] != 0 then sums[m] / counts[m] as real else 0.0
  {
    out := map[];
    for j := 0 to |metrics|
      invariant out.Keys == (set m | m in metrics[..j])
      invariant forall m :: m in out ==> out[m] == if counts[m] != 0 then sums[m] / counts[m] as real else 0.0
    {
      var m := metrics[j];
      out := out[m := if counts[m] != 0 then sums[m] / counts[m] as real else 0.0];
      assert metrics[..j + 1] == metrics[..j] + [metrics[j]];
    }
    assert metrics[..|metrics|] == metrics;
  }

  /** `averageByMetric(rows, metrics)`: one pass over the rows that adds
      every metric's value to `sums` and bumps `counts`, then the means.
      A repeated metric is added as often as it occurs, which leaves its
      mean unchanged. */
  method AverageByMetric(rows: Option<seq<Value>>, metrics: seq<string>) returns (out: map<string, real>)
    ensures out.Keys == set m | m in metrics
    ensures forall m :: m in out ==> out[m] == ColumnMean(rows.GetOr([]), m)
  {
    var rs := rows.GetOr([]);
    var sums, counts := Zeroes(metrics);
    AccumulatedStart(sums, counts, metrics);
    assert rs[..0] == [];
    for i := 0 to |rs|
      invariant Accumulated(sums, counts, rs[..i], metrics)
    {
      var sums', counts' := AddRow(sums, counts, rs[i], metrics);
      AccumulatedStep(sums, counts, sums', counts', rs[..i], rs[i], metrics);
      assert rs[..i + 1] == rs[..i] + [rs[i]];
      sums, counts := sums', counts';
    }
    assert rs[..|rs|] == rs;
    out := Means(sums, counts, metrics);
    forall m | m in out
      ensures out[m] == ColumnMean(rs, m)
    {
      AccumulatedMean(sums, counts, rs, metrics, m);
    }
  }

  /** A row whose only field is the metric itself reads that field. */
  lemma SingleFieldValue(m: string, x: real)
    requires m != "metrics" && m != "scores"
    ensures ValueFromObject(Obj([(m, Num(x))]), m) == x
  {
    var fs := [(m, Num(x))];
    var row := Obj(fs);
    assert Entries(row) == fs;
    assert fs[1..] == [];
    assert Lookup(fs, "metrics") == None;
    assert Lookup(fs, "scores") == None;
    assert Sources(row) == [row, Obj([]), Obj([])];
    var srcs := Sources(row);
    assert srcs[3..] == [];
    AllEntriesStep(srcs, 2);
    AllEntriesStep(srcs, 1);
    AllEntriesStep(srcs, 0);
    assert srcs[0..] == srcs;
    assert AllEntries(srcs) == fs;
    ContainsSelf(Norm(m));
    KeyInsideMetricMatches(m, m);
  }

  /** An empty row reads 0 for every metric. */
  lemma EmptyRowValue(m: string)
    ensures ValueFromObject(Obj([]), m) == 0.0
  {
    assert AllEntries(Sources(Obj([]))) == [];
  }

  /** Rows with nothing to read pull the mean down instead of being
      skipped: a row scoring `x` and an empty row average to `x / 2`. */
  lemma EmptyRowCountsAsZero(m: string, x: real)
    requires m != "metrics" && m != "scores"
    ensures ColumnMean([Obj([(m, Num(x))]), Obj([])], m) == x / 2.0
  {
    ColumnOfTwo(Obj([(m, Num(x))]), Obj([]), m);
    SingleFieldValue(m, x);
    EmptyRowValue(m);
    MeanOfTwo(x, 0.0);
  }

  lemma ColumnOfTwo(r1: Value, r2: Value, m: string)
    ensures Column([r1, r2], m) == [ValueFromObject(r1, m), ValueFromObject(r2, m)]
  {
    ColumnAppend([], r1, m);
    ColumnAppend([r1], r2, m);
    assert [r1] + [r2] == [r1, r2];
  }

  lemma MeanOfTwo(a: real, b: real)
    ensures Mean([a, b]) == (a + b) / 2.0
  {
    SumAppend([a], [b]);
    SumAppend([], [a]);
    assert [a] + [b] == [a, b];
  }

  // ----------------------------------------------------------- computeMax

  function Max(a: real, b: real): real {
    if b > a then b else a
  }

  /** The running maximum after one row's metrics. */
  function RowMax(acc: real, r: Value, ks: seq<string>): real
    decreases |ks|
  {
    if ks == [] then acc else RowMax(Max(acc, ValueFromObject(r, ks[0])), r, ks[1..])
  }

  /** ... after a model's rows. */
  function RowsMax(acc: real, rows: seq<Value>, ks: seq<string>): real
    decreases |rows|
  {
    if rows == [] then acc else RowsMax(RowMax(acc, rows[0], ks), rows[1..], ks)
  }

  /** ... after every model's rows. */
  function ModelsMax(acc: real, byModel: ModelRows, models: seq<string>, ks: seq<string>): real
    decreases |models|
  {
    if models == [] then acc
    else ModelsMax(RowsMax(acc, RowsOf(byModel, models[0]), ks), byModel, models[1..], ks)
  }

  /** `max || 1` */
  function MaxOrOne(x: real): real {
    if x == 0.0 then 1.0 else x
  }

  /** Every value `computeMax` examines, in the order it examines them. */
  function RowValues(r: Value, ks: seq<string>): (vs: seq<real>)
    ensures |vs| == |ks|
    decreases |ks|
  {
    if ks == [] then [] else [ValueFromObject(r, ks[0])] + RowValues(r, ks[1..])
  }

  function RowsValues(rows: seq<Value>, ks: seq<string>): seq<real>
    decreases |rows|
  {
    if rows == [] then [] else RowValues(rows[0], ks) + RowsValues(rows[1..], ks)
  }

  function Examined(byModel: ModelRows, models: seq<string>, ks: seq<string>): seq<real>
    decreases |models|
  {
    if models == [] then [] else RowsValues(RowsOf(byModel, models[0]), ks) + Examined(byModel, models[1..], ks)
  }

  /** A running maximum over a flat list of values. */
  function FoldMax(acc: real, xs: seq<real>): real
    decreases |xs|
  {
    if xs == [] then acc else FoldMax(Max(acc, xs[0]), xs[1..])
  }

  lemma {:induction false} FoldMaxAppend(acc: real, xs: seq<real>, ys: seq<real>)
    ensures FoldMax(acc, xs + ys) == FoldMax(FoldMax(acc, xs), ys)
    decreases |xs|
  {
    if xs == [] {
      assert xs + ys == ys;
    } else {
      assert (xs + ys)[1..] == xs[1..] + ys;
      FoldMaxAppend(Max(acc, xs[0]), xs[1..], ys);
    }
  }

  /** The running maximum bounds the start and every value, and is the
      start or one of the values. */
  lemma {:induction false} FoldMaxBounds(acc: real, xs: seq<real>)
    ensures acc <= FoldMax(acc, xs)
    ensures forall i :: 0 <= i < |xs| ==> xs[i] <= FoldMax(acc, xs)
    ensures FoldMax(acc, xs) == acc || FoldMax(acc, xs) in xs
    decreases |xs|
  {
    if xs != [] {
      FoldMaxBounds(Max(acc, xs[0]), xs[1..]);
      assert forall i :: 1 <= i < |xs| ==> xs[i] == xs[1..][i - 1];
    }
  }

  lemma {:induction false} RowMaxFlat(acc: real, r: Value, ks: seq<string>)
    ensures RowMax(acc, r, ks) == FoldMax(acc, RowValues(r, ks))
    decreases |ks|
  {
    if ks != [] {
      RowMaxFlat(Max(acc, ValueFromObject(r, ks[0])), r, ks[1..]);
    }
  }

  lemma {:induction false} RowsMaxFlat(acc: real, rows: seq<Value>, ks: seq<string>)
    ensures RowsMax(acc, rows, ks) == FoldMax(acc, RowsValues(rows, ks))
    decreases |rows|
  {
    if rows != [] {
      RowMaxFlat(acc, rows[0], ks);
      RowsMaxFlat(RowMax(acc, rows[0], ks), rows[1..], ks);
      FoldMaxAppend(acc, RowValues(rows[0], ks), RowsValues(rows[1..], ks));
    }
  }

  lemma {:induction false} ModelsMaxFlat(acc: real, byModel: ModelRows, models: seq<string>, ks: seq<string>)
    ensures ModelsMax(acc, byModel, models, ks) == FoldMax(acc, Examined(byModel, models, ks))
    decreases |models|
  {
    if models != [] {
      var rows := RowsOf(byModel, models[0]);
      RowsMaxFlat(acc, rows, ks);
      ModelsMaxFlat(RowsMax(acc, rows, ks), byModel, models[1..], ks);
      FoldMaxAppend(acc, RowsValues(rows, ks), Examined(byModel, models[1..], ks));
    }
  }

  /** The value of row `j` of model `i` for metric `c` is examined. */
  lemma {:induction false} ExaminedHas(byModel: ModelRows, models: seq<string>, ks: seq<string>,
                                       i: nat, j: nat, c: nat)
    requires i < |models| && j < |RowsOf(byModel, models[i])| && c < |ks|
    ensures ValueFromObject(RowsOf(byModel, models[i])[j], ks[c]) in Examined(byModel, models, ks)
    decreases i
  {
    if i > 0 {
      ExaminedHas(byModel, models[1..], ks, i - 1, j, c);
    } else {
      RowsValuesHas(RowsOf(byModel, models[0]), ks, j, c);
    }
  }

  lemma {:induction false} RowsValuesHas(rows: seq<Value>, ks: seq<string>, j: nat, c: nat)
    requires j < |rows| && c < |ks|
    ensures ValueFromObject(rows[j], ks[c]) in RowsValues(rows, ks)
  {
    RowValuesAt(rows[j], ks, c);
    RowsValuesHasRow(rows, ks, j, c);
  }

  /** Entry `c` of row `j`'s values is among all the rows' values. */
  lemma {:induction false} RowsValuesHasRow(rows: seq<Value>, ks: seq<string>, j: nat, c: nat)
    requires j < |rows| && c < |RowValues(rows[j], ks)|
    ensures RowValues(rows[j], ks)[c] in RowsValues(rows, ks)
    decreases j
  {
    var head := RowValues(rows[0], ks);
    var tail := RowsValues(rows[1..], ks);
    assert RowsValues(rows, ks) == head + tail;
    if j > 0 {
      assert rows[1..][j - 1] == rows[j];
      RowsValuesHasRow(rows[1..], ks, j - 1, c);
    } else {
      assert (head + tail)[c] == head[c];
    }
  }

  lemma {:induction false} RowValuesAt(r: Value, ks: seq<string>, c: nat)
    requires c < |ks|
    ensures RowValues(r, ks)[c] == ValueFromObject(r, ks[c])
    decreases c
  {
    if c > 0 {
      RowValuesAt(r, ks[1..], c - 1);
    }
  }

  /** `computeMax(rowsByModel, models, metrics)`: a running maximum from 0
      over every model's rows and every metric, then `max || 1`. */
  method ComputeMax(byModel: ModelRows, models: Option<seq<string>>, metrics: Option<seq<string>>)
    returns (mx: real)
    ensures mx == MaxOrOne(ModelsMax(0.0, byModel, models.GetOr([]), metrics.GetOr([])))
  {
    var ms := models.GetOr([]);
    var ks := metrics.GetOr([]);
    ghost var total := ModelsMax(0.0, byModel, ms, ks);
    var max := 0.0;
    var i := 0;
    while i < |ms|
      invariant 0 <= i <= |ms|
      invariant ModelsMax(max, byModel, ms[i..], ks) == total
    {
      assert ms[i..][1..] == ms[i + 1..];
      max := RowsMaxLoop(max, RowsOf(byModel, ms[i]), ks);
      i := i + 1;
    }
    assert ms[i..] == [];
    if max == 0.0 {
      mx := 1.0;
    } else {
      mx := max;
    }
  }

  /** The loop over one model's rows. */
  method RowsMaxLoop(start: real, rows: seq<Value>, ks: seq<string>) returns (max: real)
    ensures max == RowsMax(start, rows, ks)
  {
    max := start;
    var j := 0;
    assert rows[0..] == rows;
    while j < |rows|
      invariant 0 <= j <= |rows|
      invariant RowsMax(max, rows[j..], ks) == RowsMax(start, rows, ks)
    {
      assert rows[j..][1..] == rows[j + 1..];
      max := RowMaxLoop(max, rows[j], ks);
      j := j + 1;
    }
    assert rows[j..] == [];
  }

  /** The loop over one row's metrics. */
  method RowMaxLoop(start: real, r: Value, ks: seq<string>) returns (max: real)
    ensures max == RowMax(start, r, ks)
  {
    max := start;
    var c := 0;
    assert ks[0..] == ks;
    while c < |ks|
      invariant 0 <= c <= |ks|
      invariant RowMax(max, r, ks[c..]) == RowMax(start, r, ks)
    {
      assert ks[c..][1..] == ks[c + 1..];
      var v := FindValue(r, ks[c]);
      if v > max {
        max := v;
      }
      c := c + 1;
    }
    assert ks[c..] == [];
  }

  /** What `computeMax` returns is positive and at least every examined
      value; it is the largest examined value when one is positive, and 1
      when none is. */
  lemma ComputeMaxBounds(byModel: ModelRows, models: seq<string>, ks: seq<string>)
    ensures MaxOrOne(ModelsMax(0.0, byModel, models, ks)) > 0.0
    ensures forall v :: v in Examined(byModel, models, ks) ==> v <= MaxOrOne(ModelsMax(0.0, byModel, models, ks))
    ensures (exists v :: v in Examined(byModel, models, ks) && v > 0.0) ==>
      MaxOrOne(ModelsMax(0.0, byModel, models, ks)) in Examined(byModel, models, ks)
    ensures (forall v :: v in Examined(byModel, models, ks) ==> v <= 0.0) ==>
      MaxOrOne(ModelsMax(0.0, byModel, models, ks)) == 1.0
  {
    var xs := Examined(byModel, models, ks);
    ModelsMaxFlat(0.0, byModel, models, ks);
    FoldMaxBounds(0.0, xs);
  }
}
