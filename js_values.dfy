/** Ordered key/value lists: the shape of a JavaScript object's own
    enumerable properties (insertion order) and of a Python dict. */
module Assoc {
  import opened Wrappers

  function KeysOf<V>(fs: seq<(string, V)>): (ks: seq<string>)
    ensures |ks| == |fs|
    decreases |fs|
  {
    if fs == [] then [] else [fs[0].0] + KeysOf(fs[1..])
  }

  /** The i-th key is the key of the i-th entry. */
  lemma {:induction false} KeysOfAt<V>(fs: seq<(string, V)>, i: nat)
    requires i < |fs|
    ensures KeysOf(fs)[i] == fs[i].0
    decreases i
  {
    if i > 0 {
      KeysOfAt(fs[1..], i - 1);
    }
  }

  lemma {:induction false} KeysOfAppend<V>(fs: seq<(string, V)>, e: (string, V))
    ensures KeysOf(fs + [e]) == KeysOf(fs) + [e.0]
    decreases |fs|
  {
    if fs == [] {
      assert fs + [e] == [e];
    } else {
      assert (fs + [e])[1..] == fs[1..] + [e];
      KeysOfAppend(fs[1..], e);
    }
  }

  /** No key occurs twice, as in any object or dict. */
  predicate DistinctKeys<V>(fs: seq<(string, V)>)
    decreases |fs|
  {
    fs == [] || (fs[0].0 !in KeysOf(fs[1..]) && DistinctKeys(fs[1..]))
  }

  /** `obj[k]`: the value stored under the first occurrence of `k`. */
  function Lookup<V>(fs: seq<(string, V)>, k: string): Option<V>
    decreases |fs|
  {
    if fs == [] then None
    else if fs[0].0 == k then Some(fs[0].1)
    else Lookup(fs[1..], k)
  }

  /** A lookup misses exactly when the key is absent. */
  lemma {:induction false} LookupAbsent<V>(fs: seq<(string, V)>, k: string)
    ensures Lookup(fs, k).None? <==> k !in KeysOf(fs)
    decreases |fs|
  {
    if fs != [] {
      LookupAbsent(fs[1..], k);
    }
  }

  /** `obj[k] = x`: overwrite in place when the key exists, else append. */
  function Put<V>(fs: seq<(string, V)>, k: string, x: V): (r: seq<(string, V)>)
    ensures |fs| <= |r| <= |fs| + 1
    decreases |fs|
  {
    if fs == [] then [(k, x)]
    else if fs[0].0 == k then [(k, x)] + fs[1..]
    else [fs[0]] + Put(fs[1..], k, x)
  }

  /** After `obj[k] = x`, `k` reads `x` and every other key is unchanged. */
  lemma {:induction false} PutLookup<V>(fs: seq<(string, V)>, k: string, x: V, k': string)
    ensures Lookup(Put(fs, k, x), k') == if k' == k then Some(x) else Lookup(fs, k')
    decreases |fs|
  {
    if fs != [] && fs[0].0 != k {
      var rest := Put(fs[1..], k, x);
      assert ([fs[0]] + rest)[1..] == rest;
      PutLookup(fs[1..], k, x, k');
    } else if fs != [] {
      assert ([(k, x)] + fs[1..])[1..] == fs[1..];
    }
  }

  /** Key order: an existing key keeps its position, a new key goes last. */
  lemma {:induction false} PutKeys<V>(fs: seq<(string, V)>, k: string, x: V)
    ensures k in KeysOf(fs) ==> KeysOf(Put(fs, k, x)) == KeysOf(fs)
    ensures k !in KeysOf(fs) ==> KeysOf(Put(fs, k, x)) == KeysOf(fs) + [k]
    decreases |fs|
  {
    if fs == [] {
    } else if fs[0].0 == k {
      assert ([(k, x)] + fs[1..])[1..] == fs[1..];
    } else {
      var rest := Put(fs[1..], k, x);
      assert KeysOf(Put(fs, k, x)) == [fs[0].0] + KeysOf(rest) by {
        assert ([fs[0]] + rest)[1..] == rest;
      }
      PutKeys(fs[1..], k, x);
    }
  }

  /** With distinct keys, every entry is what a lookup of its key finds. */
  lemma {:induction false} LookupDistinct<V>(fs: seq<(string, V)>, i: nat)
    requires DistinctKeys(fs) && i < |fs|
    ensures Lookup(fs, fs[i].0) == Some(fs[i].1)
    decreases i
  {
    if i > 0 {
      assert fs[1..][i - 1] == fs[i];
      KeysOfAt(fs[1..], i - 1);
      LookupDistinct(fs[1..], i - 1);
    }
  }

  /** `{ ...acc, ...fs }`: every entry of `fs` is assigned in order. */
  function SpreadInto<V>(acc: seq<(string, V)>, fs: seq<(string, V)>): seq<(string, V)>
    decreases |fs|
  {
    if fs == [] then acc else SpreadInto(Put(acc, fs[0].0, fs[0].1), fs[1..])
  }

  /** After a spread, a key of `fs` reads as in `fs`, any other key as
      in `acc`. */
  lemma {:induction false} SpreadIntoLookup<V>(acc: seq<(string, V)>, fs: seq<(string, V)>, k: string)
    requires DistinctKeys(fs)
    ensures Lookup(SpreadInto(acc, fs), k) ==
      if k in KeysOf(fs) then Lookup(fs, k) else Lookup(acc, k)
    decreases |fs|
  {
    if fs != [] {
      SpreadIntoLookup(Put(acc, fs[0].0, fs[0].1), fs[1..], k);
      PutLookup(acc, fs[0].0, fs[0].1, k);
      LookupAbsent(fs[1..], k);
      assert KeysOf(fs) == [fs[0].0] + KeysOf(fs[1..]);
    }
  }

  /** `delete obj[k]` / the rest of `{ [k]: _, ...rest }`. */
  function Remove<V>(fs: seq<(string, V)>, k: string): (r: seq<(string, V)>)
    ensures |r| <= |fs|
    decreases |fs|
  {
    if fs == [] then []
    else if fs[0].0 == k then Remove(fs[1..], k)
    else [fs[0]] + Remove(fs[1..], k)
  }

  /** After a removal `k` is gone and every other key reads as before. */
  lemma {:induction false} RemoveLookup<V>(fs: seq<(string, V)>, k: string, k': string)
    ensures Lookup(Remove(fs, k), k') == if k' == k then None else Lookup(fs, k')
    ensures k' in KeysOf(Remove(fs, k)) <==> k' in KeysOf(fs) && k' != k
    decreases |fs|
  {
    if fs != [] {
      RemoveLookup(fs[1..], k, k');
      if fs[0].0 != k {
        var rest := Remove(fs[1..], k);
        assert ([fs[0]] + rest)[1..] == rest;
      }
    }
  }
}

/** JavaScript values as they arrive from `response.json()` and as the
    pages build them: objects keep their own-property order. Numbers are
    reals, so NaN and the infinities do not occur; JSON cannot carry them. */
module JsValues {
  import opened Wrappers
  import opened Text
  import opened Assoc

  datatype Value =
    | Undefined
    | Null
    | Bool(b: bool)
    | Num(n: real)
    | Str(s: string)
    | Arr(items: seq<Value>)
    | Obj(fields: seq<(string, Value)>)

  /** ToBoolean: what `||`, `&&`, `if (v)` and `!v` test. */
  predicate Truthy(v: Value) {
    match v
    case Undefined => false
    case Null => false
    case Bool(b) => b
    case Num(n) => n != 0.0
    case Str(s) => s != ""
    case Arr(_) => true
    case Obj(_) => true
  }

  /** `typeof v === "object" && v !== null` (arrays included). */
  predicate IsObject(v: Value) {
    v.Arr? || v.Obj?
  }

  /** `Object.entries(v)`: own enumerable properties in order. */
  function Entries(v: Value): seq<(string, Value)> {
    match v
    case Obj(fs) => fs
    case Arr(items) => IndexedItems(items, 0)
    case Str(s) => IndexedChars(s, 0)
    case _ => []
  }

  /** Index keys `"from"`, `"from+1"`, ... for array items. */
  function IndexedItems(items: seq<Value>, from: nat): seq<(string, Value)>
    decreases |items|
  {
    if items == [] then [] else [(IntText(from), items[0])] + IndexedItems(items[1..], from + 1)
  }

  /** Index keys for the characters of a string. */
  function IndexedChars(s: string, from: nat): seq<(string, Value)>
    decreases |s|
  {
    if s == [] then [] else [(IntText(from), Str([s[0]]))] + IndexedChars(s[1..], from + 1)
  }

  /** `v[k]` for an own property; a missing property reads as undefined. */
  function Get(v: Value, k: string): Value {
    match Lookup(Entries(v), k)
    case Some(x) => x
    case None => Undefined
  }

  /** `v ?? d` */
  function Coalesce(v: Value, d: Value): Value {
    if v.Undefined? || v.Null? then d else v
  }

  /** `String(v)` / a template literal `${v}`. */
  function ToJsString(v: Value): string
    decreases v, if v.Arr? then |v.items| + 1 else 0
  {
    match v
    case Undefined => "undefined"
    case Null => "null"
    case Bool(b) => if b then "true" else "false"
    case Num(n) => NumberText(n)
    case Str(s) => s
    case Arr(items) => JoinWith(ItemStrings(v, 0), ",")
    case Obj(_) => "[object Object]"
  }

  /** `Array.prototype.join` renders null and undefined items as "". */
  function ItemStrings(v: Value, i: nat): seq<string>
    requires v.Arr? && i <= |v.items|
    decreases v, |v.items| - i
  {
    if i == |v.items| then []
    else
      var x := v.items[i];
      assert x in v.items;
      [if x.Undefined? || x.Null? then "" else ToJsString(x)] + ItemStrings(v, i + 1)
  }

  /** `Number(v)`; None stands for NaN. */
  function ToJsNumber(v: Value): Option<real> {
    match v
    case Undefined => None
    case Null => Some(0.0)
    case Bool(b) => Some(if b then 1.0 else 0.0)
    case Num(n) => Some(n)
    case Str(s) => StringToNumber(s)
    case _ => StringToNumber(ToJsString(v))
  }

  function HexLower(d: nat): char
    requires d < 16
  {
    "0123456789abcdef"[d]
  }

  function JsonEscapeChar(c: char): string {
    if c == '"' then "\\\""
    else if c == '\\' then "\\\\"
    else if c == '\n' then "\\n"
    else if c == '\r' then "\\r"
    else if c == '\t' then "\\t"
    else if c == '\U{8}' then "\\b"
    else if c == '\U{C}' then "\\f"
    else if c < ' ' then "\\u00" + [HexLower(c as int / 16), HexLower(c as int % 16)]
    else [c]
  }

  function JsonEscape(s: string): string
    decreases |s|
  {
    if s == [] then "" else JsonEscapeChar(s[0]) + JsonEscape(s[1..])
  }

  function JsonQuote(s: string): string {
    "\"" + JsonEscape(s) + "\""
  }

  /** `JSON.stringify(v)` for a value that is not undefined at top level:
      undefined members are omitted, undefined array items become null. */
  function JsonText(v: Value): string
    decreases v, if v.Arr? then |v.items| + 1 else if v.Obj? then |v.fields| + 1 else 0
  {
    match v
    case Undefined => "null"
    case Null => "null"
    case Bool(b) => if b then "true" else "false"
    case Num(n) => NumberText(n)
    case Str(s) => JsonQuote(s)
    case Arr(items) => "[" + JoinWith(ItemJson(v, 0), ",") + "]"
    case Obj(fs) => "{" + JoinWith(MemberJson(v, 0), ",") + "}"
  }

  function ItemJson(v: Value, i: nat): seq<string>
    requires v.Arr? && i <= |v.items|
    decreases v, |v.items| - i
  {
    if i == |v.items| then []
    else
      assert v.items[i] in v.items;
      [JsonText(v.items[i])] + ItemJson(v, i + 1)
  }

  /** Members whose value is undefined are left out. */
  function MemberJson(v: Value, i: nat): seq<string>
    requires v.Obj? && i <= |v.fields|
    decreases v, |v.fields| - i
  {
    if i == |v.fields| then []
    else
      var (k, x) := v.fields[i];
      assert v.fields[i] in v.fields;
      (if x.Undefined? then [] else [JsonQuote(k) + ":" + JsonText(x)]) + MemberJson(v, i + 1)
  }
}
