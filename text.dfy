/** Character and string primitives shared by the frontend (JavaScript
    string semantics) and the backend (Python string semantics).
    Case folding is ASCII only; whitespace sets are the ones the two
    languages use for trimming and splitting. */
module Text {
  import opened Wrappers

  // ---------------------------------------------------------------- case

  function LowerChar(c: char): char {
    if 'A' <= c <= 'Z' then (c as int + 32) as char else c
  }

  /** ASCII `toLowerCase` / `lower`. */
  function Lower(s: string): (r: string)
    ensures |r| == |s|
    ensures forall i :: 0 <= i < |s| ==> r[i] == LowerChar(s[i])
    decreases |s|
  {
    if s == [] then [] else [LowerChar(s[0])] + Lower(s[1..])
  }

  /** Case-insensitive `startsWith`: `p` is a prefix of `s` once both are
      lower-cased, checked one character at a time. */
  predicate StartsWithFolded(s: string, p: string)
    decreases |p|
  {
    p == [] || (s != [] && LowerChar(s[0]) == LowerChar(p[0]) && StartsWithFolded(s[1..], p[1..]))
  }

  /** The character-wise test agrees with comparing the lower-cased strings. */
  lemma {:induction false} StartsWithFoldedLower(s: string, p: string)
    ensures StartsWithFolded(s, p) <==> Lower(p) <= Lower(s)
    decreases |p|
  {
    if p != [] && s != [] {
      StartsWithFoldedLower(s[1..], p[1..]);
      assert Lower(s) == [LowerChar(s[0])] + Lower(s[1..]);
      assert Lower(p) == [LowerChar(p[0])] + Lower(p[1..]);
    }
  }

  /** A string starts with anything that matches its head up to case. */
  lemma {:induction false} StartsWithFoldedHead(p: string, q: string, rest: string)
    requires |p| == |q|
    requires forall i :: 0 <= i < |p| ==> LowerChar(p[i]) == LowerChar(q[i])
    ensures StartsWithFolded(p + rest, q)
    decreases |q|
  {
    if q != [] {
      assert (p + rest)[1..] == p[1..] + rest;
      StartsWithFoldedHead(p[1..], q[1..], rest);
    }
  }

  // ---------------------------------------------------------- substrings

  /** `s.includes(sub)` / `sub in s`. */
  predicate Contains(s: string, sub: string)
    decreases |s|
  {
    sub <= s || (|s| > 0 && Contains(s[1..], sub))
  }

  lemma {:induction false} ContainsSelf(s: string)
    ensures Contains(s, s)
  {
  }

  lemma {:induction false} ContainsEmpty(s: string)
    ensures Contains(s, "")
  {
  }

  lemma {:induction false} ContainsAppend(a: string, b: string, sub: string)
    requires Contains(b, sub)
    ensures Contains(a + b, sub)
    decreases |a|
  {
    if a != [] {
      assert (a + b)[1..] == a[1..] + b;
      ContainsAppend(a[1..], b, sub);
    } else {
      assert a + b == b;
    }
  }

  // ---------------------------------------------------------- whitespace

  /** Python `str.isspace` for a single character. */
  predicate IsPySpace(c: char) {
    c == ' ' || ('\t' <= c <= '\r') || ('\U{1C}' <= c <= '\U{1F}') || c == '\U{85}' ||
    c == '\U{A0}' || c == '\U{1680}' || ('\U{2000}' <= c <= '\U{200A}') ||
    c == '\U{2028}' || c == '\U{2029}' || c == '\U{202F}' || c == '\U{205F}' || c == '\U{3000}'
  }

  /** ECMAScript WhiteSpace or LineTerminator (what `trim` removes). */
  predicate IsJsSpace(c: char) {
    c == ' ' || ('\t' <= c <= '\r') || c == '\U{A0}' || c == '\U{FEFF}' || c == '\U{1680}' ||
    ('\U{2000}' <= c <= '\U{200A}') || c == '\U{2028}' || c == '\U{2029}' ||
    c == '\U{202F}' || c == '\U{205F}' || c == '\U{3000}'
  }

  /** Which characters a trim removes: Python's or JavaScript's whitespace,
      or the underscores that a `/^_+|_+$/g` replacement strips. */
  datatype Space = Py | Js | Underscore

  predicate IsSpace(ws: Space, c: char) {
    match ws
    case Py => IsPySpace(c)
    case Js => IsJsSpace(c)
    case Underscore => c == '_'
  }

  predicate AllSpace(s: string, ws: Space) {
    forall i :: 0 <= i < |s| ==> IsSpace(ws, s[i])
  }

  /** Drop leading characters of the given whitespace set. */
  function TrimLeft(s: string, ws: Space): (r: string)
    ensures |r| <= |s|
    decreases |s|
  {
    if s != [] && IsSpace(ws, s[0]) then TrimLeft(s[1..], ws) else s
  }

  /** Drop trailing characters of the given whitespace set. */
  function TrimRight(s: string, ws: Space): (r: string)
    ensures |r| <= |s|
    decreases |s|
  {
    if s != [] && IsSpace(ws, s[|s| - 1]) then TrimRight(s[..|s| - 1], ws) else s
  }

  function Trim(s: string, ws: Space): string {
    TrimRight(TrimLeft(s, ws), ws)
  }

  /** Python `str.strip()` with no argument. */
  function PyStrip(s: string): string {
    Trim(s, Py)
  }

  /** JavaScript `String.prototype.trim`. */
  function JsTrim(s: string): string {
    Trim(s, Js)
  }

  /** `TrimLeft` removes a prefix made of whitespace, and what it keeps
      does not start with whitespace. */
  lemma {:induction false} TrimLeftShape(s: string, ws: Space)
    ensures TrimLeft(s, ws) == s[|s| - |TrimLeft(s, ws)|..]
    ensures TrimLeft(s, ws) == [] || !IsSpace(ws, TrimLeft(s, ws)[0])
    ensures AllSpace(s[..|s| - |TrimLeft(s, ws)|], ws)
    decreases |s|
  {
    if s != [] && IsSpace(ws, s[0]) {
      TrimLeftShape(s[1..], ws);
      var k := |s| - |TrimLeft(s, ws)|;
      assert s[..k] == [s[0]] + s[1..][..k - 1];
    }
  }

  /** `TrimRight` removes a suffix made of whitespace, and what it keeps
      does not end with whitespace. */
  lemma {:induction false} TrimRightShape(s: string, ws: Space)
    ensures TrimRight(s, ws) <= s
    ensures TrimRight(s, ws) == [] || !IsSpace(ws, TrimRight(s, ws)[|TrimRight(s, ws)| - 1])
    ensures AllSpace(s[|TrimRight(s, ws)|..], ws)
    decreases |s|
  {
    if s != [] && IsSpace(ws, s[|s| - 1]) {
      TrimRightShape(s[..|s| - 1], ws);
      var k := |TrimRight(s, ws)|;
      assert s[k..] == s[..|s| - 1][k..] + [s[|s| - 1]];
    }
  }

  /** A stripped string neither starts nor ends with whitespace. */
  lemma TrimShape(s: string, ws: Space)
    ensures var r := Trim(s, ws); r == [] || (!IsSpace(ws, r[0]) && !IsSpace(ws, r[|r| - 1]))
  {
    var l := TrimLeft(s, ws);
    TrimLeftShape(s, ws);
    TrimRightShape(l, ws);
    var r := TrimRight(l, ws);
    if r != [] {
      assert r[0] == l[0];
    }
  }

  lemma {:induction false} TrimLeftConcat(s: string, t: string, ws: Space)
    ensures TrimLeft(s + t, ws) == if TrimLeft(s, ws) == [] then TrimLeft(t, ws) else TrimLeft(s, ws) + t
    decreases |s|
  {
    if s != [] {
      assert (s + t)[0] == s[0];
      assert (s + t)[1..] == s[1..] + t;
      if IsSpace(ws, s[0]) {
        TrimLeftConcat(s[1..], t, ws);
      }
    } else {
      assert s + t == t;
    }
  }

  lemma {:induction false} TrimRightAppendSpaces(s: string, w: string, ws: Space)
    requires AllSpace(w, ws)
    ensures TrimRight(s + w, ws) == TrimRight(s, ws)
    decreases |w|
  {
    if w == [] {
      assert s + w == s;
    } else {
      assert (s + w)[..|s + w| - 1] == s + w[..|w| - 1];
      TrimRightAppendSpaces(s, w[..|w| - 1], ws);
    }
  }

  lemma {:induction false} TrimLeftPrependSpaces(w: string, s: string, ws: Space)
    requires AllSpace(w, ws)
    ensures TrimLeft(w + s, ws) == TrimLeft(s, ws)
    decreases |w|
  {
    if w != [] {
      assert (w + s)[1..] == w[1..] + s;
      TrimLeftPrependSpaces(w[1..], s, ws);
    } else {
      assert w + s == s;
    }
  }

  /** A string made only of whitespace strips to the empty string. */
  lemma TrimBlank(s: string, ws: Space)
    requires AllSpace(s, ws)
    ensures TrimLeft(s, ws) == [] && Trim(s, ws) == []
  {
    assert s + [] == s;
    TrimLeftPrependSpaces(s, [], ws);
  }

  /** Surrounding whitespace never changes what `strip` returns. */
  lemma {:induction false} TrimSurrounding(w1: string, s: string, w2: string, ws: Space)
    requires AllSpace(w1, ws) && AllSpace(w2, ws)
    ensures Trim(w1 + s + w2, ws) == Trim(s, ws)
  {
    assert TrimLeft(w1 + s + w2, ws) == TrimLeft(s + w2, ws) by {
      assert w1 + s + w2 == w1 + (s + w2);
      TrimLeftPrependSpaces(w1, s + w2, ws);
    }
    TrimLeftConcat(s, w2, ws);
    if TrimLeft(s, ws) == [] {
      TrimBlank(w2, ws);
    } else {
      TrimRightAppendSpaces(TrimLeft(s, ws), w2, ws);
    }
  }

  // ---------------------------------------------------- words (str.split)

  predicate IsWord(w: string) {
    w != [] && forall i :: 0 <= i < |w| ==> !IsPySpace(w[i])
  }

  /** The longest prefix without whitespace. */
  function WordPrefix(s: string): (w: string)
    ensures |w| <= |s|
    decreases |s|
  {
    if s == [] || IsPySpace(s[0]) then [] else [s[0]] + WordPrefix(s[1..])
  }

  /** Python `str.split()` with no separator: maximal runs of
      non-whitespace, leading and trailing whitespace ignored. */
  function PySplit(s: string): (words: seq<string>)
    decreases |s|
  {
    if s == [] then []
    else if IsPySpace(s[0]) then PySplit(s[1..])
    else
      var w := WordPrefix(s);
      [w] + PySplit(s[|w|..])
  }

  /** Every piece `split()` returns is a non-empty run of non-whitespace. */
  lemma {:induction false} PySplitWords(s: string)
    ensures forall i :: 0 <= i < |PySplit(s)| ==> IsWord(PySplit(s)[i])
    decreases |s|
  {
    if s != [] {
      if IsPySpace(s[0]) {
        PySplitWords(s[1..]);
      } else {
        var w := WordPrefix(s);
        WordPrefixShape(s);
        PySplitWords(s[|w|..]);
        assert PySplit(s) == [w] + PySplit(s[|w|..]);
      }
    }
  }

  lemma {:induction false} WordPrefixShape(s: string)
    ensures WordPrefix(s) <= s
    ensures forall i :: 0 <= i < |WordPrefix(s)| ==> !IsPySpace(WordPrefix(s)[i])
    ensures s != [] && !IsPySpace(s[0]) ==> WordPrefix(s) != []
    decreases |s|
  {
    if s != [] && !IsPySpace(s[0]) {
      WordPrefixShape(s[1..]);
    }
  }

  /** `sep.join(parts)`, the same in both languages. */
  function JoinWith(parts: seq<string>, sep: string): string
    decreases |parts|
  {
    if |parts| == 0 then ""
    else if |parts| == 1 then parts[0]
    else parts[0] + sep + JoinWith(parts[1..], sep)
  }

  lemma {:induction false} WordPrefixOfWord(w: string, tail: string)
    requires forall i :: 0 <= i < |w| ==> !IsPySpace(w[i])
    requires tail == [] || IsPySpace(tail[0])
    ensures WordPrefix(w + tail) == w
    decreases |w|
  {
    if w == [] {
      assert w + tail == tail;
    } else {
      assert (w + tail)[1..] == w[1..] + tail;
      WordPrefixOfWord(w[1..], tail);
    }
  }

  /** Joining words with single spaces and splitting again gives the words back. */
  lemma {:induction false} SplitJoinWords(ws: seq<string>)
    requires forall i :: 0 <= i < |ws| ==> IsWord(ws[i])
    ensures PySplit(JoinWith(ws, " ")) == ws
    decreases |ws|
  {
    if |ws| > 0 {
      var w := ws[0];
      var tail := if |ws| == 1 then "" else " " + JoinWith(ws[1..], " ");
      assert JoinWith(ws, " ") == w + tail;
      assert PySplit(w + tail) == [w] + PySplit(tail) by {
        WordPrefixOfWord(w, tail);
        assert (w + tail)[0] == w[0];
        assert (w + tail)[|w|..] == tail;
      }
      if |ws| > 1 {
        assert PySplit(tail) == PySplit(JoinWith(ws[1..], " ")) by {
          assert tail[1..] == JoinWith(ws[1..], " ");
        }
        SplitJoinWords(ws[1..]);
      }
    }
  }

  // -------------------------------------------- split on a literal separator

  /** Python `s.split(sep)` for a non-empty separator: leftmost,
      non-overlapping occurrences. */
  function SplitOn(s: string, sep: string): (parts: seq<string>)
    requires sep != []
    ensures |parts| >= 1
    decreases |s|
  {
    if sep <= s then [""] + SplitOn(s[|sep|..], sep)
    else if s == [] then [""]
    else
      var rest := SplitOn(s[1..], sep);
      [[s[0]] + rest[0]] + rest[1..]
  }

  lemma {:induction false} JoinSplitOn(s: string, sep: string)
    requires sep != []
    ensures JoinWith(SplitOn(s, sep), sep) == s
    decreases |s|
  {
    if sep <= s {
      var rest := SplitOn(s[|sep|..], sep);
      JoinSplitOn(s[|sep|..], sep);
      JoinEmptyFirst(rest, sep);
      assert s == s[..|sep|] + s[|sep|..];
    } else if s != [] {
      var rest := SplitOn(s[1..], sep);
      JoinSplitOn(s[1..], sep);
      assert JoinWith(SplitOn(s, sep), sep) == s by {
        JoinConsFirst(s[0], rest, sep);
        assert s == [s[0]] + s[1..];
      }
    }
  }

  /** An empty first part puts a separator in front of the join. */
  lemma JoinEmptyFirst(rest: seq<string>, sep: string)
    requires |rest| >= 1
    ensures JoinWith([""] + rest, sep) == sep + JoinWith(rest, sep)
  {
    var parts := [""] + rest;
    assert parts[1..] == rest;
    assert JoinWith(parts, sep) == "" + sep + JoinWith(rest, sep);
  }

  /** Gluing a character onto the first part glues it onto the join. */
  lemma JoinConsFirst(c: char, rest: seq<string>, sep: string)
    requires |rest| >= 1
    ensures JoinWith([[c] + rest[0]] + rest[1..], sep) == [c] + JoinWith(rest, sep)
  {
    var parts := [[c] + rest[0]] + rest[1..];
    assert parts[1..] == rest[1..];
    if |rest| > 1 {
      assert JoinWith(parts, sep) == ([c] + rest[0]) + sep + JoinWith(rest[1..], sep);
      assert JoinWith(rest, sep) == rest[0] + sep + JoinWith(rest[1..], sep);
    }
  }

  // -------------------------------------------------------- ordering

  /** Code-point lexicographic order: Python's `<` on str, and the order
      this model uses for `localeCompare`. */
  predicate StrLe(a: string, b: string)
    decreases |a|
  {
    a == [] || (b != [] && (a[0] < b[0] || (a[0] == b[0] && StrLe(a[1..], b[1..]))))
  }

  lemma {:induction false} StrLeRefl(a: string)
    ensures StrLe(a, a)
    decreases |a|
  {
    if a != [] { StrLeRefl(a[1..]); }
  }

  lemma {:induction false} StrLeAntisym(a: string, b: string)
    requires StrLe(a, b) && StrLe(b, a)
    ensures a == b
    decreases |a|
  {
    if a != [] && b != [] {
      StrLeAntisym(a[1..], b[1..]);
      assert a == [a[0]] + a[1..] && b == [b[0]] + b[1..];
    }
  }

  lemma {:induction false} StrLeTrans(a: string, b: string, c: string)
    requires StrLe(a, b) && StrLe(b, c)
    ensures StrLe(a, c)
    decreases |a|
  {
    if a != [] && b != [] && c != [] && a[0] == b[0] == c[0] {
      StrLeTrans(a[1..], b[1..], c[1..]);
    }
  }

  lemma {:induction false} StrLeTotal(a: string, b: string)
    ensures StrLe(a, b) || StrLe(b, a)
    decreases |a|
  {
    if a != [] && b != [] && a[0] == b[0] {
      StrLeTotal(a[1..], b[1..]);
    }
  }

  /** -1, 0 or 1, as `localeCompare` is modelled. */
  function CompareStrings(a: string, b: string): (r: int)
    ensures r == 0 <==> a == b
    ensures r == -1 || r == 0 || r == 1
  {
    if a == b then 0 else if StrLe(a, b) then -1 else 1
  }

  lemma CompareStringsAntisym(a: string, b: string)
    ensures CompareStrings(a, b) == -CompareStrings(b, a)
  {
    if a != b {
      if StrLe(a, b) && StrLe(b, a) { StrLeAntisym(a, b); }
      StrLeTotal(a, b);
    }
  }

  // ------------------------------------------------------------- numbers

  predicate IsDigit(c: char) { '0' <= c <= '9' }

  function DigitChar(d: nat): char
    requires d < 10
  {
    "0123456789"[d]
  }

  function NatText(n: nat): string
    decreases n
  {
    if n < 10 then [DigitChar(n)] else NatText(n / 10) + [DigitChar(n % 10)]
  }

  /** Decimal rendering of an integer, as `String(i)` / `str(i)`. */
  function IntText(i: int): string {
    if i < 0 then "-" + NatText(-i) else NatText(i)
  }

  function FracText(f: real, digits: nat): string
    requires 0.0 <= f < 1.0
    decreases digits
  {
    if digits == 0 || f == 0.0 then ""
    else
      var d := (f * 10.0).Floor;
      [DigitChar(d)] + FracText(f * 10.0 - d as real, digits - 1)
  }

  /** `String(x)` for a number: integers exactly, other values by their
      decimal expansion (at most 20 fractional digits). */
  function NumberText(x: real): string {
    if x == x.Floor as real then IntText(x.Floor)
    else
      var a := if x < 0.0 then -x else x;
      (if x < 0.0 then "-" else "") + NatText(a.Floor) + "." + FracText(a - a.Floor as real, 20)
  }

  function DigitRun(s: string): (r: string)
    ensures r <= s
    ensures forall i :: 0 <= i < |r| ==> IsDigit(r[i])
    decreases |s|
  {
    if s != [] && IsDigit(s[0]) then [s[0]] + DigitRun(s[1..]) else []
  }

  function DigitsValue(s: string): nat
    requires forall i :: 0 <= i < |s| ==> IsDigit(s[i])
    decreases |s|
  {
    if s == [] then 0
    else
      assert IsDigit(s[|s| - 1]);
      DigitsValue(s[..|s| - 1]) * 10 + (s[|s| - 1] as int - '0' as int)
  }

  function Pow10(e: nat): (r: nat)
    ensures r >= 1
  {
    if e == 0 then 1 else 10 * Pow10(e - 1)
  }

  function Scale10(x: real, e: int): real {
    if e >= 0 then x * Pow10(e) as real else x / Pow10(-e) as real
  }

  /** StrDecimalLiteral: sign, digits, optional fraction, optional exponent;
      the whole string must be consumed. */
  function ParseDecimal(s: string): Option<real> {
    var negative := |s| > 0 && s[0] == '-';
    var body := if |s| > 0 && (s[0] == '+' || s[0] == '-') then s[1..] else s;
    var intPart := DigitRun(body);
    var afterInt := body[|intPart|..];
    var hasDot := |afterInt| > 0 && afterInt[0] == '.';
    var fracPart := if hasDot then DigitRun(afterInt[1..]) else "";
    var rest := if hasDot then afterInt[1 + |fracPart|..] else afterInt;
    if intPart == "" && fracPart == "" then None
    else
      var mantissa := DigitsValue(intPart) as real + DigitsValue(fracPart) as real / Pow10(|fracPart|) as real;
      var signed := if negative then -mantissa else mantissa;
      if rest == "" then Some(signed)
      else if rest[0] != 'e' && rest[0] != 'E' then None
      else
        var expBody := rest[1..];
        var expNeg := |expBody| > 0 && expBody[0] == '-';
        var expDigits := if |expBody| > 0 && (expBody[0] == '+' || expBody[0] == '-') then expBody[1..] else expBody;
        var ed := DigitRun(expDigits);
        if ed == "" || |ed| != |expDigits| then None
        else Some(Scale10(signed, if expNeg then -(DigitsValue(ed) as int) else DigitsValue(ed)))
  }

  /** JavaScript ToNumber on a string (`+s`); None stands for NaN. */
  function StringToNumber(s: string): Option<real> {
    var t := JsTrim(s);
    if t == "" then Some(0.0) else ParseDecimal(t)
  }

  predicate IsHexDigit(c: char) { IsDigit(c) || 'a' <= c <= 'f' || 'A' <= c <= 'F' }

  function HexRun(s: string): (r: string)
    ensures r <= s
    ensures forall i :: 0 <= i < |r| ==> IsHexDigit(r[i])
    decreases |s|
  {
    if s != [] && IsHexDigit(s[0]) then [s[0]] + HexRun(s[1..]) else []
  }

  function HexDigitValue(c: char): nat
    requires IsHexDigit(c)
  {
    if IsDigit(c) then c as int - '0' as int
    else if 'a' <= c <= 'f' then c as int - 'a' as int + 10
    else c as int - 'A' as int + 10
  }

  function HexValue(s: string): nat
    requires forall i :: 0 <= i < |s| ==> IsHexDigit(s[i])
    decreases |s|
  {
    if s == [] then 0 else HexValue(s[..|s| - 1]) * 16 + HexDigitValue(s[|s| - 1])
  }

  /** JavaScript `parseInt(s)` with no radix: leading whitespace, a sign,
      an optional `0x` prefix, then the longest run of digits; None is NaN. */
  function ParseInt(s: string): Option<int> {
    var t := TrimLeft(s, Js);
    var negative := |t| > 0 && t[0] == '-';
    var u := if |t| > 0 && (t[0] == '+' || t[0] == '-') then t[1..] else t;
    if |u| >= 2 && u[0] == '0' && (u[1] == 'x' || u[1] == 'X') then
      var h := HexRun(u[2..]);
      if h == "" then None else Some(if negative then -(HexValue(h) as int) else HexValue(h))
    else
      var d := DigitRun(u);
      if d == "" then None else Some(if negative then -(DigitsValue(d) as int) else DigitsValue(d))
  }

  /** A single digit, with or without a minus sign, followed by anything
      that neither continues the number nor makes it hexadecimal, parses
      to that digit. */
  lemma ParseIntOneDigit(sign: string, c: char, rest: string)
    requires sign == "" || sign == "-"
    requires IsDigit(c)
    requires rest == [] || (!IsDigit(rest[0]) && rest[0] != 'x' && rest[0] != 'X')
    ensures ParseInt(sign + [c] + rest) ==
      Some(if sign == "-" then -(c as int - '0' as int) else c as int - '0' as int)
  {
    var s := sign + [c] + rest;
    var u := [c] + rest;
    assert s[0] == if sign == "-" then '-' else c;
    assert TrimLeft(s, Js) == s;
    assert u == if sign == "-" then s[1..] else s;
    assert u[1..] == rest;
    assert DigitRun(rest) == [];
    assert DigitRun(u) == [c];
    assert !(|u| >= 2 && u[0] == '0' && (u[1] == 'x' || u[1] == 'X'));
    assert DigitsValue([c]) == c as int - '0' as int by {
      assert [c][..0] == [];
    }
  }
}
