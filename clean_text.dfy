/** `final_clean_text` of backend/src/utils.py: three regular-expression
    substitutions and a strip that turn text extracted from a PDF into one
    clean line. */
module CleanText {
  import opened Text

  /** `re.sub(r'-\n', '', text)`: a left-to-right scan that drops each
      non-overlapping hyphen-newline pair. */
  function DropHyphenBreaks(s: string): (r: string)
    ensures |r| <= |s|
    decreases |s|
  {
    if s == [] then []
    else if "-\n" <= s then DropHyphenBreaks(s[2..])
    else [s[0]] + DropHyphenBreaks(s[1..])
  }

  /** The rest of `s` after its leading run of `c`. */
  function DropRun(s: string, c: char): (r: string)
    ensures |r| <= |s|
    ensures s != [] && s[0] == c ==> |r| < |s|
    ensures r == [] || r[0] != c
    decreases |s|
  {
    if s != [] && s[0] == c then DropRun(s[1..], c) else s
  }

  /** `re.sub(c + '+', ' ', s)`: every maximal run of `c` becomes one space. */
  function RunsToSpace(s: string, c: char): string
    decreases |s|
  {
    if s == [] then []
    else if s[0] == c then " " + RunsToSpace(DropRun(s, c), c)
    else [s[0]] + RunsToSpace(s[1..], c)
  }

  /** `final_clean_text(text)` */
  function FinalCleanText(text: string): string {
    PyStrip(RunsToSpace(RunsToSpace(DropHyphenBreaks(text), '\n'), ' '))
  }

  predicate NoChar(s: string, c: char) {
    forall i :: 0 <= i < |s| ==> s[i] != c
  }

  predicate NoDoubleSpace(s: string) {
    forall i :: 0 <= i < |s| - 1 ==> !(s[i] == ' ' && s[i + 1] == ' ')
  }

  // ------------------------------------------------ hyphenated line breaks

  /** A hyphen at the end of a line is removed together with the line
      break, joining the two halves of the word, wherever it occurs. */
  lemma {:induction false} JoinsHyphenatedWords(a: string, b: string)
    ensures DropHyphenBreaks(a + "-\n" + b) == DropHyphenBreaks(a) + DropHyphenBreaks(b)
    decreases |a|
  {
    var s := a + "-\n" + b;
    if a == [] {
      assert s == "-\n" + b;
      DropHyphenPair(b);
    } else if "-\n" <= a {
      var rest := a[2..] + "-\n" + b;
      assert s == "-\n" + rest;
      DropHyphenPair(rest);
      assert a == "-\n" + a[2..];
      DropHyphenPair(a[2..]);
      JoinsHyphenatedWords(a[2..], b);
    } else {
      var rest := a[1..] + "-\n" + b;
      assert s == [a[0]] + rest;
      assert !("-\n" <= s) by {
        if |a| >= 2 {
          assert s[..2] == a[..2];
        } else {
          assert s[1] == '-';
        }
      }
      DropHyphenKeep(a[0], rest);
      assert a == [a[0]] + a[1..];
      DropHyphenKeep(a[0], a[1..]);
      JoinsHyphenatedWords(a[1..], b);
      AppendAssoc([a[0]], DropHyphenBreaks(a[1..]), DropHyphenBreaks(b));
    }
  }

  lemma AppendAssoc(x: string, y: string, z: string)
    ensures x + (y + z) == (x + y) + z
  {
  }

  /** A hyphen-newline pair at the front goes. */
  lemma DropHyphenPair(rest: string)
    ensures DropHyphenBreaks("-\n" + rest) == DropHyphenBreaks(rest)
  {
    assert ("-\n" + rest)[2..] == rest;
  }

  /** A character that does not start a pair stays. */
  lemma DropHyphenKeep(c: char, rest: string)
    requires !("-\n" <= [c] + rest)
    ensures DropHyphenBreaks([c] + rest) == [c] + DropHyphenBreaks(rest)
  {
    assert ([c] + rest)[1..] == rest;
  }

  /** Without line breaks the first substitution changes nothing. */
  lemma {:induction false} DropHyphenBreaksNoNewline(s: string)
    requires NoChar(s, '\n')
    ensures DropHyphenBreaks(s) == s
    decreases |s|
  {
    if s != [] {
      if |s| >= 2 {
        assert s[1] != '\n';
      }
      DropHyphenBreaksNoNewline(s[1..]);
    }
  }

  // ----------------------------------------------------- runs to a space

  /** Replacing the runs of a character other than space removes it
      entirely, and never brings in a character other than space. */
  lemma {:induction false} RunsToSpaceNoChar(s: string, c: char, d: char)
    requires d != ' '
    requires d == c || NoChar(s, d)
    ensures NoChar(RunsToSpace(s, c), d)
    decreases |s|
  {
    if s != [] {
      var rest := if s[0] == c then DropRun(s, c) else s[1..];
      DropRunShape(s, c);
      assert d == c || NoChar(rest, d);
      RunsToSpaceNoChar(rest, c, d);
    }
  }

  /** What `DropRun` keeps is a suffix of its input. */
  lemma {:induction false} DropRunShape(s: string, c: char)
    ensures DropRun(s, c) == s[|s| - |DropRun(s, c)|..]
    decreases |s|
  {
    if s != [] && s[0] == c {
      DropRunShape(s[1..], c);
    }
  }

  /** The result starts with the input's first character, or a space in
      place of a run of `c`. */
  lemma RunsToSpaceHead(s: string, c: char)
    requires s != []
    ensures RunsToSpace(s, c) != []
    ensures RunsToSpace(s, c)[0] == if s[0] == c then ' ' else s[0]
  {
  }

  /** After squeezing, no two spaces are adjacent. */
  lemma {:induction false} SqueezeNoDoubleSpace(s: string)
    ensures NoDoubleSpace(RunsToSpace(s, ' '))
    decreases |s|
  {
    if s != [] {
      var rest := if s[0] == ' ' then DropRun(s, ' ') else s[1..];
      var tail := RunsToSpace(rest, ' ');
      var r := RunsToSpace(s, ' ');
      SqueezeNoDoubleSpace(rest);
      assert r == [if s[0] == ' ' then ' ' else s[0]] + tail;
      if s[0] == ' ' && tail != [] {
        RunsToSpaceHead(rest, ' ');
        assert tail[0] != ' ';
      }
      forall i | 0 <= i < |r| - 1
        ensures !(r[i] == ' ' && r[i + 1] == ' ')
      {
        if i > 0 {
          assert r[i] == tail[i - 1] && r[i + 1] == tail[i];
        }
      }
    }
  }

  /** Text without `c` passes through the replacement unchanged. */
  lemma {:induction false} RunsToSpaceNoRuns(s: string, c: char)
    requires NoChar(s, c)
    ensures RunsToSpace(s, c) == s
    decreases |s|
  {
    if s != [] {
      RunsToSpaceNoRuns(s[1..], c);
    }
  }

  /** Single spaces pass through the squeeze unchanged. */
  lemma {:induction false} SqueezeSingleSpaces(s: string)
    requires NoDoubleSpace(s)
    ensures RunsToSpace(s, ' ') == s
    decreases |s|
  {
    if s != [] {
      assert NoDoubleSpace(s[1..]) by {
        forall i | 0 <= i < |s[1..]| - 1
          ensures !(s[1..][i] == ' ' && s[1..][i + 1] == ' ')
        {
          assert s[1..][i] == s[i + 1] && s[1..][i + 1] == s[i + 2];
        }
      }
      SqueezeSingleSpaces(s[1..]);
      if s[0] == ' ' {
        if |s| > 1 {
          assert s[1] != ' ';
        }
        assert DropRun(s, ' ') == s[1..] by {
          assert DropRun(s[1..], ' ') == s[1..];
        }
        assert s == " " + s[1..];
      } else {
        assert s == [s[0]] + s[1..];
      }
    }
  }

  // ------------------------------------------------------------ strip

  /** A stripped string is a contiguous piece of its input. */
  lemma StripSlice(s: string) returns (k: nat)
    ensures k + |PyStrip(s)| <= |s| && PyStrip(s) == s[k..k + |PyStrip(s)|]
  {
    var l := TrimLeft(s, Py);
    TrimLeftShape(s, Py);
    TrimRightShape(l, Py);
    k := |s| - |l|;
    var r := PyStrip(s);
    assert r == l[..|r|];
  }

  lemma StripKeeps(s: string)
    ensures NoChar(s, '\n') ==> NoChar(PyStrip(s), '\n')
    ensures NoDoubleSpace(s) ==> NoDoubleSpace(PyStrip(s))
  {
    var k := StripSlice(s);
    var r := PyStrip(s);
    assert forall i :: 0 <= i < |r| ==> r[i] == s[k + i];
  }

  /** A string that neither starts nor ends with whitespace strips to
      itself. */
  lemma StripStripped(s: string)
    requires s == [] || (!IsPySpace(s[0]) && !IsPySpace(s[|s| - 1]))
    ensures PyStrip(s) == s
  {
  }

  // ------------------------------------------------------------ the whole

  /** One line, single spaces, no whitespace at either end. */
  predicate IsCleanLine(s: string) {
    && NoChar(s, '\n')
    && NoDoubleSpace(s)
    && (s == [] || (!IsPySpace(s[0]) && !IsPySpace(s[|s| - 1])))
  }

  /** Every cleaned text is a clean line. */
  lemma FinalCleanShape(text: string)
    ensures IsCleanLine(FinalCleanText(text))
  {
    var a := DropHyphenBreaks(text);
    var b := RunsToSpace(a, '\n');
    var c := RunsToSpace(b, ' ');
    RunsToSpaceNoChar(a, '\n', '\n');
    RunsToSpaceNoChar(b, ' ', '\n');
    SqueezeNoDoubleSpace(b);
    StripKeeps(c);
    TrimShape(c, Py);
  }

  /** A clean line is left exactly as it is. */
  lemma FinalCleanFixes(s: string)
    requires IsCleanLine(s)
    ensures FinalCleanText(s) == s
  {
    DropHyphenBreaksNoNewline(s);
    RunsToSpaceNoRuns(s, '\n');
    SqueezeSingleSpaces(s);
    StripStripped(s);
  }

  /** Cleaning twice is cleaning once. */
  lemma FinalCleanIdempotent(text: string)
    ensures FinalCleanText(FinalCleanText(text)) == FinalCleanText(text)
  {
    FinalCleanShape(text);
    FinalCleanFixes(FinalCleanText(text));
  }

  /** A word of a clean line broken across two lines with a hyphen comes
      back whole. */
  lemma HyphenatedWordJoined(a: string, b: string)
    requires IsCleanLine(a + b)
    ensures FinalCleanText(a + "-\n" + b) == a + b
  {
    var s := a + b;
    assert NoChar(a, '\n') by {
      assert forall i :: 0 <= i < |a| ==> a[i] == s[i];
    }
    assert NoChar(b, '\n') by {
      assert forall i :: 0 <= i < |b| ==> b[i] == s[|a| + i];
    }
    JoinsHyphenatedWords(a, b);
    DropHyphenBreaksNoNewline(a);
    DropHyphenBreaksNoNewline(b);
    RunsToSpaceNoRuns(s, '\n');
    SqueezeSingleSpaces(s);
    StripStripped(s);
  }
}
