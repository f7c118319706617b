/** The text and list handling of backend/src/question_generation.py: the
    word blocks handed to the summariser, the recursive summarisation
    guard, the exam-question filter, the chunk selection by file name and
    the byte string the summary cache key is hashed from. */
module QuestionGeneration {
  import opened Wrappers
  import opened Text

  // ------------------------------------------------- split_text_blocks

  /** `words[i:i+m]` for `i` in `range(0, len(words), m)`. */
  function Chunks(words: seq<string>, m: nat): (cs: seq<seq<string>>)
    requires m > 0
    decreases |words|
  {
    if words == [] then []
    else if |words| <= m then [words]
    else [words[..m]] + Chunks(words[m..], m)
  }

  function Flatten(cs: seq<seq<string>>): seq<string>
    decreases |cs|
  {
    if cs == [] then [] else cs[0] + Flatten(cs[1..])
  }

  /** `' '.join(chunk)` for every chunk. */
  function Joined(cs: seq<seq<string>>): (blocks: seq<string>)
    ensures |blocks| == |cs|
    decreases |cs|
  {
    if cs == [] then [] else [JoinWith(cs[0], " ")] + Joined(cs[1..])
  }

  /** Each block is its chunk joined with single spaces. */
  lemma {:induction false} JoinedAt(cs: seq<seq<string>>, i: nat)
    requires i < |cs|
    ensures Joined(cs)[i] == JoinWith(cs[i], " ")
    decreases i
  {
    if i > 0 {
      JoinedAt(cs[1..], i - 1);
    }
  }

  /** What `split_text_blocks(text, m)` returns. */
  function TextBlocks(text: string, m: nat): seq<string>
    requires m > 0
  {
    Joined(Chunks(PySplit(text), m))
  }

  /** `split_text_blocks(text, max_words)`; a step of 0 makes `range`
      raise, so callers pass a positive size. */
  method SplitTextBlocks(text: string, maxWords: nat) returns (blocks: seq<string>)
    requires maxWords > 0
    ensures blocks == TextBlocks(text, maxWords)
  {
    var words := PySplit(text);
    blocks := JoinChunks(words, maxWords);
  }

  /** The loop of `split_text_blocks` over the already split words. */
  method JoinChunks(words: seq<string>, maxWords: nat) returns (blocks: seq<string>)
    requires maxWords > 0
    ensures blocks == Joined(Chunks(words, maxWords))
  {
    blocks := [];
    var i := 0;
    while i < |words|
      invariant blocks + Joined(Chunks(Drop(words, i), maxWords)) == Joined(Chunks(words, maxWords))
      decreases |words| - i
    {
      var end := if i + maxWords <= |words| then i + maxWords else |words|;
      var block := JoinWith(words[i..end], " ");
      JoinStep(words, maxWords, i, blocks);
      blocks := blocks + [block];
      i := i + maxWords;
    }
  }

  /** One turn of the loop keeps its invariant. */
  lemma JoinStep(words: seq<string>, m: nat, i: nat, blocks: seq<string>)
    requires m > 0 && i < |words|
    ensures var end := if i + m <= |words| then i + m else |words|;
      blocks + Joined(Chunks(Drop(words, i), m)) ==
      (blocks + [JoinWith(words[i..end], " ")]) + Joined(Chunks(Drop(words, i + m), m))
  {
    var end := if i + m <= |words| then i + m else |words|;
    var block := JoinWith(words[i..end], " ");
    var later := Chunks(Drop(words, i + m), m);
    ChunksStep(words, i, m);
    JoinedCons(words[i..end], later);
    assert (blocks + [block]) + Joined(later) == blocks + ([block] + Joined(later));
  }

  /** `words[i:]`, empty once `i` has run past the end. */
  function Drop(words: seq<string>, i: nat): seq<string> {
    if i <= |words| then words[i..] else []
  }

  /** One turn of the loop takes the next block off the remaining words. */
  lemma ChunksStep(words: seq<string>, i: nat, m: nat)
    requires m > 0 && i < |words|
    ensures var end := if i + m <= |words| then i + m else |words|;
      Chunks(Drop(words, i), m) == [words[i..end]] + Chunks(Drop(words, i + m), m)
  {
    var rest := words[i..];
    var end := if i + m <= |words| then i + m else |words|;
    assert Drop(words, i) == rest;
    if |rest| <= m {
      assert words[i..|words|] == rest && rest != [];
      assert Chunks(rest, m) == [rest];
      assert Drop(words, i + m) == [];
    } else {
      assert rest[..m] == words[i..i + m];
      assert rest[m..] == words[i + m..] == Drop(words, i + m);
      assert Chunks(rest, m) == [words[i..end]] + Chunks(Drop(words, i + m), m);
    }
  }

  lemma JoinedCons(c: seq<string>, rest: seq<seq<string>>)
    ensures Joined([c] + rest) == [JoinWith(c, " ")] + Joined(rest)
  {
    assert ([c] + rest)[1..] == rest;
  }

  /** The chunks hold the words in order. */
  lemma {:induction false} ChunksFlatten(words: seq<string>, m: nat)
    requires m > 0
    ensures Flatten(Chunks(words, m)) == words
    decreases |words|
  {
    var cs := Chunks(words, m);
    if words == [] {
    } else if |words| <= m {
      assert Flatten(cs) == words + Flatten([]);
    } else {
      ChunksFlatten(words[m..], m);
      assert cs[1..] == Chunks(words[m..], m);
      assert Flatten(cs) == words[..m] + words[m..];
    }
  }

  /** There are ceil(n / m) chunks: the least count `c` with `n <= c * m`. */
  lemma {:induction false} ChunksCount(words: seq<string>, m: nat)
    requires m > 0
    ensures |words| <= |Chunks(words, m)| * m
    ensures |Chunks(words, m)| > 0 ==> (|Chunks(words, m)| - 1) * m < |words|
    decreases |words|
  {
    if |words| > m {
      var c := |Chunks(words[m..], m)|;
      ChunksCount(words[m..], m);
      assert |Chunks(words, m)| == c + 1;
      assert (c + 1) * m == c * m + m;
      assert c > 0 ==> (c - 1) * m + m == c * m;
    }
  }

  /** Every chunk has between 1 and `m` words, and all but the last
      exactly `m`. */
  lemma {:induction false} ChunksSizes(words: seq<string>, m: nat)
    requires m > 0
    ensures forall i :: 0 <= i < |Chunks(words, m)| ==> 1 <= |Chunks(words, m)[i]| <= m
    ensures forall i :: 0 <= i < |Chunks(words, m)| - 1 ==> |Chunks(words, m)[i]| == m
    decreases |words|
  {
    if |words| > m {
      var cs := Chunks(words, m);
      var rest := Chunks(words[m..], m);
      ChunksSizes(words[m..], m);
      forall i | 0 <= i < |cs|
        ensures 1 <= |cs[i]| <= m
        ensures i < |cs| - 1 ==> |cs[i]| == m
      {
        if i > 0 {
          assert cs[i] == rest[i - 1];
        }
      }
    }
  }

  /** Every chunk of a list of words is a list of words. */
  lemma {:induction false} ChunksOfWords(words: seq<string>, m: nat)
    requires m > 0
    requires forall k :: 0 <= k < |words| ==> IsWord(words[k])
    ensures forall i, j :: 0 <= i < |Chunks(words, m)| && 0 <= j < |Chunks(words, m)[i]| ==>
      IsWord(Chunks(words, m)[i][j])
    decreases |words|
  {
    if |words| > m {
      var cs := Chunks(words, m);
      ChunksOfWords(words[m..], m);
      forall i, j | 0 <= i < |cs| && 0 <= j < |cs[i]|
        ensures IsWord(cs[i][j])
      {
        if i == 0 {
          assert cs[0][j] == words[j];
        } else {
          assert cs[i] == Chunks(words[m..], m)[i - 1];
        }
      }
    }
  }

  /** The words of each block, one list after the other. */
  function BlockWords(blocks: seq<string>): seq<string>
    decreases |blocks|
  {
    if blocks == [] then [] else PySplit(blocks[0]) + BlockWords(blocks[1..])
  }

  lemma {:induction false} BlockWordsJoined(cs: seq<seq<string>>)
    requires forall i, j :: 0 <= i < |cs| && 0 <= j < |cs[i]| ==> IsWord(cs[i][j])
    ensures BlockWords(Joined(cs)) == Flatten(cs)
    ensures forall i :: 0 <= i < |cs| ==> PySplit(Joined(cs)[i]) == cs[i]
    decreases |cs|
  {
    if cs != [] {
      assert forall j :: 0 <= j < |cs[0]| ==> IsWord(cs[0][j]);
      SplitJoinWords(cs[0]);
      assert forall i, j :: 0 <= i < |cs[1..]| && 0 <= j < |cs[1..][i]| ==> IsWord(cs[1..][i][j]) by {
        forall i, j | 0 <= i < |cs[1..]| && 0 <= j < |cs[1..][i]|
          ensures IsWord(cs[1..][i][j])
        {
          assert cs[1..][i] == cs[i + 1];
        }
      }
      BlockWordsJoined(cs[1..]);
      assert Joined(cs)[1..] == Joined(cs[1..]);
      forall i | 0 <= i < |cs|
        ensures PySplit(Joined(cs)[i]) == cs[i]
      {
        if i > 0 {
          assert Joined(cs)[i] == Joined(cs[1..])[i - 1];
        }
      }
    }
  }

  /** The blocks hold the text's words in order, `max_words` to a block
      except the last, and there are ceil(n / max_words) of them. */
  lemma TextBlocksSpec(text: string, m: nat)
    requires m > 0
    ensures var blocks := TextBlocks(text, m);
      && BlockWords(blocks) == PySplit(text)
      && |PySplit(text)| <= |blocks| * m
      && (|blocks| > 0 ==> (|blocks| - 1) * m < |PySplit(text)|)
      && (forall i :: 0 <= i < |blocks| ==> 1 <= |PySplit(blocks[i])| <= m)
      && (forall i :: 0 <= i < |blocks| - 1 ==> |PySplit(blocks[i])| == m)
  {
    var words := PySplit(text);
    PySplitWords(text);
    ChunksFlatten(words, m);
    ChunksCount(words, m);
    ChunksSizes(words, m);
    ChunksOfWords(words, m);
    BlockWordsJoined(Chunks(words, m));
  }

  // ------------------------------------------- deep_summarize_content

  /** `summarize_block`: a blank block gives "", otherwise the stripped
      answer of the summariser; a summariser that raises (`None`) gives "". */
  function SummarizeBlock(block: string, llm: string -> Option<string>): string {
    if PyStrip(block) == "" then ""
    else match llm(block)
      case Some(answer) => PyStrip(answer)
      case None => ""
  }

  /** `summaries`: each block's summary at the block's own index, whatever
      order the workers finish in. */
  function Summaries(blocks: seq<string>, llm: string -> Option<string>): (s: seq<string>)
    ensures |s| == |blocks|
    ensures forall i :: 0 <= i < |blocks| ==> s[i] == SummarizeBlock(blocks[i], llm)
    decreases |blocks|
  {
    if blocks == [] then [] else [SummarizeBlock(blocks[0], llm)] + Summaries(blocks[1..], llm)
  }

  /** One level as written: `None` when there are no blocks, because a
      pool of `min(2, 0)` workers raises. */
  function LevelAsWritten(text: string, llm: string -> Option<string>, m: nat): Option<string>
    requires m > 0
  {
    var blocks := TextBlocks(text, m);
    if |blocks| == 0 then None else Some(JoinWith(Summaries(blocks, llm), "\n"))
  }

  /** One level as evidently intended: no blocks, no summaries, "". */
  function Level(text: string, llm: string -> Option<string>, m: nat): string
    requires m > 0
  {
    JoinWith(Summaries(TextBlocks(text, m), llm), "\n")
  }

  /** `deep_summarize_content` from `recursion_level` `level` on, as
      evidently intended; the second component is the level of the call
      that returned. */
  function DeepSummarize(text: string, llm: string -> Option<string>, m: nat, level: nat, maxRecursion: nat)
    : (r: (string, nat))
    requires m > 0
    ensures level <= r.1 <= if level < maxRecursion then maxRecursion else level
    ensures r.1 < maxRecursion ==> |PySplit(r.0)| <= m
    decreases maxRecursion - level
  {
    var combined := Level(text, llm, m);
    if level < maxRecursion && |PySplit(combined)| > m then
      DeepSummarize(combined, llm, m, level + 1, maxRecursion)
    else (combined, level)
  }

  /** The same, as written: an empty text raises on the first level. */
  function DeepSummarizeAsWritten(text: string, llm: string -> Option<string>, m: nat, level: nat, maxRecursion: nat)
    : Option<(string, nat)>
    requires m > 0
    decreases maxRecursion - level
  {
    match LevelAsWritten(text, llm, m)
    case None => None
    case Some(combined) =>
      if level < maxRecursion && |PySplit(combined)| > m then
        DeepSummarizeAsWritten(combined, llm, m, level + 1, maxRecursion)
      else Some((combined, level))
  }

  /** A text with no words has no blocks. */
  lemma NoWordsNoBlocks(text: string, m: nat)
    requires m > 0
    ensures TextBlocks(text, m) == [] <==> PySplit(text) == []
  {
    ChunksCount(PySplit(text), m);
  }

  /** Whenever the text has words, the code as written agrees with the
      intended one: only an empty first level can raise. */
  lemma {:induction false} AsWrittenAgrees(text: string, llm: string -> Option<string>, m: nat, level: nat, maxRecursion: nat)
    requires m > 0 && PySplit(text) != []
    ensures DeepSummarizeAsWritten(text, llm, m, level, maxRecursion) == Some(DeepSummarize(text, llm, m, level, maxRecursion))
    decreases maxRecursion - level
  {
    NoWordsNoBlocks(text, m);
    var combined := Level(text, llm, m);
    assert LevelAsWritten(text, llm, m) == Some(combined);
    if level < maxRecursion && |PySplit(combined)| > m {
      AsWrittenAgrees(combined, llm, m, level + 1, maxRecursion);
    }
  }

  /** As written, a text without words (no chunk matched the selected
      files) raises instead of summarising to "". */
  lemma EmptyTextRaises(text: string, llm: string -> Option<string>, m: nat, maxRecursion: nat)
    requires m > 0 && PySplit(text) == []
    ensures DeepSummarizeAsWritten(text, llm, m, 1, maxRecursion).None?
  {
    NoWordsNoBlocks(text, m);
  }

  /** As intended, it summarises to "" on the first level. */
  lemma EmptyTextEmptySummary(text: string, llm: string -> Option<string>, m: nat, maxRecursion: nat)
    requires m > 0 && PySplit(text) == []
    ensures DeepSummarize(text, llm, m, 1, maxRecursion) == ("", 1)
  {
    NoWordsNoBlocks(text, m);
    assert PySplit("") == [];
  }

  // ------------------------------------------------------ filter_summary

  /** `\w` on ASCII text: letters, digits and underscore. */
  predicate IsWordChar(c: char) {
    'a' <= c <= 'z' || 'A' <= c <= 'Z' || '0' <= c <= '9' || c == '_'
  }

  /** `phrase` matches case-insensitively at `p` and is not followed by a
      word character. */
  predicate PhraseAt(s: string, p: nat, phrase: string) {
    p + |phrase| <= |s| && StartsWithFolded(s[p..], phrase) &&
      (p + |phrase| == |s| || !IsWordChar(s[p + |phrase|]))
  }

  /** `\bexam(ination)? questions\b` matches at `p`. */
  predicate MatchesAt(s: string, p: nat) {
    (p == 0 || (p <= |s| && !IsWordChar(s[p - 1]))) &&
      (PhraseAt(s, p, "exam questions") || PhraseAt(s, p, "examination questions"))
  }

  /** `re.search(..., re.IGNORECASE)` from position `p` on. */
  predicate MentionsFrom(s: string, p: nat)
    decreases |s| - p
  {
    p <= |s| && (MatchesAt(s, p) || MentionsFrom(s, p + 1))
  }

  predicate MentionsExamQuestions(s: string) {
    MentionsFrom(s, 0)
  }

  /** The comprehension's filter. */
  function KeptBlocks(blocks: seq<string>): (kept: seq<string>)
    ensures |kept| <= |blocks|
    decreases |blocks|
  {
    if blocks == [] then []
    else (if MentionsExamQuestions(blocks[0]) then [] else [blocks[0]]) + KeptBlocks(blocks[1..])
  }

  /** `filter_summary(summary)` */
  function FilterSummary(summary: string): string {
    JoinWith(KeptBlocks(SplitOn(summary, "\n\n")), "\n\n")
  }

  /** A block survives exactly when the pattern does not occur in it. */
  lemma {:induction false} KeptBlocksMembers(blocks: seq<string>, b: string)
    ensures b in KeptBlocks(blocks) <==> b in blocks && !MentionsExamQuestions(b)
    decreases |blocks|
  {
    if blocks != [] {
      KeptBlocksMembers(blocks[1..], b);
      assert blocks == [blocks[0]] + blocks[1..];
    }
  }

  lemma {:induction false} KeptBlocksAll(blocks: seq<string>)
    requires forall i :: 0 <= i < |blocks| ==> !MentionsExamQuestions(blocks[i])
    ensures KeptBlocks(blocks) == blocks
    decreases |blocks|
  {
    if blocks != [] {
      KeptBlocksAll(blocks[1..]);
      assert blocks == [blocks[0]] + blocks[1..];
    }
  }

  /** The filtered summary is made of the summary's surviving blocks, and
      none of them mentions exam questions. */
  lemma FilterSummaryBlocks(summary: string, b: string)
    ensures b in KeptBlocks(SplitOn(summary, "\n\n")) <==>
      b in SplitOn(summary, "\n\n") && !MentionsExamQuestions(b)
  {
    KeptBlocksMembers(SplitOn(summary, "\n\n"), b);
  }

  /** A summary none of whose blocks matches comes back unchanged. */
  lemma FilterSummaryUnchanged(summary: string)
    requires forall b :: b in SplitOn(summary, "\n\n") ==> !MentionsExamQuestions(b)
    ensures FilterSummary(summary) == summary
  {
    KeptBlocksAll(SplitOn(summary, "\n\n"));
    JoinSplitOn(summary, "\n\n");
  }

  /** The heading the prompt asks the summariser to leave out is caught
      in any case. */
  lemma HeadingMatches()
    ensures MentionsExamQuestions("Examination Questions")
  {
    var s := "Examination Questions";
    assert |s| == 21 && s[0..] == s;
    StartsWithFoldedHead(s, "examination questions", []);
    assert s + [] == s;
    assert PhraseAt(s, 0, "examination questions");
  }

  /** A word that merely starts with the phrase is no match. */
  lemma NoMatchInsideWord()
    ensures !MatchesAt("exam questionsX", 0)
  {
    var s := "exam questionsX";
    assert s[14] == 'X';
  }

  // -------------------------------------------- get_chunks_by_filenames

  /** POSIX `os.path.basename`: what follows the last slash. */
  function Basename(path: string): (base: string)
    ensures |base| <= |path| && base == path[|path| - |base|..]
    ensures forall i :: 0 <= i < |base| ==> base[i] != '/'
    ensures |base| < |path| ==> path[|path| - |base| - 1] == '/'
    decreases |path|
  {
    if path == [] || path[|path| - 1] == '/' then []
    else Basename(path[..|path| - 1]) + [path[|path| - 1]]
  }

  /** `filenames_set` */
  function BasenameSet(filenames: seq<string>): set<string> {
    set f | f in filenames :: Basename(f)
  }

  /** A chunk is wanted when its `source_pdf` metadata is present and
      non-empty and its base name was asked for. */
  predicate Wanted(sourcePdf: Option<string>, wanted: set<string>) {
    sourcePdf.Some? && sourcePdf.value != "" && Basename(sourcePdf.value) in wanted
  }

  /** The chunks kept from the first `|docs|` (document, source_pdf) pairs. */
  function Matching(docs: seq<string>, sources: seq<Option<string>>, wanted: set<string>): seq<string>
    requires |docs| == |sources|
    decreases |docs|
  {
    if docs == [] then []
    else
      var n := |docs| - 1;
      Matching(docs[..n], sources[..n], wanted) + (if Wanted(sources[n], wanted) then [docs[n]] else [])
  }

  /** `get_chunks_by_filenames`: the loop over `zip(documents, metadatas)`,
      with each metadata reduced to its `source_pdf` entry. */
  method GetChunksByFilenames(docs: seq<string>, sources: seq<Option<string>>, filenames: seq<string>)
    returns (matched: seq<string>)
    ensures var n := if |docs| <= |sources| then |docs| else |sources|;
      matched == Matching(docs[..n], sources[..n], BasenameSet(filenames))
  {
    var wanted := BasenameSet(filenames);
    var n := if |docs| <= |sources| then |docs| else |sources|;
    matched := [];
    for i := 0 to n
      invariant matched == Matching(docs[..i], sources[..i], wanted)
    {
      assert docs[..i + 1][..i] == docs[..i] && sources[..i + 1][..i] == sources[..i];
      if sources[i].Some? && sources[i].value != "" {
        var base := Basename(sources[i].value);
        if base in wanted {
          matched := matched + [docs[i]];
        }
      }
    }
  }

  /** Every kept chunk comes from a position whose source is wanted. */
  lemma {:induction false} MatchingOrigin(docs: seq<string>, sources: seq<Option<string>>, wanted: set<string>, d: string)
    returns (i: nat)
    requires |docs| == |sources|
    requires d in Matching(docs, sources, wanted)
    ensures i < |docs| && docs[i] == d && Wanted(sources[i], wanted)
    decreases |docs|
  {
    var n := |docs| - 1;
    var front := Matching(docs[..n], sources[..n], wanted);
    if d in front {
      i := MatchingOrigin(docs[..n], sources[..n], wanted, d);
      assert docs[..n][i] == docs[i] && sources[..n][i] == sources[i];
    } else {
      i := n;
    }
  }

  /** Every position whose source is wanted has its chunk kept. */
  lemma {:induction false} MatchingKeeps(docs: seq<string>, sources: seq<Option<string>>, wanted: set<string>, i: nat)
    requires |docs| == |sources|
    requires i < |docs| && Wanted(sources[i], wanted)
    ensures docs[i] in Matching(docs, sources, wanted)
    decreases |docs|
  {
    var n := |docs| - 1;
    if i < n {
      assert docs[..n][i] == docs[i] && sources[..n][i] == sources[i];
      MatchingKeeps(docs[..n], sources[..n], wanted, i);
    }
  }

  /** Asking for a path or for its base name selects the same chunks. */
  lemma BasenameIdempotent(path: string)
    ensures Basename(Basename(path)) == Basename(path)
  {
    var b := Basename(path);
    if b != [] {
      BasenameNoSlash(b);
    }
  }

  lemma {:induction false} BasenameNoSlash(s: string)
    requires forall i :: 0 <= i < |s| ==> s[i] != '/'
    ensures Basename(s) == s
    decreases |s|
  {
    if s != [] {
      BasenameNoSlash(s[..|s| - 1]);
    }
  }

  // ------------------------------------------------- make_summary_cache_key

  /** `sorted(filenames)`: insertion into code-point order. */
  function Insert(x: string, s: seq<string>): seq<string>
    decreases |s|
  {
    if s == [] || StrLe(x, s[0]) then [x] + s else [s[0]] + Insert(x, s[1..])
  }

  function Sorted(xs: seq<string>): seq<string>
    decreases |xs|
  {
    if xs == [] then [] else Insert(xs[0], Sorted(xs[1..]))
  }

  predicate IsSorted(s: seq<string>) {
    forall i, j :: 0 <= i < j < |s| ==> StrLe(s[i], s[j])
  }

  lemma {:induction false} InsertPerm(x: string, s: seq<string>)
    ensures multiset(Insert(x, s)) == multiset(s) + multiset{x}
    decreases |s|
  {
    if s != [] && !StrLe(x, s[0]) {
      InsertPerm(x, s[1..]);
      assert s == [s[0]] + s[1..];
    }
  }

  /** The head of a sorted list is below everything in it. */
  lemma SortedHeadLe(s: seq<string>, y: string)
    requires IsSorted(s) && y in s
    ensures StrLe(s[0], y)
  {
    var k :| 0 <= k < |s| && s[k] == y;
    if k == 0 {
      StrLeRefl(y);
    }
  }

  lemma SortedCons(x: string, s: seq<string>)
    requires IsSorted(s)
    requires forall y :: y in s ==> StrLe(x, y)
    ensures IsSorted([x] + s)
  {
    var r := [x] + s;
    forall i, j | 0 <= i < j < |r|
      ensures StrLe(r[i], r[j])
    {
      assert r[j] == s[j - 1];
      if i > 0 {
        assert r[i] == s[i - 1];
      }
    }
  }

  lemma SortedTail(s: seq<string>)
    requires IsSorted(s) && s != []
    ensures IsSorted(s[1..])
  {
    forall i, j | 0 <= i < j < |s[1..]|
      ensures StrLe(s[1..][i], s[1..][j])
    {
      assert s[1..][i] == s[i + 1] && s[1..][j] == s[j + 1];
    }
  }

  lemma {:induction false} InsertSorted(x: string, s: seq<string>)
    requires IsSorted(s)
    ensures IsSorted(Insert(x, s))
    decreases |s|
  {
    if s == [] {
      SortedCons(x, s);
    } else if StrLe(x, s[0]) {
      forall y | y in s
        ensures StrLe(x, y)
      {
        SortedHeadLe(s, y);
        StrLeTrans(x, s[0], y);
      }
      SortedCons(x, s);
    } else {
      var t := Insert(x, s[1..]);
      SortedTail(s);
      InsertSorted(x, s[1..]);
      InsertPerm(x, s[1..]);
      StrLeTotal(x, s[0]);
      forall y | y in t
        ensures StrLe(s[0], y)
      {
        assert y in multiset(t);
        if y != x {
          assert y in s[1..];
          SortedHeadLe(s, y);
        }
      }
      SortedCons(s[0], t);
    }
  }

  lemma {:induction false} SortedShape(xs: seq<string>)
    ensures IsSorted(Sorted(xs)) && multiset(Sorted(xs)) == multiset(xs)
    decreases |xs|
  {
    if xs != [] {
      SortedShape(xs[1..]);
      InsertSorted(xs[0], Sorted(xs[1..]));
      InsertPerm(xs[0], Sorted(xs[1..]));
      assert xs == [xs[0]] + xs[1..];
    }
  }

  lemma MultisetTail(a: seq<string>, b: seq<string>)
    requires a != [] && b != [] && a[0] == b[0] && multiset(a) == multiset(b)
    ensures multiset(a[1..]) == multiset(b[1..])
  {
    assert a == [a[0]] + a[1..] && b == [b[0]] + b[1..];
    assert multiset(a) == multiset([a[0]]) + multiset(a[1..]);
    assert multiset(b) == multiset([b[0]]) + multiset(b[1..]);
    forall z
      ensures multiset(a[1..])[z] == multiset(b[1..])[z]
    {
      assert multiset(a)[z] == multiset([a[0]])[z] + multiset(a[1..])[z];
      assert multiset(b)[z] == multiset([b[0]])[z] + multiset(b[1..])[z];
    }
  }

  /** Two sorted arrangements of the same names are the same list. */
  lemma {:induction false} SortedUnique(a: seq<string>, b: seq<string>)
    requires IsSorted(a) && IsSorted(b) && multiset(a) == multiset(b)
    ensures a == b
    decreases |a|
  {
    if a != [] {
      assert |b| == |a| by {
        assert |multiset(a)| == |multiset(b)|;
      }
      assert a[0] in multiset(b) && b[0] in multiset(a);
      SortedHeadLe(b, a[0]);
      SortedHeadLe(a, b[0]);
      StrLeAntisym(a[0], b[0]);
      MultisetTail(a, b);
      SortedTail(a);
      SortedTail(b);
      SortedUnique(a[1..], b[1..]);
    }
  }

  function Concat(parts: seq<string>): string
    decreases |parts|
  {
    if parts == [] then "" else parts[0] + Concat(parts[1..])
  }

  /** The bytes the SHA-256 of `make_summary_cache_key` is taken over:
      every `update` appends to the same stream. */
  function KeyPreimage(subject: string, filenames: seq<string>, llmChoice: string, extraContext: string): string {
    subject + Concat(Sorted(filenames)) + llmChoice + PyStrip(extraContext)
  }

  /** `make_summary_cache_key` up to the hash: the `update` calls in order. */
  method MakeSummaryCacheKey(subject: string, filenames: seq<string>, llmChoice: string, extraContext: string)
    returns (fed: string)
    ensures fed == KeyPreimage(subject, filenames, llmChoice, extraContext)
  {
    fed := subject;
    var names := Sorted(filenames);
    for i := 0 to |names|
      invariant fed == subject + Concat(names[..i])
    {
      ConcatAppend(names[..i], names[i]);
      assert names[..i + 1] == names[..i] + [names[i]];
      fed := fed + names[i];
    }
    assert names[..|names|] == names;
    fed := fed + llmChoice;
    fed := fed + PyStrip(extraContext);
  }

  lemma {:induction false} ConcatAppend(parts: seq<string>, p: string)
    ensures Concat(parts + [p]) == Concat(parts) + p
    decreases |parts|
  {
    if parts != [] {
      assert (parts + [p])[1..] == parts[1..] + [p];
      ConcatAppend(parts[1..], p);
    } else {
      assert [] + [p] == [p];
    }
  }

  /** Choosing the same files in another order gives the same key. */
  lemma KeyIgnoresFileOrder(subject: string, fs: seq<string>, gs: seq<string>, llmChoice: string, extra: string)
    requires multiset(fs) == multiset(gs)
    ensures KeyPreimage(subject, fs, llmChoice, extra) == KeyPreimage(subject, gs, llmChoice, extra)
  {
    SortedShape(fs);
    SortedShape(gs);
    SortedUnique(Sorted(fs), Sorted(gs));
  }

  /** Whitespace around the extra context does not change the key. */
  lemma KeyIgnoresContextPadding(subject: string, fs: seq<string>, llmChoice: string, w1: string, extra: string, w2: string)
    requires AllSpace(w1, Py) && AllSpace(w2, Py)
    ensures KeyPreimage(subject, fs, llmChoice, w1 + extra + w2) == KeyPreimage(subject, fs, llmChoice, extra)
  {
    TrimSurrounding(w1, extra, w2, Py);
  }

  /** The parts are not delimited, so a file name can move into the
      subject without changing the key. */
  lemma KeyPartsRun(subject: string, f: string, llmChoice: string, extra: string)
    ensures KeyPreimage(subject, [f], llmChoice, extra) == KeyPreimage(subject + f, [], llmChoice, extra)
  {
    assert Sorted([f]) == [f];
    assert Concat([f]) == f + Concat([]);
  }
}
