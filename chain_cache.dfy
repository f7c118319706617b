/** The endpoints of backend/app.py that touch files and the module-level
    `rag_chain_cache`: the upload name, the vector-store directory of a
    subject, the chain memo table keyed by (directory, LLM), and its
    invalidation when a subject gets a new document. */
module RagChainCache {
  import opened Wrappers
  import opened Text

  /** `s.replace(a, b)` for single characters. */
  function ReplaceChar(s: string, a: char, b: char): (r: string)
    ensures |r| == |s|
    ensures forall i :: 0 <= i < |s| ==> r[i] == if s[i] == a then b else s[i]
    decreases |s|
  {
    if s == [] then [] else [if s[0] == a then b else s[0]] + ReplaceChar(s[1..], a, b)
  }

  /** `f"outputs/chroma_{subject.replace(' ', '_').lower()}"` */
  function ChromaDir(subject: string): string {
    "outputs/chroma_" + Lower(ReplaceChar(subject, ' ', '_'))
  }

  /** The saved file's name: `f"{subject.replace(' ', '_')}_{file.filename}"`. */
  function UploadName(subject: string, filename: string): string {
    ReplaceChar(subject, ' ', '_') + "_" + filename
  }

  /** `file_location` in `upload_pdf`. */
  function UploadLocation(subject: string, filename: string): string {
    "./uploads/" + UploadName(subject, filename)
  }

  /** POSIX `os.path.join(a, b)`: an absolute `b` replaces `a`. */
  function PathJoin(a: string, b: string): string {
    if |b| > 0 && b[0] == '/' then b
    else if a == [] || a[|a| - 1] == '/' then a + b
    else a + "/" + b
  }

  /** The response's `filename`, handed back to `ingest_pdf`, finds the
      file `upload_pdf` saved, unless the subject itself is an absolute
      path. */
  lemma UploadThenIngestFindsFile(subject: string, filename: string)
    requires subject == [] || subject[0] != '/'
    ensures PathJoin("./uploads", UploadName(subject, filename)) == UploadLocation(subject, filename)
  {
    var name := UploadName(subject, filename);
    if subject == [] {
      assert name[0] == '_';
    } else {
      assert name[0] == ReplaceChar(subject, ' ', '_')[0];
    }
  }

  /** Every subject gets its own directory under `outputs/`, named without
      spaces or capitals, one character per character of the subject. */
  lemma ChromaDirShape(subject: string)
    ensures var dir := ChromaDir(subject);
      && |dir| == 15 + |subject|
      && dir[..15] == "outputs/chroma_"
      && forall i :: 15 <= i < |dir| ==> dir[i] != ' ' && !('A' <= dir[i] <= 'Z')
  {
    var dir := ChromaDir(subject);
    var low := Lower(ReplaceChar(subject, ' ', '_'));
    assert dir[..15] == "outputs/chroma_";
    forall i | 15 <= i < |dir|
      ensures dir[i] != ' ' && !('A' <= dir[i] <= 'Z')
    {
      assert dir[i] == low[i - 15];
    }
  }

  /** The upload name keeps the original file name whole at its end, after
      the subject with its spaces turned into underscores. */
  lemma UploadNameShape(subject: string, filename: string)
    ensures var name := UploadName(subject, filename);
      && |name| == |subject| + 1 + |filename|
      && name[|subject|] == '_'
      && name[|subject| + 1..] == filename
      && forall i :: 0 <= i < |subject| ==> name[i] != ' ' && (subject[i] != ' ' ==> name[i] == subject[i])
  {
    var name := UploadName(subject, filename);
    var under := ReplaceChar(subject, ' ', '_');
    assert name == under + "_" + filename;
    assert name[|subject| + 1..] == filename;
    forall i | 0 <= i < |subject|
      ensures name[i] != ' ' && (subject[i] != ' ' ==> name[i] == subject[i])
    {
      assert name[i] == under[i];
    }
  }

  /** Subjects that differ only in case, or in spaces against
      underscores, share one vector store and one set of cached chains. */
  lemma ChromaDirFolds(s: string, t: string)
    requires |s| == |t|
    requires forall i :: 0 <= i < |s| ==>
      LowerChar(if s[i] == ' ' then '_' else s[i]) == LowerChar(if t[i] == ' ' then '_' else t[i])
    ensures ChromaDir(s) == ChromaDir(t)
  {
    assert Lower(ReplaceChar(s, ' ', '_')) == Lower(ReplaceChar(t, ' ', '_'));
  }

  /** A chain `get_rag_chain(dir, llm)` built; `serial` tells the builds
      apart. */
  datatype Chain = Chain(dir: string, llm: string, serial: nat)

  /** What `ingest_pdf` returns. */
  datatype IngestReply = IngestSuccess(message: string) | IngestError(message: string)

  /** `rag_chain_cache` with only the entries of other directories. */
  function WithoutDir(entries: map<(string, string), Chain>, dir: string): (r: map<(string, string), Chain>)
    ensures forall k :: k in r <==> k in entries && k.0 != dir
    ensures forall k :: k in r ==> r[k] == entries[k]
  {
    map k | k in entries && k.0 != dir :: entries[k]
  }

  /** The memo table and the number of chains built so far. */
  class ChainCache {
    var entries: map<(string, string), Chain>
    var built: nat

    /** Every stored chain was built for its own key, before now. */
    ghost predicate Valid()
      reads this
    {
      forall k :: k in entries ==> entries[k].dir == k.0 && entries[k].llm == k.1 && entries[k].serial < built
    }

    constructor ()
      ensures entries == map[] && built == 0
      ensures Valid()
    {
      entries := map[];
      built := 0;
    }

    /** The lookup-or-build step of `ask_question`. A hit returns the
        stored chain and builds nothing; a miss builds one chain and
        stores it under `(dir, llm)`, unless building raised (then the
        question is answered with the error and nothing is stored). */
    method ChainFor(subject: string, llm: string, buildRaises: bool) returns (chain: Option<Chain>)
      requires Valid()
      modifies this
      ensures Valid()
      ensures var key := (ChromaDir(subject), llm);
        && (key in old(entries) ==> chain == Some(old(entries)[key]) && entries == old(entries) && built == old(built))
        && (key !in old(entries) && !buildRaises ==>
              && chain == Some(Chain(key.0, llm, old(built)))
              && entries == old(entries)[key := chain.value]
              && built == old(built) + 1)
        && (key !in old(entries) && buildRaises ==> chain.None? && entries == old(entries) && built == old(built) + 1)
      ensures chain.Some? ==> chain.value.dir == ChromaDir(subject) && chain.value.llm == llm
    {
      var dir := ChromaDir(subject);
      var key := (dir, llm);
      if key in entries {
        chain := Some(entries[key]);
      } else {
        var made := Chain(dir, llm, built);
        built := built + 1;
        if buildRaises {
          chain := None;
        } else {
          entries := entries[key := made];
          chain := Some(made);
        }
      }
    }

    /** The clearing loop of `ingest_pdf`: every key of `dir` goes. */
    method Invalidate(dir: string)
      requires Valid()
      modifies this
      ensures entries == WithoutDir(old(entries), dir) && built == old(built)
      ensures Valid()
    {
      var pending := set k | k in entries && k.0 == dir;
      ghost var start := entries;
      while pending != {}
        invariant pending <= entries.Keys
        invariant forall k :: k in entries <==> k in start && (k.0 != dir || k in pending)
        invariant forall k :: k in entries ==> entries[k] == start[k]
        invariant built == old(built)
        invariant Valid()
        decreases pending
      {
        var k :| k in pending;
        entries := map k' | k' in entries && k' != k :: entries[k'];
        pending := pending - {k};
      }
      assert entries == WithoutDir(start, dir);
    }

    /** `ingest_pdf`: a missing file and a failed ingestion (the exception's
        text in `ingestRaises`) leave the table alone; a successful one
        drops exactly the subject's chains, for every LLM. */
    method Ingest(subject: string, filename: string, fileExists: bool, ingestRaises: Option<string>)
      returns (reply: IngestReply)
      requires Valid()
      modifies this
      ensures Valid() && built == old(built)
      ensures !fileExists ==> reply == IngestError("File not found!") && entries == old(entries)
      ensures fileExists && ingestRaises.Some? ==>
        reply == IngestError("Failed to ingest: " + ingestRaises.value) && entries == old(entries)
      ensures fileExists && ingestRaises.None? ==>
        && reply == IngestSuccess("Ingested " + filename + " for " + subject + "!")
        && entries == WithoutDir(old(entries), ChromaDir(subject))
    {
      if !fileExists {
        return IngestError("File not found!");
      }
      var dir := ChromaDir(subject);
      if ingestRaises.Some? {
        return IngestError("Failed to ingest: " + ingestRaises.value);
      }
      Invalidate(dir);
      reply := IngestSuccess("Ingested " + filename + " for " + subject + "!");
    }
  }

  /** After a successful ingest, every LLM's next question about the
      subject misses the table, while other subjects keep their chains. */
  lemma IngestThenAskMisses(entries: map<(string, string), Chain>, subject: string, llm: string, other: (string, string))
    ensures (ChromaDir(subject), llm) !in WithoutDir(entries, ChromaDir(subject))
    ensures other.0 != ChromaDir(subject) && other in entries ==>
      other in WithoutDir(entries, ChromaDir(subject)) && WithoutDir(entries, ChromaDir(subject))[other] == entries[other]
  {
  }
}
