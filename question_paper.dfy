/** The form state of frontend/src/pages/QuestionPaperPage.jsx: the subject
    and PDF choice, the question types with their per-type counts, the
    checks `handleGenerate` makes before it posts, and the payload it
    posts. */
module QuestionPaperForm {
  import opened Wrappers
  import opened Text
  import opened Assoc
  import opened JsValues
  import opened OrderedSet

  /** The page's `PDFS` table. */
  const Pdfs: map<string, seq<string>> := map[
    "Machine Learning" := [
      "Machine_Learning_ML_course_content_1.pdf",
      "Machine_Learning_ML_course_content_2.pdf",
      "Machine_Learning_ML_course_content_3.pdf"],
    "Natural Language Processing" := ["NLP_Unit1.pdf", "NLP_Unit2.pdf"]
  ]

  const MissingInputs := "Select subject and PDF(s)."
  const NoTypes := "Select at least one question type."
  const SumMismatch := "Sum of question types must equal total questions."

  /** The snackbar: closed, or open with a kind and a message. */
  datatype Snackbar = Closed | Open(kind: string, message: string)

  /** What `axios.post` gives: the response's `summary` and `questions`,
      or a rejection. */
  datatype PostReply = Posted(summary: Value, questions: Value) | PostFailed

  /** The request body of `handleGenerate`. */
  datatype Payload = Payload(
    subject: string,
    filenames: seq<string>,
    llmChoice: string,
    totalQuestions: int,
    difficulty: string,
    distribution: seq<(string, int)>,
    extraContext: string)

  /** `Math.max(0, parseInt(value) || 0)` */
  function StoredCount(value: string): (n: int)
    ensures n >= 0
    ensures ParseInt(value).Some? && ParseInt(value).value >= 0 ==> n == ParseInt(value).value
    ensures ParseInt(value).None? ==> n == 0
  {
    match ParseInt(value)
    case None => 0
    case Some(v) => if v < 0 then 0 else v
  }

  /** `Object.values(distribution).reduce((a, b) => a + b, 0)` */
  function CountSum(fs: seq<(string, int)>): int
    decreases |fs|
  {
    if fs == [] then 0 else fs[0].1 + CountSum(fs[1..])
  }

  /** `parseInt(totalQuestions)`: the field starts as the number 5 and
      holds the input's text after an edit. */
  function TotalOf(totalQuestions: Value): Option<int> {
    ParseInt(ToJsString(totalQuestions))
  }

  /** The checks of `handleGenerate`, in order; `None` when all pass. */
  function Validation(subject: string, selectedPdfs: seq<string>, types: seq<string>,
                      distribution: seq<(string, int)>, totalQuestions: Value): (r: Option<string>)
    ensures r == Some(MissingInputs) <==> subject == "" || selectedPdfs == []
    ensures r == Some(NoTypes) <==> subject != "" && selectedPdfs != [] && types == []
    ensures r == Some(SumMismatch) <==>
      subject != "" && selectedPdfs != [] && types != [] && TotalOf(totalQuestions) != Some(CountSum(distribution))
    ensures r.None? <==> subject != "" && selectedPdfs != [] && types != [] && TotalOf(totalQuestions) == Some(CountSum(distribution))
  {
    if subject == "" || selectedPdfs == [] then Some(MissingInputs)
    else if types == [] then Some(NoTypes)
    else if TotalOf(totalQuestions) != Some(CountSum(distribution)) then Some(SumMismatch)
    else None
  }

  /** The form state, changed only through its setters and handlers. */
  class QuestionPaperPage {
    var subject: string
    var pdfs: seq<string>
    var selectedPdfs: seq<string>
    var llmChoice: string
    var difficulty: string
    var totalQuestions: Value
    var questionTypes: seq<string>
    var distribution: seq<(string, int)>
    var extraContext: string
    var loading: bool
    var summary: Value
    var questions: Value
    var snackbar: Snackbar

    /** The type list has no repeats, the counts are keyed by distinct
        checked types, and no count is negative. */
    ghost predicate Valid()
      reads this
    {
      && NoDups(questionTypes)
      && DistinctKeys(distribution)
      && (forall k :: k in KeysOf(distribution) ==> k in questionTypes)
      && (forall i :: 0 <= i < |distribution| ==> distribution[i].1 >= 0)
    }

    constructor ()
      ensures Valid()
      ensures subject == "" && pdfs == [] && selectedPdfs == []
      ensures llmChoice == "groq" && difficulty == "medium" && totalQuestions == Num(5.0)
      ensures questionTypes == [] && distribution == [] && extraContext == ""
      ensures !loading && summary == Str("") && questions == Str("") && snackbar == Closed
    {
      subject := "";
      pdfs := [];
      selectedPdfs := [];
      llmChoice := "groq";
      difficulty := "medium";
      totalQuestions := Num(5.0);
      questionTypes := [];
      distribution := [];
      extraContext := "";
      loading := false;
      summary := Str("");
      questions := Str("");
      snackbar := Closed;
    }

    /** `setSubject` and the effect that runs when the subject changes to
        a non-empty one: that subject's PDFs, none selected. */
    method ChangeSubject(s: string)
      modifies this
      ensures subject == s
      ensures s != "" && s != old(subject) ==>
        pdfs == (if s in Pdfs then Pdfs[s] else []) && selectedPdfs == []
      ensures s == "" || s == old(subject) ==> pdfs == old(pdfs) && selectedPdfs == old(selectedPdfs)
      ensures questionTypes == old(questionTypes) && distribution == old(distribution)
      ensures totalQuestions == old(totalQuestions) && loading == old(loading)
      ensures Valid() == old(Valid())
    {
      var changed := s != subject;
      subject := s;
      if changed && s != "" {
        pdfs := if s in Pdfs then Pdfs[s] else [];
        selectedPdfs := [];
      }
    }

    /** `handleTypeChange(type)`: unchecking drops the type and its count,
        checking appends the type and leaves the counts alone. */
    method HandleTypeChange(t: string)
      requires Valid()
      modifies this
      ensures Valid()
      ensures t in old(questionTypes) ==>
        && questionTypes == Delete(old(questionTypes), t)
        && distribution == Remove(old(distribution), t)
      ensures t !in old(questionTypes) ==>
        questionTypes == old(questionTypes) + [t] && distribution == old(distribution)
      ensures t in questionTypes <==> t !in old(questionTypes)
      ensures forall k :: k != t ==> (k in questionTypes <==> k in old(questionTypes))
      ensures forall k :: k != t ==> Lookup(distribution, k) == Lookup(old(distribution), k)
      ensures subject == old(subject) && selectedPdfs == old(selectedPdfs)
      ensures totalQuestions == old(totalQuestions) && loading == old(loading)
    {
      if t in questionTypes {
        DeleteNoDups(questionTypes, t);
        RemoveKeepsShape(distribution, t);
        forall k
          ensures Lookup(Remove(distribution, t), k) == if k == t then None else Lookup(distribution, k)
          ensures k in KeysOf(Remove(distribution, t)) <==> k in KeysOf(distribution) && k != t
        {
          RemoveLookup(distribution, t, k);
        }
        questionTypes := Delete(questionTypes, t);
        distribution := Remove(distribution, t);
      } else {
        AppendNoDups(questionTypes, [t]);
        questionTypes := questionTypes + [t];
      }
    }

    /** `handleDistributionChange(type, value)` for a checked type: its
        count becomes the stored count of the text, the rest stay. */
    method HandleDistributionChange(t: string, value: string)
      requires Valid() && t in questionTypes
      modifies this
      ensures Valid()
      ensures distribution == Put(old(distribution), t, StoredCount(value))
      ensures Lookup(distribution, t) == Some(StoredCount(value))
      ensures forall k :: k != t ==> Lookup(distribution, k) == Lookup(old(distribution), k)
      ensures questionTypes == old(questionTypes) && subject == old(subject)
      ensures selectedPdfs == old(selectedPdfs) && totalQuestions == old(totalQuestions)
    {
      PutKeepsShape(distribution, t, StoredCount(value));
      forall k
        ensures Lookup(Put(distribution, t, StoredCount(value)), k) ==
          if k == t then Some(StoredCount(value)) else Lookup(distribution, k)
      {
        PutLookup(distribution, t, StoredCount(value), k);
      }
      distribution := Put(distribution, t, StoredCount(value));
    }

    /** The request part of `handleGenerate`: loading while the post is
        in flight, then the reply's texts or the failure notice. */
    method Post(reply: PostReply)
      modifies this
      ensures !loading
      ensures reply.Posted? ==>
        summary == reply.summary && questions == reply.questions && snackbar == Open("success", "Question paper generated!")
      ensures reply.PostFailed? ==>
        summary == old(summary) && questions == old(questions) && snackbar == Open("error", "Error generating question paper.")
      ensures subject == old(subject) && selectedPdfs == old(selectedPdfs) && pdfs == old(pdfs)
      ensures questionTypes == old(questionTypes) && distribution == old(distribution)
      ensures totalQuestions == old(totalQuestions)
    {
      loading := true;
      if reply.Posted? {
        summary := reply.summary;
        questions := reply.questions;
        snackbar := Open("success", "Question paper generated!");
      } else {
        snackbar := Open("error", "Error generating question paper.");
      }
      loading := false;
    }

    /** `handleGenerate`: clear the outputs, check, then post. A payload
        goes out exactly when every check passes; it carries the parsed
        total, which then equals the sum of the counts. */
    method HandleGenerate(reply: PostReply) returns (sent: Option<Payload>)
      modifies this
      ensures var err := Validation(old(subject), old(selectedPdfs), old(questionTypes),
                                    old(distribution), old(totalQuestions));
        && (sent.None? <==> err.Some?)
        && (err.Some? ==> snackbar == Open("error", err.value) && loading == old(loading))
        && (sent.Some? ==> sent.value == Payload(old(subject), old(selectedPdfs), old(llmChoice),
                                                 TotalOf(old(totalQuestions)).value, old(difficulty),
                                                 old(distribution), old(extraContext)))
      ensures sent.Some? ==> sent.value.totalQuestions == CountSum(sent.value.distribution) && !loading
      ensures sent.None? || reply.PostFailed? ==> summary == Str("") && questions == Str("")
      ensures sent.Some? && reply.Posted? ==>
        summary == reply.summary && questions == reply.questions && snackbar == Open("success", "Question paper generated!")
      ensures sent.Some? && reply.PostFailed? ==> snackbar == Open("error", "Error generating question paper.")
      ensures subject == old(subject) && selectedPdfs == old(selectedPdfs) && pdfs == old(pdfs)
      ensures questionTypes == old(questionTypes) && distribution == old(distribution)
      ensures totalQuestions == old(totalQuestions)
    {
      questions := Str("");
      summary := Str("");
      snackbar := Closed;
      var err := Validation(subject, selectedPdfs, questionTypes, distribution, totalQuestions);
      if err.Some? {
        snackbar := Open("error", err.value);
        return None;
      }
      sent := Some(Payload(subject, selectedPdfs, llmChoice, TotalOf(totalQuestions).value,
                           difficulty, distribution, extraContext));
      Post(reply);
    }
  }

  // ------------------------------------------------------------ helpers

  /** Removing a key keeps the keys distinct and the counts as they were. */
  lemma {:induction false} RemoveKeepsShape(fs: seq<(string, int)>, k: string)
    requires DistinctKeys(fs)
    ensures DistinctKeys(Remove(fs, k))
    ensures (forall i :: 0 <= i < |fs| ==> fs[i].1 >= 0) ==>
      forall i :: 0 <= i < |Remove(fs, k)| ==> Remove(fs, k)[i].1 >= 0
    decreases |fs|
  {
    if fs != [] {
      RemoveKeepsShape(fs[1..], k);
      RemoveLookup(fs[1..], k, fs[0].0);
      LookupAbsent(fs[1..], fs[0].0);
      LookupAbsent(Remove(fs[1..], k), fs[0].0);
    }
  }

  /** Storing a non-negative count keeps the keys distinct and every count
      non-negative. */
  lemma {:induction false} PutKeepsShape(fs: seq<(string, int)>, k: string, x: int)
    requires DistinctKeys(fs) && x >= 0
    requires forall i :: 0 <= i < |fs| ==> fs[i].1 >= 0
    ensures DistinctKeys(Put(fs, k, x))
    ensures forall i :: 0 <= i < |Put(fs, k, x)| ==> Put(fs, k, x)[i].1 >= 0
    ensures forall j :: j in KeysOf(Put(fs, k, x)) <==> j in KeysOf(fs) || j == k
    decreases |fs|
  {
    PutKeys(fs, k, x);
    if fs != [] && fs[0].0 != k {
      PutKeepsShape(fs[1..], k, x);
      PutKeys(fs[1..], k, x);
      var rest := Put(fs[1..], k, x);
      assert ([fs[0]] + rest)[1..] == rest;
    } else if fs != [] {
      assert ([(k, x)] + fs[1..])[1..] == fs[1..];
    }
  }

  // --------------------------------------------------------- properties

  /** The initial total (the number 5) parses to 5. */
  lemma InitialTotal()
    ensures TotalOf(Num(5.0)) == Some(5)
  {
    assert (5.0).Floor == 5;
    assert NumberText(5.0) == "5" by {
      assert NatText(5) == [DigitChar(5)];
    }
    assert TrimLeft("5", Js) == "5";
    assert DigitRun("5") == "5";
    assert DigitsValue("5") == 5 by {
      assert "5"[..0] == "";
    }
  }

  /** A total that does not parse always fails the sum check, whatever the
      counts. */
  lemma NonNumericTotalFails(subject: string, selectedPdfs: seq<string>, types: seq<string>,
                             distribution: seq<(string, int)>, totalQuestions: Value)
    requires TotalOf(totalQuestions).None?
    ensures Validation(subject, selectedPdfs, types, distribution, totalQuestions).Some?
  {
  }

  /** A typed digit is stored as that count, and a typed negative digit
      as 0, whatever non-numeric text follows it ("3", "4abc", "-2"). */
  lemma StoredCountOneDigit(sign: string, c: char, rest: string)
    requires sign == "" || sign == "-"
    requires IsDigit(c)
    requires rest == [] || (!IsDigit(rest[0]) && rest[0] != 'x' && rest[0] != 'X')
    ensures StoredCount(sign + [c] + rest) == if sign == "-" then 0 else c as int - '0' as int
  {
    ParseIntOneDigit(sign, c, rest);
  }
}
