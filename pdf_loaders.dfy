/** `load_pdf_pages` of backend/src/loaders.py (and its older copy in
    src/loaders.py): which pages of a PDF are kept, and how they are
    numbered. The document is the sequence of texts `page.extract_text()`
    gives, `None` for a page without a text layer. */
module PdfLoaders {
  import opened Wrappers
  import opened Text

  /** `{'page_num': n, 'text': text}` */
  datatype Page = Page(pageNum: nat, text: string)

  /** The page is kept unless it has no text or its stripped text is
      shorter than ten characters. */
  predicate Keeps(text: Option<string>) {
    text.Some? && text.value != [] && |PyStrip(text.value)| >= 10
  }

  /** The pages kept from the first `|texts|` pages of a document. */
  function Loaded(texts: seq<Option<string>>): (pages: seq<Page>)
    ensures |pages| <= |texts|
    decreases |texts|
  {
    if texts == [] then []
    else
      var n := |texts|;
      Loaded(texts[..n - 1]) + if Keeps(texts[n - 1]) then [Page(n, texts[n - 1].value)] else []
  }

  /** The loop over `enumerate(pdf.pages)`. */
  method LoadPdfPages(texts: seq<Option<string>>) returns (pages: seq<Page>)
    ensures pages == Loaded(texts)
  {
    pages := [];
    for i := 0 to |texts|
      invariant pages == Loaded(texts[..i])
    {
      assert texts[..i + 1][..i] == texts[..i];
      var text := texts[i];
      if !(text.Some? && text.value != []) || |PyStrip(text.value)| < 10 {
        continue;
      }
      pages := pages + [Page(i + 1, text.value)];
    }
    assert texts[..|texts|] == texts;
  }

  /** A page is in the result exactly when the document has a page at its
      1-based number that is kept, and its text is that page's text,
      unchanged. */
  lemma {:induction false} LoadedMembers(texts: seq<Option<string>>, p: Page)
    ensures p in Loaded(texts) <==>
      && 1 <= p.pageNum <= |texts|
      && Keeps(texts[p.pageNum - 1])
      && p.text == texts[p.pageNum - 1].value
    decreases |texts|
  {
    if texts != [] {
      var n := |texts|;
      var front := texts[..n - 1];
      LoadedMembers(front, p);
      if 1 <= p.pageNum < n {
        assert texts[p.pageNum - 1] == front[p.pageNum - 1];
      }
    }
  }

  /** Page numbers only go up. */
  lemma {:induction false} LoadedIncreasing(texts: seq<Option<string>>)
    ensures var pages := Loaded(texts);
      forall i, j :: 0 <= i < j < |pages| ==> pages[i].pageNum < pages[j].pageNum
    decreases |texts|
  {
    if texts != [] {
      var n := |texts|;
      var front := texts[..n - 1];
      var pages := Loaded(texts);
      var before := Loaded(front);
      LoadedIncreasing(front);
      forall k | 0 <= k < |before|
        ensures before[k].pageNum < n
      {
        LoadedMembers(front, before[k]);
      }
      forall i, j | 0 <= i < j < |pages|
        ensures pages[i].pageNum < pages[j].pageNum
      {
        assert pages[i] == before[i];
        if j < |before| {
          assert pages[j] == before[j];
        } else {
          assert pages[j].pageNum == n;
        }
      }
    }
  }

  /** Every page with enough text is kept, so nothing is lost but the
      blank and near-blank pages. */
  lemma AllFullPagesKept(texts: seq<Option<string>>)
    requires forall i :: 0 <= i < |texts| ==> Keeps(texts[i])
    ensures |Loaded(texts)| == |texts|
    ensures forall i :: 0 <= i < |texts| ==> Keeps(texts[i]) && Loaded(texts)[i] == Page(i + 1, texts[i].value)
  {
    var pages := Loaded(texts);
    LoadedIncreasing(texts);
    LoadedCount(texts);
    forall i | 0 <= i < |texts|
      ensures Keeps(texts[i]) && pages[i] == Page(i + 1, texts[i].value)
    {
      NumberedFromOne(pages, i);
      LoadedMembers(texts, pages[i]);
    }
  }

  /** With every page kept, the result has one page per document page. */
  lemma {:induction false} LoadedCount(texts: seq<Option<string>>)
    requires forall i :: 0 <= i < |texts| ==> Keeps(texts[i])
    ensures |Loaded(texts)| == |texts|
    decreases |texts|
  {
    if texts != [] {
      LoadedCount(texts[..|texts| - 1]);
    }
  }

  /** In an increasing run of page numbers from 1 that has as many pages
      as its largest number allows, page `i` has number `i + 1`. */
  lemma {:induction false} NumberedFromOne(pages: seq<Page>, i: nat)
    requires forall k :: 0 <= k < |pages| ==> 1 <= pages[k].pageNum <= |pages|
    requires forall a, b :: 0 <= a < b < |pages| ==> pages[a].pageNum < pages[b].pageNum
    requires i < |pages|
    ensures pages[i].pageNum == i + 1
  {
    AtLeast(pages, i);
    AtMost(pages, i);
  }

  lemma {:induction false} AtLeast(pages: seq<Page>, i: nat)
    requires forall k :: 0 <= k < |pages| ==> 1 <= pages[k].pageNum
    requires forall a, b :: 0 <= a < b < |pages| ==> pages[a].pageNum < pages[b].pageNum
    requires i < |pages|
    ensures pages[i].pageNum >= i + 1
    decreases i
  {
    if i > 0 {
      AtLeast(pages, i - 1);
    }
  }

  lemma {:induction false} AtMost(pages: seq<Page>, i: nat)
    requires forall k :: 0 <= k < |pages| ==> pages[k].pageNum <= |pages|
    requires forall a, b :: 0 <= a < b < |pages| ==> pages[a].pageNum < pages[b].pageNum
    requires i < |pages|
    ensures pages[i].pageNum <= i + 1
    decreases |pages| - i
  {
    if i < |pages| - 1 {
      AtMost(pages, i + 1);
    }
  }
}
