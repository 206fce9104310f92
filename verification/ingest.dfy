/**
 * The tagging loop of `load_pdfs_with_metadata`: documents in order, each with its
 * year read once from the file-name stem, chapter and region state reset to
 * (None, "Global"), and both detectors threaded through the pages in order; every
 * page leaves with its year, chapter and region and lands in one output list.
 *
 * `StateAfter`, `TagPages` and `TagAll` state that loop as a fold; the method
 * `LoadWithMetadata` is the loop itself and is proved to compute `TagAll`.
 */
module Ingest {
  import opened Wrappers
  import opened Year
  import opened Detect
  import opened Text

  /** One PDF file: the stem of its name and the text of its pages, in page order. */
  datatype SourceDocument = SourceDocument(stem: string, pages: seq<string>)

  /** A page with the metadata the loader writes onto it. */
  datatype TaggedPage = TaggedPage(text: string, year: Option<int>, chapter: Option<string>, region: string)

  /** The per-document tagging state `(current_chapter, current_region)`. */
  datatype TagState = TagState(chapter: Option<string>, region: string)

  const InitialState: TagState := TagState(None, GlobalRegion)

  /** One page's update of the state: both detectors, chapter first. It keeps the state well formed. */
  function Step(s: TagState, text: string): (r: TagState)
    ensures r.region != ""
    ensures r.chapter == s.chapter || (r.chapter.Some? && r.chapter.value in ChapterLabels)
  {
    TagState(DetectChapter(text, s.chapter), DetectRegion(text, Some(s.region)))
  }

  /**
   * A page that announces a chapter (region) sets it; otherwise the chapter is kept,
   * and so is a non-empty region, an empty one falling back to "Global".
   */
  lemma StepBySignals(s: TagState, text: string)
    ensures Step(s, text).chapter == if ChapterSignal(text).Some? then ChapterSignal(text) else s.chapter
    ensures Step(s, text).region ==
      if RegionSignal(text).Some? then RegionSignal(text).value
      else if s.region != "" then s.region
      else GlobalRegion
  {
    ChapterAsDecisionList(text, s.chapter);
    RegionAsDecisionList(text, Some(s.region));
  }

  /** The state after the given pages of one document, starting from `InitialState`. */
  function StateAfter(pages: seq<string>): (s: TagState)
    ensures s.region != ""
    ensures s.chapter == None || s.chapter.value in ChapterLabels
  {
    if pages == [] then InitialState
    else Step(StateAfter(pages[..|pages| - 1]), pages[|pages| - 1])
  }

  /** The tagged pages of one document: page `i` carries the state after pages `0..i`. */
  function TagPages(pages: seq<string>, year: Option<int>): (out: seq<TaggedPage>)
    ensures |out| == |pages|
    ensures forall i :: 0 <= i < |pages| ==> out[i].text == pages[i] && out[i].year == year
  {
    if pages == [] then []
    else
      var n := |pages| - 1;
      var s := StateAfter(pages);
      TagPages(pages[..n], year) + [TaggedPage(pages[n], year, s.chapter, s.region)]
  }

  /** A document's tagged pages, with its year taken from its stem. */
  function TagDocument(doc: SourceDocument): (out: seq<TaggedPage>)
    ensures |out| == |doc.pages|
    ensures forall i :: 0 <= i < |out| ==> out[i].text == doc.pages[i] && out[i].year == ExtractYear(doc.stem)
  {
    TagPages(doc.pages, ExtractYear(doc.stem))
  }

  function TotalPages(docs: seq<SourceDocument>): nat {
    if docs == [] then 0 else TotalPages(docs[..|docs| - 1]) + |docs[|docs| - 1].pages|
  }

  /** `f` applied to each element of `xs`, the results concatenated in order. */
  function FlatMap<A, B>(xs: seq<A>, f: A -> seq<B>): seq<B> {
    if xs == [] then [] else FlatMap(xs[..|xs| - 1], f) + f(xs[|xs| - 1])
  }

  lemma {:induction false} FlatMapAppend<A, B>(xs: seq<A>, ys: seq<A>, f: A -> seq<B>)
    ensures FlatMap(xs + ys, f) == FlatMap(xs, f) + FlatMap(ys, f)
    decreases |ys|
  {
    if ys == [] {
      assert xs + ys == xs;
    } else {
      var front, y := ys[..|ys| - 1], ys[|ys| - 1];
      assert (xs + ys)[..|xs + ys| - 1] == xs + front;
      assert (xs + ys)[|xs + ys| - 1] == y;
      FlatMapAppend(xs, front, f);
    }
  }

  /** All documents' tagged pages, document after document. */
  function TagAll(docs: seq<SourceDocument>): seq<TaggedPage> {
    FlatMap(docs, TagDocument)
  }

  /**
   * `load_pdfs_with_metadata` without the PDF reading: for each document, its year,
   * a fresh state, and the pages tagged one after another onto one list.
   */
  method LoadWithMetadata(docs: seq<SourceDocument>) returns (out: seq<TaggedPage>)
    ensures out == TagAll(docs)
  {
    out := [];
    for d := 0 to |docs|
      invariant out == TagAll(docs[..d])
    {
      var doc := docs[d];
      var year := ExtractYear(doc.stem);
      var chapter: Option<string> := None;
      var region := GlobalRegion;
      ghost var before := out;
      for p := 0 to |doc.pages|
        invariant TagState(chapter, region) == StateAfter(doc.pages[..p])
        invariant out == before + TagPages(doc.pages[..p], year)
      {
        var text := doc.pages[p];
        chapter := DetectChapter(text, chapter);
        region := DetectRegion(text, Some(region));
        out := out + [TaggedPage(text, year, chapter, region)];
        assert doc.pages[..p + 1][..p] == doc.pages[..p];
      }
      assert doc.pages[..|doc.pages|] == doc.pages;
      assert docs[..d + 1][..d] == docs[..d];
    }
    assert docs[..|docs|] == docs;
  }

  /** Page `i` of a document is tagged with the state reached after pages `0..i`. */
  lemma {:induction false} TagPagesAt(pages: seq<string>, year: Option<int>, i: int)
    requires 0 <= i < |pages|
    ensures TagPages(pages, year)[i] ==
      TaggedPage(pages[i], year, StateAfter(pages[..i + 1]).chapter, StateAfter(pages[..i + 1]).region)
    decreases |pages|
  {
    var n := |pages| - 1;
    if i < n {
      TagPagesAt(pages[..n], year, i);
      assert pages[..n][..i + 1] == pages[..i + 1];
    } else {
      assert pages[..i + 1] == pages;
    }
  }

  /** The chapter of the most recent page (among `pages`) that announces one, or `None`. */
  function LatestChapter(pages: seq<string>): Option<string> {
    if pages == [] then None
    else if ChapterSignal(pages[|pages| - 1]).Some? then ChapterSignal(pages[|pages| - 1])
    else LatestChapter(pages[..|pages| - 1])
  }

  /** The region of the most recent page (among `pages`) that names one, or "Global". */
  function LatestRegion(pages: seq<string>): string {
    if pages == [] then GlobalRegion
    else if RegionSignal(pages[|pages| - 1]).Some? then RegionSignal(pages[|pages| - 1]).value
    else LatestRegion(pages[..|pages| - 1])
  }

  /**
   * Carry-forward in closed form: after any prefix of a document the state holds the
   * chapter and region of the latest page that announced one, and (None, "Global")
   * when no page did.
   */
  lemma {:induction false} StateIsLatestSignal(pages: seq<string>)
    ensures StateAfter(pages) == TagState(LatestChapter(pages), LatestRegion(pages))
    decreases |pages|
  {
    if pages != [] {
      var n := |pages| - 1;
      StateIsLatestSignal(pages[..n]);
      StepBySignals(StateAfter(pages[..n]), pages[n]);
    }
  }

  /** Page `i` is tagged with the latest chapter and region announced on pages `0..i`. */
  lemma PageTagsAreLatestSignals(pages: seq<string>, year: Option<int>, i: int)
    requires 0 <= i < |pages|
    ensures TagPages(pages, year)[i].chapter == LatestChapter(pages[..i + 1])
    ensures TagPages(pages, year)[i].region == LatestRegion(pages[..i + 1])
  {
    TagPagesAt(pages, year, i);
    StateIsLatestSignal(pages[..i + 1]);
  }

  /** The state starts afresh: a first page with no chapter phrase gets `None`, one with no region keyword gets "Global". */
  lemma FirstPageDefaults(pages: seq<string>, year: Option<int>)
    requires pages != []
    ensures ChapterSignal(pages[0]) == None ==> TagPages(pages, year)[0].chapter == None
    ensures RegionSignal(pages[0]) == None ==> TagPages(pages, year)[0].region == GlobalRegion
  {
    PageTagsAreLatestSignals(pages, year, 0);
    assert pages[..1][..0] == [];
  }

  /** A later page without a chapter phrase (region keyword) copies the previous page's chapter (region). */
  lemma CarryForward(pages: seq<string>, year: Option<int>, i: int)
    requires 0 < i < |pages|
    ensures ChapterSignal(pages[i]) == None ==> TagPages(pages, year)[i].chapter == TagPages(pages, year)[i - 1].chapter
    ensures RegionSignal(pages[i]) == None ==> TagPages(pages, year)[i].region == TagPages(pages, year)[i - 1].region
  {
    PageTagsAreLatestSignals(pages, year, i);
    PageTagsAreLatestSignals(pages, year, i - 1);
    assert pages[..i + 1][..i] == pages[..i];
  }

  /** A page that announces a chapter (region) is tagged with it, whatever came before. */
  lemma SignalOverrides(pages: seq<string>, year: Option<int>, i: int)
    requires 0 <= i < |pages|
    ensures ChapterSignal(pages[i]).Some? ==> TagPages(pages, year)[i].chapter == ChapterSignal(pages[i])
    ensures RegionSignal(pages[i]).Some? ==> TagPages(pages, year)[i].region == RegionSignal(pages[i]).value
  {
    PageTagsAreLatestSignals(pages, year, i);
    assert pages[..i + 1][i] == pages[i];
  }

  /** The output has exactly one page per input page. */
  lemma {:induction false} TagAllLength(docs: seq<SourceDocument>)
    ensures |TagAll(docs)| == TotalPages(docs)
    decreases |docs|
  {
    if docs != [] {
      TagAllLength(docs[..|docs| - 1]);
    }
  }

  /** Documents are tagged independently: tagging a concatenation concatenates the taggings. */
  lemma TagAllAppend(a: seq<SourceDocument>, b: seq<SourceDocument>)
    ensures TagAll(a + b) == TagAll(a) + TagAll(b)
  {
    FlatMapAppend(a, b, TagDocument);
  }

  lemma TagAllSingle(doc: SourceDocument)
    ensures TagAll([doc]) == TagDocument(doc)
  {
    assert [doc][..0] == [];
    assert FlatMap([doc], TagDocument) == FlatMap([doc][..0], TagDocument) + TagDocument(doc);
  }

  /**
   * Document `d`'s pages sit together in the output, right after those of the
   * documents before it, and are exactly that document tagged on its own: no other
   * document's pages affect its tags.
   */
  lemma DocumentIsolated(docs: seq<SourceDocument>, d: int)
    requires 0 <= d < |docs|
    ensures TotalPages(docs[..d]) + |docs[d].pages| <= |TagAll(docs)|
    ensures TagAll(docs)[TotalPages(docs[..d])..TotalPages(docs[..d]) + |docs[d].pages|] == TagDocument(docs[d])
  {
    var pre, rest := docs[..d], docs[d + 1..];
    assert docs == pre + [docs[d]] + rest;
    TagAllAppend(pre + [docs[d]], rest);
    TagAllAppend(pre, [docs[d]]);
    TagAllSingle(docs[d]);
    TagAllLength(pre);
  }

  /**
   * Page `p` of document `d` is output at position `TotalPages(docs[..d]) + p`, with
   * its own text, its document's year, and the latest chapter and region announced
   * on pages `0..p` of that same document.
   */
  lemma PagePlacement(docs: seq<SourceDocument>, d: int, p: int)
    requires 0 <= d < |docs| && 0 <= p < |docs[d].pages|
    ensures TotalPages(docs[..d]) + p < |TagAll(docs)|
    ensures TagAll(docs)[TotalPages(docs[..d]) + p] ==
      TaggedPage(docs[d].pages[p], ExtractYear(docs[d].stem),
                 LatestChapter(docs[d].pages[..p + 1]), LatestRegion(docs[d].pages[..p + 1]))
  {
    DocumentIsolated(docs, d);
    var k := TotalPages(docs[..d]);
    assert TagAll(docs)[k + p] == TagAll(docs)[k..k + |docs[d].pages|][p];
    PageTagsAreLatestSignals(docs[d].pages, ExtractYear(docs[d].stem), p);
  }

  /** A document without pages adds nothing to the output, and processing goes on with the next one. */
  lemma EmptyDocumentSkipped(before: seq<SourceDocument>, doc: SourceDocument, after: seq<SourceDocument>)
    requires doc.pages == []
    ensures TagAll(before + [doc] + after) == TagAll(before + after)
  {
    TagAllSingle(doc);
    TagAllAppend(before + [doc], after);
    TagAllAppend(before, [doc]);
    TagAllAppend(before, after);
  }

  /** Every output page has a non-empty region and either no chapter or one of the three chapter labels. */
  predicate WellTagged(page: TaggedPage) {
    page.region != "" && (page.chapter == None || page.chapter.value in ChapterLabels)
  }

  lemma {:induction false} TagAllWellTagged(docs: seq<SourceDocument>)
    ensures forall k :: 0 <= k < |TagAll(docs)| ==> WellTagged(TagAll(docs)[k])
    decreases |docs|
  {
    if docs != [] {
      var n := |docs| - 1;
      TagAllWellTagged(docs[..n]);
      var doc := docs[n];
      assert TagAll(docs) == TagAll(docs[..n]) + TagDocument(doc);
      var year := ExtractYear(doc.stem);
      forall i | 0 <= i < |doc.pages| ensures WellTagged(TagPages(doc.pages, year)[i]) {
        TagPagesAt(doc.pages, year, i);
      }
    }
  }

  /** An empty page (an image-only page, say) names no chapter and no region. */
  lemma BlankPageCarries(s: TagState)
    ensures Step(s, "") == TagState(s.chapter, if s.region != "" then s.region else GlobalRegion)
  {
    assert Lower("") == "";
  }

  lemma TagTwoPages(a: string, b: string, year: Option<int>)
    ensures TagPages([a, b], year) == [
      TaggedPage(a, year, Step(InitialState, a).chapter, Step(InitialState, a).region),
      TaggedPage(b, year, Step(Step(InitialState, a), b).chapter, Step(Step(InitialState, a), b).region)
    ]
  {
    assert [a, b][..1] == [a] && [a][..0] == [];
    assert StateAfter([a]) == Step(InitialState, a);
    assert StateAfter([a, b]) == Step(StateAfter([a]), b);
    assert TagPages([a], year) == TagPages([], year) + [TaggedPage(a, year, StateAfter([a]).chapter, StateAfter([a]).region)];
  }

  lemma TagOnePage(a: string, year: Option<int>)
    ensures TagPages([a], year) == [TaggedPage(a, year, Step(InitialState, a).chapter, Step(InitialState, a).region)]
  {
    assert [a][..0] == [];
    assert StateAfter([a]) == Step(InitialState, a);
  }

  /** Two documents yield the first one's tagged pages followed by the second one's. */
  lemma TagTwoDocuments(first: SourceDocument, second: SourceDocument)
    ensures TagAll([first, second]) == TagDocument(first) + TagDocument(second)
  {
    assert [first, second] == [first] + [second];
    TagAllAppend([first], [second]);
    TagAllSingle(first);
    TagAllSingle(second);
  }

  /** The report `sof21`: its first page names Japan and Consumer Shifts, its blank second page carries both forward. */
  lemma FirstReportExample()
    ensures TagDocument(SourceDocument("sof21", ["Japan: Consumer Shifts", ""])) == [
      TaggedPage("Japan: Consumer Shifts", Some(2021), Some("Consumer Shifts"), "Japan"),
      TaggedPage("", Some(2021), Some("Consumer Shifts"), "Japan")
    ]
  {
    TwoDigitExample();
    JapanConsumerShiftsExample(None, Some(GlobalRegion));
    BlankPageCarries(TagState(Some("Consumer Shifts"), "Japan"));
    TagTwoPages("Japan: Consumer Shifts", "", Some(2021));
  }

  /** The report `sof2025`: its one blank page gets the reset state, chapter `None` and region "Global". */
  lemma SecondReportExample()
    ensures TagDocument(SourceDocument("sof2025", [""])) == [TaggedPage("", Some(2025), None, "Global")]
  {
    FourDigitExample();
    BlankPageCarries(InitialState);
    TagOnePage("", Some(2025));
  }

  /** The two reports loaded together: the second is not affected by the Japan and Consumer Shifts of the first. */
  lemma TwoReportsExample()
    ensures TagAll([SourceDocument("sof21", ["Japan: Consumer Shifts", ""]), SourceDocument("sof2025", [""])]) == [
      TaggedPage("Japan: Consumer Shifts", Some(2021), Some("Consumer Shifts"), "Japan"),
      TaggedPage("", Some(2021), Some("Consumer Shifts"), "Japan"),
      TaggedPage("", Some(2025), None, "Global")
    ]
  {
    var first := SourceDocument("sof21", ["Japan: Consumer Shifts", ""]);
    var second := SourceDocument("sof2025", [""]);
    TagTwoDocuments(first, second);
    FirstReportExample();
    SecondReportExample();
    assert TagDocument(first) + TagDocument(second) == [
      TaggedPage("Japan: Consumer Shifts", Some(2021), Some("Consumer Shifts"), "Japan"),
      TaggedPage("", Some(2021), Some("Consumer Shifts"), "Japan")
    ] + [TaggedPage("", Some(2025), None, "Global")];
  }
}
