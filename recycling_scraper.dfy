/** The recycling page scraper: FAQs and press releases found by CSS selectors
    with a fallback when no selector matches, general content sections and
    relevant links.

    CSS selection is a parameter `select` telling how many elements a selector
    matches: the scraper only ever tests whether that number is zero. */
module RecyclingScraper {
  import opened Wrappers
  import opened Text
  import opened Dom
  import opened ScrapedData

  const BaseUrl := "https://www.nea.gov.sg"

  const FaqSelectors: seq<string> :=
    [".faq-item", ".faq", "[class*=\"faq\"]", "[class*=\"accordion\"]", ".question", ".answer"]
  const PressSelectors: seq<string> :=
    [".press-release", ".news-item", ".article", "[class*=\"press\"]", "[class*=\"news\"]", ".media-release"]

  // ---------------------------------------------------------------------------
  // Selector loop

  /** Some selector matches an element. */
  predicate AnyMatch(selectors: seq<string>, select: string -> nat) {
    exists k :: 0 <= k < |selectors| && select(selectors[k]) > 0
  }

  /** Selector `k` matches and none before it does. */
  predicate FirstMatchAt(selectors: seq<string>, select: string -> nat, k: int) {
    0 <= k < |selectors| && select(selectors[k]) > 0 && forall j :: 0 <= j < k ==> select(selectors[j]) == 0
  }

  /** The `for selector in selectors: ... if elements: break` loop: the count of
      the first selector that matches, or zero when none does. */
  method SelectFirst(selectors: seq<string>, select: string -> nat) returns (elements: nat)
    requires selectors != []
    ensures elements == 0 <==> !AnyMatch(selectors, select)
    ensures elements > 0 ==> exists k :: FirstMatchAt(selectors, select, k) && elements == select(selectors[k])
  {
    elements := 0;
    var i := 0;
    while i < |selectors|
      invariant 0 <= i <= |selectors|
      invariant forall j :: 0 <= j < i ==> select(selectors[j]) == 0
      invariant elements == 0
    {
      elements := select(selectors[i]);
      if elements > 0 {
        return;
      }
      i := i + 1;
    }
  }

  // ---------------------------------------------------------------------------
  // FAQs

  /** An h3/h4/h5/strong element of a content section: its `.string` (absent
      when it has more than one child), its stripped text, and the stripped
      text of its next p/div sibling when it has one. */
  datatype QuestionElem = QuestionElem(str: Option<string>, text: string, answer: Option<string>)

  /** `re.compile(r'\?$')` finds a match in the element's `.string`: it ends in
      `?`, possibly followed by one newline. */
  predicate LooksLikeQuestion(q: QuestionElem) {
    q.str.Some? && (EndsWith(q.str.value, "?") || EndsWith(q.str.value, "?\n"))
  }

  /** The FAQs of one content section, in element order. */
  function SectionFaqs(questions: seq<QuestionElem>): seq<Faq>
    decreases |questions|
  {
    if questions == [] then []
    else
      var n := |questions| - 1;
      var q := questions[n];
      SectionFaqs(questions[..n])
      + (if LooksLikeQuestion(q) && q.answer.Some? then [Faq(q.text, q.answer.value, "content_section")] else [])
  }

  /** The fallback FAQs of the content sections, in section order. */
  function FallbackFaqs(sections: seq<seq<QuestionElem>>): seq<Faq>
    decreases |sections|
  {
    if sections == [] then []
    else
      var n := |sections| - 1;
      FallbackFaqs(sections[..n]) + SectionFaqs(sections[n])
  }

  /** `extract_faqs`: the selector loop leaves its last result behind, and only
      an empty result triggers the fallback; matched elements are never read. */
  method ExtractFaqs(select: string -> nat, contentSections: seq<seq<QuestionElem>>) returns (faqs: seq<Faq>)
    ensures AnyMatch(FaqSelectors, select) ==> faqs == []
    ensures !AnyMatch(FaqSelectors, select) ==> faqs == FallbackFaqs(contentSections)
  {
    faqs := [];
    var faqElements := SelectFirst(FaqSelectors, select);
    if faqElements == 0 {
      for s := 0 to |contentSections|
        invariant faqs == FallbackFaqs(contentSections[..s])
      {
        assert contentSections[..s + 1][..s] == contentSections[..s];
        var questions := contentSections[s];
        ghost var before := faqs;
        for i := 0 to |questions|
          invariant faqs == before + SectionFaqs(questions[..i])
        {
          assert questions[..i + 1][..i] == questions[..i];
          var q := questions[i];
          if q.str.Some? && (EndsWith(q.str.value, "?") || EndsWith(q.str.value, "?\n")) {
            var answer := q.answer;
            if answer.Some? {
              faqs := faqs + [Faq(q.text, answer.value, "content_section")];
            }
          }
        }
        assert questions[..|questions|] == questions;
      }
      assert contentSections[..|contentSections|] == contentSections;
    }
  }

  /** `q` is question-like, has an answer sibling and yields `f`. */
  predicate FaqOf(q: QuestionElem, f: Faq) {
    LooksLikeQuestion(q) && q.answer.Some? && f == Faq(q.text, q.answer.value, "content_section")
  }

  /** A fallback FAQ is exactly a question-like element with a following p/div
      sibling: its text is the question, the sibling's the answer. */
  lemma {:induction false} SectionFaqsIff(questions: seq<QuestionElem>, f: Faq)
    ensures f in SectionFaqs(questions) <==> exists q :: q in questions && FaqOf(q, f)
    decreases |questions|
  {
    if questions != [] {
      var n := |questions| - 1;
      var init := questions[..n];
      SectionFaqsIff(init, f);
      assert questions == init + [questions[n]];
      if f in SectionFaqs(questions) && f !in SectionFaqs(init) {
        assert FaqOf(questions[n], f);
      }
      if exists q :: q in questions && FaqOf(q, f) {
        var q :| q in questions && FaqOf(q, f);
        if q != questions[n] {
          assert q in init;
        }
      }
    }
  }

  /** One FAQ per question-like element that has an answer sibling. */
  function AnsweredCount(questions: seq<QuestionElem>): nat
    decreases |questions|
  {
    if questions == [] then 0
    else
      var n := |questions| - 1;
      AnsweredCount(questions[..n])
      + (if LooksLikeQuestion(questions[n]) && questions[n].answer.Some? then 1 else 0)
  }

  /** A section yields one FAQ per answered question-like element, each tagged
      `content_section`. */
  lemma {:induction false} SectionFaqsCount(questions: seq<QuestionElem>)
    ensures |SectionFaqs(questions)| == AnsweredCount(questions)
    ensures forall k :: 0 <= k < |SectionFaqs(questions)| ==> SectionFaqs(questions)[k].source == "content_section"
    decreases |questions|
  {
    if questions != [] {
      SectionFaqsCount(questions[..|questions| - 1]);
    }
  }

  // ---------------------------------------------------------------------------
  // Press releases

  const NewsWords: seq<string> := ["press", "news", "media", "release"]

  /** `re.compile(r'(press|news|media|release)', re.I)` finds a match in the
      address. */
  predicate NewsHref(href: string) {
    exists k :: 0 <= k < |NewsWords| && Contains(Lower(href), NewsWords[k])
  }

  /** `soup.find_all('a', href=<that pattern>)`: anchors with a matching `href`. */
  function NewsAnchors(page: seq<PageAnchor>): seq<Anchor>
    decreases |page|
  {
    if page == [] then []
    else
      var n := |page| - 1;
      var p := page[n];
      NewsAnchors(page[..n]) + (if p.href.Some? && NewsHref(p.href.value) then [Anchor(p.href.value, p.text)] else [])
  }

  /** `extract_press_releases` */
  method ExtractPressReleases(select: string -> nat, page: seq<PageAnchor>, urljoin: (string, string) -> string)
    returns (pressReleases: seq<LinkEntry>)
    ensures AnyMatch(PressSelectors, select) ==> pressReleases == []
    ensures !AnyMatch(PressSelectors, select) ==>
      pressReleases == PressEntries(NewsAnchors(page), urljoin, BaseUrl, "news_link")
  {
    pressReleases := [];
    var prElements := SelectFirst(PressSelectors, select);
    if prElements == 0 {
      var newsLinks := NewsAnchors(page);
      NewsAnchorsMatch(page);
      for i := 0 to |newsLinks|
        invariant pressReleases == PressEntries(newsLinks[..i], urljoin, BaseUrl, "news_link")
      {
        var title := newsLinks[i].text;
        var href := newsLinks[i].href;
        NewsHrefNonEmpty(href);
        if href != "" {
          var fullUrl := urljoin(BaseUrl, href);
          pressReleases := pressReleases + [PressRelease(title, fullUrl, "news_link")];
        }
      }
      assert newsLinks[..|newsLinks|] == newsLinks;
    }
  }

  /** A link is a fallback press release exactly when it is one of the page's
      anchors and its address names press, news, media or release in any case;
      its text may be empty. */
  lemma {:induction false} NewsAnchorsIff(page: seq<PageAnchor>, a: Anchor)
    ensures a in NewsAnchors(page) <==> PageAnchor(Some(a.href), a.text) in page && NewsHref(a.href)
    decreases |page|
  {
    if page != [] {
      var n := |page| - 1;
      NewsAnchorsIff(page[..n], a);
      assert page == page[..n] + [page[n]];
    }
  }

  /** An address the pattern matches is never empty, so the `if href` guard
      never skips a link. */
  lemma NewsHrefNonEmpty(href: string)
    requires NewsHref(href)
    ensures href != ""
  {
    var k :| 0 <= k < |NewsWords| && Contains(Lower(href), NewsWords[k]);
    ContainsNonEmpty(Lower(href), NewsWords[k]);
  }

  /** Every anchor the fallback visits has a matching address. */
  lemma {:induction false} NewsAnchorsMatch(page: seq<PageAnchor>)
    ensures forall k :: 0 <= k < |NewsAnchors(page)| ==> NewsHref(NewsAnchors(page)[k].href)
    decreases |page|
  {
    if page != [] {
      NewsAnchorsMatch(page[..|page| - 1]);
    }
  }

  // ---------------------------------------------------------------------------
  // General content and links

  /** `extract_general_content`: the heading sections of the main content
      element, typed `section`. */
  method ExtractGeneralContent(mainContent: Option<seq<HeadingBlock>>) returns (content: seq<Section>)
    ensures content == if mainContent.Some? then HeadingSections(mainContent.value, "section") else []
  {
    content := [];
    if mainContent.Some? {
      content := ExtractHeadingSections(mainContent.value, "section");
    }
  }

  const LinkKeywords: seq<string> := ["recycling", "waste", "environment", "sustainability", "green"]

  /** `extract_links`: the anchors with an `href`, filtered and resolved. */
  method ExtractLinks(page: seq<PageAnchor>, urljoin: (string, string) -> string)
    returns (links: seq<LinkEntry>)
    ensures links == RelevantEntries(KeywordLinks(AnchorsWithHref(page), LinkKeywords), urljoin, BaseUrl)
  {
    var allLinks := AnchorsWithHref(page);
    links := [];
    for i := 0 to |allLinks|
      invariant links == RelevantEntries(KeywordLinks(allLinks[..i], LinkKeywords), urljoin, BaseUrl)
    {
      assert allLinks[..i + 1][..i] == allLinks[..i];
      var href := allLinks[i].href;
      var text := allLinks[i].text;
      if href != "" && text != "" {
        if HasKeyword(href, text, LinkKeywords) {
          var fullUrl := urljoin(BaseUrl, href);
          links := links + [RelevantLink(text, fullUrl)];
        }
      }
    }
    assert allLinks[..|allLinks|] == allLinks;
  }
}
