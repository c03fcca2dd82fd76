/** The parts of a parsed page that the BeautifulSoup scrapers walk, reduced to
    plain sequences: the siblings that follow a heading, and the page's anchors.
    Both scrapers share two rules over them: "collect block texts until the next
    heading" and "keep the links whose text or address names a keyword". */
module Dom {
  import opened Wrappers
  import opened Text
  import opened ScrapedData

  const HeadingTags: seq<string> := ["h1", "h2", "h3", "h4", "h5", "h6"]
  const BlockTags: seq<string> := ["p", "div", "ul", "ol"]

  /** An element: its tag name and `get_text(strip=True)`. */
  datatype Elem = Elem(name: string, text: string)

  /** A heading of the main content area: its own stripped text and the
      elements that follow it as siblings, in document order. */
  datatype HeadingBlock = HeadingBlock(text: string, siblings: seq<Elem>)

  /** An `<a>` element of the page: its `href` attribute when it has one, and its
      stripped text. */
  datatype PageAnchor = PageAnchor(href: Option<string>, text: string)

  /** A link with an address: `(href, text)`. */
  datatype Anchor = Anchor(href: string, text: string)

  // ---------------------------------------------------------------------------
  // Collecting a section's content

  /** The non-empty texts of the p/div/ul/ol siblings before the next heading. */
  function SectionTexts(siblings: seq<Elem>): (r: seq<string>)
    ensures forall k :: 0 <= k < |r| ==> r[k] != ""
  {
    if siblings == [] || siblings[0].name in HeadingTags then []
    else
      var e := siblings[0];
      (if e.name in BlockTags && e.text != "" then [e.text] else []) + SectionTexts(siblings[1..])
  }

  /** The `while next_elem and next_elem.name not in [h1..h6]` sibling walk. */
  method CollectSection(siblings: seq<Elem>) returns (content: seq<string>)
    ensures content == SectionTexts(siblings)
  {
    content := [];
    var i := 0;
    while i < |siblings| && siblings[i].name !in HeadingTags
      invariant 0 <= i <= |siblings|
      invariant SectionTexts(siblings) == content + SectionTexts(siblings[i..])
    {
      var e := siblings[i];
      assert siblings[i..][1..] == siblings[i + 1..];
      if e.name in BlockTags {
        var text := e.text;
        if text != "" {
          content := content + [text];
        }
      }
      i := i + 1;
    }
  }

  /** Nothing after the next heading contributes. */
  lemma {:induction false} SectionStopsAtHeading(siblings: seq<Elem>, k: nat)
    requires k < |siblings| && siblings[k].name in HeadingTags
    ensures SectionTexts(siblings) == SectionTexts(siblings[..k])
    decreases k
  {
    if k > 0 && siblings[0].name !in HeadingTags {
      assert siblings[1..][..k - 1] == siblings[..k][1..];
      SectionStopsAtHeading(siblings[1..], k - 1);
    }
  }

  /** No heading among the first `k + 1` siblings. */
  predicate BeforeHeading(siblings: seq<Elem>, k: nat)
    requires k < |siblings|
  {
    forall j :: 0 <= j <= k ==> siblings[j].name !in HeadingTags
  }

  /** `t` is the non-empty text of a block sibling before the next heading. */
  predicate CollectedFrom(siblings: seq<Elem>, t: string) {
    exists k :: 0 <= k < |siblings| && BeforeHeading(siblings, k) && siblings[k].name in BlockTags && siblings[k].text == t && t != ""
  }

  /** A text is collected exactly when it is the non-empty text of a block
      sibling that comes before the next heading. */
  lemma {:induction false} SectionTextsIff(siblings: seq<Elem>, t: string)
    ensures t in SectionTexts(siblings) <==> CollectedFrom(siblings, t)
    decreases |siblings|
  {
    if siblings != [] && siblings[0].name !in HeadingTags {
      var e := siblings[0];
      var rest := siblings[1..];
      SectionTextsIff(rest, t);
      if t in SectionTexts(rest) {
        var k :| 0 <= k < |rest| && BeforeHeading(rest, k) && rest[k].name in BlockTags && rest[k].text == t && t != "";
        assert BeforeHeading(siblings, k + 1) by {
          forall j | 0 <= j <= k + 1
            ensures siblings[j].name !in HeadingTags
          {
            if j > 0 { assert siblings[j] == rest[j - 1]; }
          }
        }
      }
      if CollectedFrom(siblings, t) {
        var k :| 0 <= k < |siblings| && BeforeHeading(siblings, k)
          && siblings[k].name in BlockTags && siblings[k].text == t && t != "";
        if k > 0 {
          assert BeforeHeading(rest, k - 1) by {
            forall j | 0 <= j <= k - 1
              ensures rest[j].name !in HeadingTags
            {
              assert rest[j] == siblings[j + 1];
            }
          }
        }
      }
    }
  }

  /** One section per heading with content, in heading order. */
  function HeadingSections(headings: seq<HeadingBlock>, kind: string): seq<Section>
    decreases |headings|
  {
    if headings == [] then []
    else
      var n := |headings| - 1;
      var h := headings[n];
      var texts := SectionTexts(h.siblings);
      HeadingSections(headings[..n], kind) + (if texts == [] then [] else [Section(Some(h.text), texts, kind)])
  }

  /** The heading loop shared by both BeautifulSoup scrapers; `kind` is the
      `type` each records. */
  method ExtractHeadingSections(headings: seq<HeadingBlock>, kind: string) returns (sections: seq<Section>)
    ensures sections == HeadingSections(headings, kind)
  {
    sections := [];
    for i := 0 to |headings|
      invariant sections == HeadingSections(headings[..i], kind)
    {
      assert headings[..i + 1][..i] == headings[..i];
      var heading := headings[i];
      var sectionContent := CollectSection(heading.siblings);
      if sectionContent != [] {
        sections := sections + [Section(Some(heading.text), sectionContent, kind)];
      }
    }
    assert headings[..|headings|] == headings;
  }

  /** Every section has a heading that is the text of one of the headings, its
      non-empty content is that heading's collected texts, and its type is `kind`. */
  lemma {:induction false} HeadingSectionsShape(headings: seq<HeadingBlock>, kind: string)
    ensures |HeadingSections(headings, kind)| <= |headings|
    ensures forall k :: 0 <= k < |HeadingSections(headings, kind)| ==>
      var s := HeadingSections(headings, kind)[k];
      s.kind == kind && s.content != []
      && exists i :: 0 <= i < |headings| && s.heading == Some(headings[i].text) && s.content == SectionTexts(headings[i].siblings)
    decreases |headings|
  {
    if headings != [] {
      var n := |headings| - 1;
      HeadingSectionsShape(headings[..n], kind);
      var init := HeadingSections(headings[..n], kind);
      forall k | 0 <= k < |init|
        ensures exists i :: 0 <= i < |headings| && init[k].heading == Some(headings[i].text) && init[k].content == SectionTexts(headings[i].siblings)
      {
        var i :| 0 <= i < n && init[k].heading == Some(headings[..n][i].text)
           && init[k].content == SectionTexts(headings[..n][i].siblings);
        assert headings[..n][i] == headings[i];
      }
    }
  }

  /** Every heading with collected content gives its section. */
  lemma {:induction false} HeadingSectionsComplete(headings: seq<HeadingBlock>, kind: string, i: nat)
    requires i < |headings| && SectionTexts(headings[i].siblings) != []
    ensures Section(Some(headings[i].text), SectionTexts(headings[i].siblings), kind) in HeadingSections(headings, kind)
    decreases |headings|
  {
    var n := |headings| - 1;
    if i < n {
      assert headings[..n][i] == headings[i];
      HeadingSectionsComplete(headings[..n], kind, i);
    }
  }

  // ---------------------------------------------------------------------------
  // Keyword link filters

  /** `any(kw in text.lower() or kw in href.lower() for kw in keywords)` */
  predicate HasKeyword(href: string, text: string, keywords: seq<string>) {
    exists k :: 0 <= k < |keywords| && (Contains(Lower(text), keywords[k]) || Contains(Lower(href), keywords[k]))
  }

  /** A link qualifies when its text and address are both non-empty and one of
      the keywords occurs in either, ignoring case. */
  predicate Relevant(a: Anchor, keywords: seq<string>) {
    a.text != "" && a.href != "" && HasKeyword(a.href, a.text, keywords)
  }

  /** The qualifying links, in page order. */
  function KeywordLinks(anchors: seq<Anchor>, keywords: seq<string>): seq<Anchor>
    decreases |anchors|
  {
    if anchors == [] then []
    else
      var n := |anchors| - 1;
      KeywordLinks(anchors[..n], keywords) + (if Relevant(anchors[n], keywords) then [anchors[n]] else [])
  }

  /** A link is kept exactly when it is one of the page's links and qualifies. */
  lemma {:induction false} KeywordLinksIff(anchors: seq<Anchor>, keywords: seq<string>, a: Anchor)
    ensures a in KeywordLinks(anchors, keywords) <==> a in anchors && Relevant(a, keywords)
    decreases |anchors|
  {
    if anchors != [] {
      var n := |anchors| - 1;
      KeywordLinksIff(anchors[..n], keywords, a);
      assert anchors == anchors[..n] + [anchors[n]];
    }
  }

  /** Filtering distributes over concatenation, so the kept links keep their
      page order. */
  lemma {:induction false} KeywordLinksAppend(a: seq<Anchor>, b: seq<Anchor>, keywords: seq<string>)
    ensures KeywordLinks(a + b, keywords) == KeywordLinks(a, keywords) + KeywordLinks(b, keywords)
    decreases |b|
  {
    if b == [] {
      assert a + b == a;
    } else {
      var n := |b| - 1;
      assert (a + b)[..|a + b| - 1] == a + b[..n];
      KeywordLinksAppend(a, b[..n], keywords);
    }
  }

  /** Filtering twice keeps the same links. */
  lemma {:induction false} KeywordLinksIdempotent(anchors: seq<Anchor>, keywords: seq<string>)
    ensures KeywordLinks(KeywordLinks(anchors, keywords), keywords) == KeywordLinks(anchors, keywords)
    decreases |anchors|
  {
    if anchors != [] {
      var n := |anchors| - 1;
      var init := KeywordLinks(anchors[..n], keywords);
      KeywordLinksIdempotent(anchors[..n], keywords);
      if Relevant(anchors[n], keywords) {
        assert KeywordLinks(anchors, keywords) == init + [anchors[n]];
        KeywordLinksAppend(init, [anchors[n]], keywords);
        assert KeywordLinks([anchors[n]], keywords) == [anchors[n]] by {
          assert [anchors[n]][..0] == [];
        }
      } else {
        assert KeywordLinks(anchors, keywords) == init;
      }
    }
  }

  /** `soup.find_all('a', href=True)`: the anchors that carry an `href`. */
  function AnchorsWithHref(page: seq<PageAnchor>): (r: seq<Anchor>)
    ensures |r| <= |page|
    decreases |page|
  {
    if page == [] then []
    else
      var n := |page| - 1;
      var p := page[n];
      AnchorsWithHref(page[..n]) + (if p.href.Some? then [Anchor(p.href.value, p.text)] else [])
  }

  /** The `relevant_link` entries for the given links, each address resolved
      against `base` by `urljoin`. */
  function RelevantEntries(links: seq<Anchor>, urljoin: (string, string) -> string, base: string): (r: seq<LinkEntry>)
    ensures |r| == |links|
    ensures forall k :: 0 <= k < |r| ==> r[k] == RelevantLink(links[k].text, urljoin(base, links[k].href))
  {
    seq(|links|, k requires 0 <= k < |links| => RelevantLink(links[k].text, urljoin(base, links[k].href)))
  }

  /** The press-release entries for the given links, titled by the link text and
      tagged with `source`. */
  function PressEntries(links: seq<Anchor>, urljoin: (string, string) -> string, base: string, source: string): (r: seq<LinkEntry>)
    ensures |r| == |links|
    ensures forall k :: 0 <= k < |r| ==> r[k] == PressRelease(links[k].text, urljoin(base, links[k].href), source)
  {
    seq(|links|, k requires 0 <= k < |links| => PressRelease(links[k].text, urljoin(base, links[k].href), source))
  }

  /** A `relevant_link` entry comes out of the keyword filter exactly when some
      qualifying page link has its text and resolves to its address. */
  lemma RelevantEntriesIff(anchors: seq<Anchor>, keywords: seq<string>, urljoin: (string, string) -> string,
                           base: string, e: LinkEntry)
    ensures e in RelevantEntries(KeywordLinks(anchors, keywords), urljoin, base)
      <==> exists a :: a in anchors && Relevant(a, keywords) && e == RelevantLink(a.text, urljoin(base, a.href))
  {
    var links := KeywordLinks(anchors, keywords);
    var r := RelevantEntries(links, urljoin, base);
    if e in r {
      var k :| 0 <= k < |r| && r[k] == e;
      KeywordLinksIff(anchors, keywords, links[k]);
    }
    if exists a :: a in anchors && Relevant(a, keywords) && e == RelevantLink(a.text, urljoin(base, a.href)) {
      var a :| a in anchors && Relevant(a, keywords) && e == RelevantLink(a.text, urljoin(base, a.href));
      KeywordLinksIff(anchors, keywords, a);
      var k :| 0 <= k < |links| && links[k] == a;
      assert r[k] == e;
    }
  }

  /** A press-release entry comes out of the keyword filter exactly when some
      qualifying page link has its text as title and resolves to its address. */
  lemma PressEntriesIff(anchors: seq<Anchor>, keywords: seq<string>, urljoin: (string, string) -> string,
                        base: string, source: string, e: LinkEntry)
    ensures e in PressEntries(KeywordLinks(anchors, keywords), urljoin, base, source)
      <==> exists a :: a in anchors && Relevant(a, keywords) && e == PressRelease(a.text, urljoin(base, a.href), source)
  {
    var links := KeywordLinks(anchors, keywords);
    var r := PressEntries(links, urljoin, base, source);
    if e in r {
      var k :| 0 <= k < |r| && r[k] == e;
      KeywordLinksIff(anchors, keywords, links[k]);
    }
    if exists a :: a in anchors && Relevant(a, keywords) && e == PressRelease(a.text, urljoin(base, a.href), source) {
      var a :| a in anchors && Relevant(a, keywords) && e == PressRelease(a.text, urljoin(base, a.href), source);
      KeywordLinksIff(anchors, keywords, a);
      var k :| 0 <= k < |links| && links[k] == a;
      assert r[k] == e;
    }
  }
}
