/** The standard-library scraper: an event-driven HTML text extractor and the
    list transformations built on what it collects.

    The HTML tokenizer itself is not modelled: a page is the sequence of
    start-tag, end-tag and data events the tokenizer delivers, and the parser is
    the object that receives them and updates its fields. */
module SimpleScraper {
  import opened Wrappers
  import opened Text
  import opened Dom
  import opened ScrapedData

  const BaseUrl := "https://www.nea.gov.sg"

  /** A tokenizer callback: `handle_starttag(tag, attrs)`, `handle_endtag(tag)`
      or `handle_data(data)`. A valueless attribute carries the empty string. */
  datatype Event =
    | StartTag(tag: string, attrs: seq<(string, string)>)
    | EndTag(tag: string)
    | Data(data: string)

  /** An entry of `headings`: `{'level': tag, 'text': data}`. */
  datatype HeadingEntry = HeadingEntry(level: string, text: string)

  /** The parser's fields as one value. */
  datatype ParserState = ParserState(
    textContent: seq<string>,
    currentTag: Option<string>,
    currentAttrs: map<string, string>,
    links: seq<Anchor>,
    headings: seq<HeadingEntry>,
    paragraphs: seq<string>)

  const Initial := ParserState([], None, map[], [], [], [])

  /** `dict(attrs)`: a later occurrence of a name replaces an earlier one. */
  function AttrMap(attrs: seq<(string, string)>): map<string, string>
    decreases |attrs|
  {
    if attrs == [] then map[]
    else
      var n := |attrs| - 1;
      AttrMap(attrs[..n])[attrs[n].0 := attrs[n].1]
  }

  /** A name is a key of `dict(attrs)` exactly when some attribute has it. */
  lemma {:induction false} AttrMapKeys(attrs: seq<(string, string)>, name: string)
    ensures name in AttrMap(attrs) <==> exists i :: 0 <= i < |attrs| && attrs[i].0 == name
    decreases |attrs|
  {
    if attrs != [] {
      var n := |attrs| - 1;
      AttrMapKeys(attrs[..n], name);
      if exists i :: 0 <= i < |attrs| && attrs[i].0 == name {
        var i :| 0 <= i < |attrs| && attrs[i].0 == name;
        if i < n {
          assert attrs[..n][i].0 == name;
        }
      }
    }
  }

  /** The value of a name is that of its last occurrence. */
  lemma {:induction false} AttrMapLast(attrs: seq<(string, string)>, i: nat)
    requires i < |attrs|
    requires forall j :: i < j < |attrs| ==> attrs[j].0 != attrs[i].0
    ensures attrs[i].0 in AttrMap(attrs) && AttrMap(attrs)[attrs[i].0] == attrs[i].1
    decreases |attrs|
  {
    var n := |attrs| - 1;
    if i < n {
      AttrMapLast(attrs[..n], i);
    }
  }

  predicate IsHeadingTag(tag: Option<string>) {
    tag.Some? && tag.value in HeadingTags
  }

  /** What `handle_starttag` does to the fields. */
  function StartStep(st: ParserState, tag: string, attrs: seq<(string, string)>): ParserState {
    var m := AttrMap(attrs);
    st.(currentTag := Some(tag), currentAttrs := m,
        links := if tag == "a" && "href" in m then st.links + [Anchor(m["href"], "")] else st.links)
  }

  /** What `handle_endtag` does to the fields. */
  function EndStep(st: ParserState): ParserState {
    st.(currentTag := None, currentAttrs := map[])
  }

  /** The links with the last one's text replaced. */
  function SetLastText(links: seq<Anchor>, text: string): seq<Anchor>
    requires links != []
  {
    links[..|links| - 1] + [links[|links| - 1].(text := text)]
  }

  /** What `handle_data` does to the fields. */
  function DataStep(st: ParserState, data: string): ParserState {
    StoreData(st, Strip(data))
  }

  /** What `handle_data` does with the stripped text `d`. */
  function StoreData(st: ParserState, d: string): ParserState {
    if d == "" then st
    else
      var st1 := st.(textContent := st.textContent + [d]);
      if IsHeadingTag(st.currentTag) then st1.(headings := st.headings + [HeadingEntry(st.currentTag.value, d)])
      else if st.currentTag == Some("p") then st1.(paragraphs := st.paragraphs + [d])
      else if st.currentTag == Some("a") && st.links != [] then st1.(links := SetLastText(st.links, d))
      else st1
  }

  function Step(st: ParserState, e: Event): ParserState {
    match e
    case StartTag(tag, attrs) => StartStep(st, tag, attrs)
    case EndTag(_) => EndStep(st)
    case Data(data) => DataStep(st, data)
  }

  /** The state after delivering the events in order. */
  function Run(st: ParserState, events: seq<Event>): ParserState
    decreases |events|
  {
    if events == [] then st
    else Step(Run(st, events[..|events| - 1]), events[|events| - 1])
  }

  /** `SimpleHTMLParser`: its fields change as the tokenizer calls it back. */
  class SimpleHtmlParser {
    var textContent: seq<string>
    var currentTag: Option<string>
    var currentAttrs: map<string, string>
    var links: seq<Anchor>
    var headings: seq<HeadingEntry>
    var paragraphs: seq<string>

    function State(): ParserState
      reads this
    {
      ParserState(textContent, currentTag, currentAttrs, links, headings, paragraphs)
    }

    constructor()
      ensures State() == Initial
    {
      textContent := [];
      currentTag := None;
      currentAttrs := map[];
      links := [];
      headings := [];
      paragraphs := [];
    }

    /** The tag becomes current with its attributes; an `a` tag with an `href`
        opens a new link with empty text. */
    method HandleStartTag(tag: string, attrs: seq<(string, string)>)
      modifies this
      ensures currentTag == Some(tag) && currentAttrs == AttrMap(attrs)
      ensures links == if tag == "a" && "href" in AttrMap(attrs)
        then old(links) + [Anchor(AttrMap(attrs)["href"], "")] else old(links)
      ensures textContent == old(textContent) && headings == old(headings) && paragraphs == old(paragraphs)
    {
      currentTag := Some(tag);
      currentAttrs := AttrMap(attrs);
      if tag == "a" && "href" in currentAttrs {
        links := links + [Anchor(currentAttrs["href"], "")];
      }
    }

    /** Any end tag clears the current tag and attributes. */
    method HandleEndTag(tag: string)
      modifies this
      ensures currentTag == None && currentAttrs == map[]
      ensures textContent == old(textContent) && links == old(links)
      ensures headings == old(headings) && paragraphs == old(paragraphs)
    {
      currentTag := None;
      currentAttrs := map[];
    }

    /** Non-blank data is recorded, stripped, in the text content and in at most
        one of headings, paragraphs or the last link's text. */
    method HandleData(data: string)
      modifies this
      ensures State() == DataStep(old(State()), data)
    {
      ghost var before := State();
      var d := Strip(data);
      if d != "" {
        textContent := textContent + [d];
        if currentTag.Some? && currentTag.value in HeadingTags {
          headings := headings + [HeadingEntry(currentTag.value, d)];
        } else if currentTag == Some("p") {
          paragraphs := paragraphs + [d];
        } else if currentTag == Some("a") && links != [] {
          links := links[..|links| - 1] + [links[|links| - 1].(text := d)];
        }
      }
      assert State() == StoreData(before, d);
    }

    /** `feed`: every event goes to its handler, in order. */
    method Feed(events: seq<Event>)
      modifies this
      ensures State() == Run(old(State()), events)
    {
      ghost var start := State();
      for i := 0 to |events|
        invariant State() == Run(start, events[..i])
      {
        assert events[..i + 1][..i] == events[..i];
        match events[i]
        case StartTag(tag, attrs) => HandleStartTag(tag, attrs);
        case EndTag(tag) => HandleEndTag(tag);
        case Data(data) => HandleData(data);
      }
      assert events[..|events|] == events;
    }
  }

  /** The state after parsing a page from scratch. */
  function Parse(events: seq<Event>): ParserState {
    Run(Initial, events)
  }

  // ---------------------------------------------------------------------------
  // Properties of the parser

  /** The stripped text an event contributes: only non-blank data does. */
  function DataText(e: Event): seq<string> {
    if e.Data? && Strip(e.data) != "" then [Strip(e.data)] else []
  }

  /** The stripped, non-blank data strings of the events, in order. */
  function DataTexts(events: seq<Event>): seq<string>
    decreases |events|
  {
    if events == [] then []
    else
      var n := |events| - 1;
      DataTexts(events[..n]) + DataText(events[n])
  }

  lemma RunSnoc(st: ParserState, events: seq<Event>, e: Event)
    ensures Run(st, events + [e]) == Step(Run(st, events), e)
  {
    assert (events + [e])[..|events|] == events;
  }

  /** One step appends to the text content exactly the event's stripped text. */
  lemma StepText(st: ParserState, e: Event)
    ensures Step(st, e).textContent == st.textContent + DataText(e)
  {
    match e
    case StartTag(_, _) =>
    case EndTag(_) =>
    case Data(_) =>
  }

  /** `text_content` receives exactly the stripped non-blank data, in event order. */
  lemma {:induction false} TextContentIsData(st: ParserState, events: seq<Event>)
    ensures Run(st, events).textContent == st.textContent + DataTexts(events)
    decreases |events|
  {
    if events != [] {
      var n := |events| - 1;
      TextContentIsData(st, events[..n]);
      StepText(Run(st, events[..n]), events[n]);
    }
  }

  /** Every collected text is non-empty and already stripped. */
  lemma {:induction false} DataTextsStripped(events: seq<Event>, t: string)
    requires t in DataTexts(events)
    ensures t != "" && Strip(t) == t
    decreases |events|
  {
    var n := |events| - 1;
    var e := events[n];
    if t in DataTexts(events[..n]) {
      DataTextsStripped(events[..n], t);
    } else {
      assert e.Data? && t == Strip(e.data);
      StripOfStripped(t);
    }
  }

  /** Whether an event is an `a` start tag with an `href` attribute. */
  predicate OpensLink(e: Event) {
    e.StartTag? && e.tag == "a" && exists i :: 0 <= i < |e.attrs| && e.attrs[i].0 == "href"
  }

  /** The number of `a` start tags that carry an `href` attribute. */
  function HrefAnchorCount(events: seq<Event>): nat
    decreases |events|
  {
    if events == [] then 0
    else
      var n := |events| - 1;
      HrefAnchorCount(events[..n]) + (if OpensLink(events[n]) then 1 else 0)
  }

  /** One step adds a link exactly for an `a` start tag with an `href`. */
  lemma StepLinks(st: ParserState, e: Event)
    ensures |Step(st, e).links| == |st.links| + (if OpensLink(e) then 1 else 0)
  {
    match e
    case StartTag(_, attrs) => AttrMapKeys(attrs, "href");
    case EndTag(_) =>
    case Data(_) =>
  }

  /** One link per `a` start tag with an `href`: data never adds or removes one. */
  lemma {:induction false} LinkCount(st: ParserState, events: seq<Event>)
    ensures |Run(st, events).links| == |st.links| + HrefAnchorCount(events)
    decreases |events|
  {
    if events != [] {
      var n := |events| - 1;
      LinkCount(st, events[..n]);
      StepLinks(Run(st, events[..n]), events[n]);
    }
  }

  /** A new link takes the `href` of the tag's last `href` attribute and starts
      with empty text. */
  lemma NewLinkStartsEmpty(st: ParserState, attrs: seq<(string, string)>, i: nat)
    requires i < |attrs| && attrs[i].0 == "href"
    requires forall j :: i < j < |attrs| ==> attrs[j].0 != "href"
    ensures var st' := Step(st, StartTag("a", attrs));
      |st'.links| == |st.links| + 1 && st'.links[|st.links|] == Anchor(attrs[i].1, "")
      && st'.links[..|st.links|] == st.links
  {
    AttrMapLast(attrs, i);
  }

  /** Any end tag resets the current tag and attributes and changes nothing else. */
  lemma EndTagResets(st: ParserState, tag: string)
    ensures Step(st, EndTag(tag)) == st.(currentTag := None, currentAttrs := map[])
  {
  }

  function Count(b: bool): nat {
    if b then 1 else 0
  }

  /** A data chunk is recorded in at most one of headings, paragraphs or link
      text, a heading only under an h1-h6 tag, a paragraph only under `p`, and a
      link text only under `a` when some link exists, replacing the last one's. */
  lemma DataRecordedOnce(st: ParserState, data: string)
    ensures var st' := Step(st, Data(data));
      var h := |st'.headings| > |st.headings|;
      var p := |st'.paragraphs| > |st.paragraphs|;
      var l := st'.links != st.links;
      Count(h) + Count(p) + Count(l) <= 1
      && |st'.headings| <= |st.headings| + 1 && |st'.paragraphs| <= |st.paragraphs| + 1
      && (h ==> IsHeadingTag(st.currentTag) && Strip(data) != "")
      && (p ==> st.currentTag == Some("p") && Strip(data) != "")
      && (l ==> (st.currentTag == Some("a") && st.links != [] && |st'.links| == |st.links|
                 && st'.links[|st.links| - 1].text == Strip(data)))
  {
  }

  /** Every heading's level is an h1-h6 tag. */
  predicate HeadingLevels(st: ParserState) {
    forall k :: 0 <= k < |st.headings| ==> st.headings[k].level in HeadingTags
  }

  /** One step keeps the heading levels valid and records at most what it adds
      to the text content. */
  lemma StepRecorded(st: ParserState, e: Event)
    requires HeadingLevels(st)
    ensures HeadingLevels(Step(st, e))
    ensures |Step(st, e).headings| + |Step(st, e).paragraphs|
      <= |st.headings| + |st.paragraphs| + |Step(st, e).textContent| - |st.textContent|
  {
    match e
    case StartTag(_, _) =>
    case EndTag(_) =>
    case Data(data) => DataKeepsRecorded(st, data);
  }

  lemma DataKeepsRecorded(st: ParserState, data: string)
    requires HeadingLevels(st)
    ensures HeadingLevels(DataStep(st, data))
    ensures |DataStep(st, data).headings| + |DataStep(st, data).paragraphs|
      <= |st.headings| + |st.paragraphs| + |DataStep(st, data).textContent| - |st.textContent|
  {
    StoreKeepsRecorded(st, Strip(data));
  }

  lemma StoreKeepsRecorded(st: ParserState, d: string)
    requires HeadingLevels(st)
    ensures HeadingLevels(StoreData(st, d))
    ensures |StoreData(st, d).headings| + |StoreData(st, d).paragraphs|
      <= |st.headings| + |st.paragraphs| + |StoreData(st, d).textContent| - |st.textContent|
  {
    if d != "" {
      var st' := StoreData(st, d);
      assert |st'.textContent| == |st.textContent| + 1;
      if IsHeadingTag(st.currentTag) {
        assert st'.headings == st.headings + [HeadingEntry(st.currentTag.value, d)];
      }
    }
  }

  /** Headings and paragraphs together never outnumber the collected texts, and
      every heading's level is an h1-h6 tag. */
  lemma {:induction false} RecordedBound(events: seq<Event>)
    ensures |Parse(events).headings| + |Parse(events).paragraphs| <= |Parse(events).textContent|
    ensures HeadingLevels(Parse(events))
    decreases |events|
  {
    if events != [] {
      var n := |events| - 1;
      RecordedBound(events[..n]);
      StepRecorded(Parse(events[..n]), events[n]);
    }
  }

  /** Stripped data under an `a` tag replaces the last link's text. */
  lemma DataUnderAnchor(st: ParserState, d: string)
    requires d != "" && Strip(d) == d
    requires st.currentTag == Some("a") && st.links != []
    ensures Step(st, Data(d)).links == SetLastText(st.links, d)
  {
    assert !IsHeadingTag(st.currentTag);
  }

  /** An anchor with an address, its end tag and an anchor without one leave a
      single empty-text link and the `a` tag current. */
  lemma AnchorThenBareAnchor(href: string)
    ensures var st := Step(Step(Step(Initial, StartTag("a", [("href", href)])), EndTag("a")), StartTag("a", []));
      st.links == [Anchor(href, "")] && st.currentTag == Some("a")
  {
    assert AttrMap([("href", href)]) == map["href" := href] by {
      assert [("href", href)][..0] == [];
    }
  }

  /** Delivering four events one after another. */
  lemma RunFour(e0: Event, e1: Event, e2: Event, e3: Event)
    ensures Parse([e0, e1, e2, e3]) == Step(Step(Step(Step(Initial, e0), e1), e2), e3)
  {
    RunSnoc(Initial, [], e0);
    assert [] + [e0] == [e0];
    RunSnoc(Initial, [e0], e1);
    assert [e0] + [e1] == [e0, e1];
    RunSnoc(Initial, [e0, e1], e2);
    assert [e0, e1] + [e2] == [e0, e1, e2];
    RunSnoc(Initial, [e0, e1, e2], e3);
    assert [e0, e1, e2] + [e3] == [e0, e1, e2, e3];
  }

  /** Data under an `a` tag that has no `href` still overwrites the text of the
      link opened by an earlier anchor. */
  lemma DataOverwritesEarlierLink(href: string, text: string)
    requires text != "" && Strip(text) == text
    ensures Parse([StartTag("a", [("href", href)]), EndTag("a"), StartTag("a", []), Data(text)]).links
      == [Anchor(href, text)]
  {
    var e0 := StartTag("a", [("href", href)]);
    var e2 := StartTag("a", []);
    RunFour(e0, EndTag("a"), e2, Data(text));
    AnchorThenBareAnchor(href);
    var s3 := Step(Step(Step(Initial, e0), EndTag("a")), e2);
    DataUnderAnchor(s3, text);
    assert SetLastText(s3.links, text) == [Anchor(href, text)];
  }

  // ---------------------------------------------------------------------------
  // Grouping the text content by headings

  /** `re.match(r'^[A-Z][A-Za-z\s]+$', item) and len(item) < 100`. */
  predicate HeadingLike(item: string) {
    2 <= |item| < 100 && IsUpper(item[0])
    && forall k :: 1 <= k < |item| ==> IsLetter(item[k]) || IsSpace(item[k])
  }

  /** `{'heading': item, 'content': [...]}` */
  datatype TextSection = TextSection(heading: string, content: seq<string>)

  /** The loop's state: the sections closed so far and the open one. */
  datatype Grouping = Grouping(done: seq<TextSection>, current: Option<TextSection>)

  function GroupStep(g: Grouping, item: string): Grouping {
    if HeadingLike(item) then
      Grouping(g.done + (if g.current.Some? then [g.current.value] else []), Some(TextSection(item, [])))
    else if g.current.Some? then
      g.(current := Some(g.current.value.(content := g.current.value.content + [item])))
    else g
  }

  function Grouped(items: seq<string>): Grouping
    decreases |items|
  {
    if items == [] then Grouping([], None)
    else GroupStep(Grouped(items[..|items| - 1]), items[|items| - 1])
  }

  /** The closed sections followed by the open one, if any. */
  function Close(g: Grouping): seq<TextSection> {
    g.done + (if g.current.Some? then [g.current.value] else [])
  }

  function ContentSections(items: seq<string>): seq<TextSection> {
    Close(Grouped(items))
  }

  /** `extract_content_sections`: parse the page, then group its text content. */
  method ExtractContentSections(events: seq<Event>) returns (contentSections: seq<TextSection>)
    ensures contentSections == ContentSections(Parse(events).textContent)
  {
    var parser := new SimpleHtmlParser();
    parser.Feed(events);
    var items := parser.textContent;
    contentSections := [];
    var currentSection: Option<TextSection> := None;
    for i := 0 to |items|
      invariant Grouping(contentSections, currentSection) == Grouped(items[..i])
    {
      assert items[..i + 1][..i] == items[..i];
      var item := items[i];
      if HeadingLike(item) {
        if currentSection.Some? {
          contentSections := contentSections + [currentSection.value];
        }
        currentSection := Some(TextSection(item, []));
      } else if currentSection.Some? {
        currentSection := Some(currentSection.value.(content := currentSection.value.content + [item]));
      }
    }
    assert items[..|items|] == items;
    if currentSection.Some? {
      contentSections := contentSections + [currentSection.value];
    }
  }

  /** The position of the first heading-like item, or the length when none is. */
  function FirstHeading(items: seq<string>): (f: nat)
    ensures f <= |items|
    ensures forall k :: 0 <= k < f ==> !HeadingLike(items[k])
    ensures f < |items| ==> HeadingLike(items[f])
    decreases |items|
  {
    if items == [] then 0
    else
      var n := |items| - 1;
      var f := FirstHeading(items[..n]);
      assert forall k :: 0 <= k < f ==> items[..n][k] == items[k];
      if f < n then f else if HeadingLike(items[n]) then n else n + 1
  }

  /** Each section written out as its heading followed by its content. */
  function Flatten(sections: seq<TextSection>): seq<string>
    decreases |sections|
  {
    if sections == [] then []
    else
      var n := |sections| - 1;
      Flatten(sections[..n]) + [sections[n].heading] + sections[n].content
  }

  function FlattenOpen(current: Option<TextSection>): seq<string> {
    if current.Some? then [current.value.heading] + current.value.content else []
  }

  lemma FlattenSnoc(sections: seq<TextSection>, s: TextSection)
    ensures Flatten(sections + [s]) == Flatten(sections) + [s.heading] + s.content
  {
    assert (sections + [s])[..|sections|] == sections;
  }

  /** Items before the first heading are dropped and nothing else is: the
      sections written back out are the items from the first heading on. */
  lemma {:induction false} SectionsFlattenToSuffix(items: seq<string>)
    ensures Flatten(Close(Grouped(items))) == items[FirstHeading(items)..]
    decreases |items|
  {
    GroupedFlatten(items);
    var g := Grouped(items);
    if g.current.Some? {
      FlattenSnoc(g.done, g.current.value);
    }
  }

  /** The loop invariant behind `SectionsFlattenToSuffix`: there is an open
      section exactly when a heading has been seen. */
  lemma {:induction false} GroupedFlatten(items: seq<string>)
    ensures var g := Grouped(items);
      Flatten(g.done) + FlattenOpen(g.current) == items[FirstHeading(items)..]
      && (g.current.Some? <==> FirstHeading(items) < |items|)
    decreases |items|
  {
    if items != [] {
      var n := |items| - 1;
      var init := items[..n];
      GroupedFlatten(init);
      var f := FirstHeading(init);
      assert Grouped(items) == GroupStep(Grouped(init), items[n]);
      assert FirstHeading(items) == if f < n then f else if HeadingLike(items[n]) then n else n + 1;
      assert items == init + [items[n]];
      GroupStepFlatten(Grouped(init), init, items[n], f);
    }
  }

  /** One grouping step keeps the invariant of `GroupedFlatten`. */
  lemma GroupStepFlatten(g: Grouping, init: seq<string>, item: string, f: nat)
    requires f <= |init|
    requires Flatten(g.done) + FlattenOpen(g.current) == init[f..]
    requires g.current.Some? <==> f < |init|
    ensures var g' := GroupStep(g, item);
      var f' := if f < |init| then f else if HeadingLike(item) then |init| else |init| + 1;
      Flatten(g'.done) + FlattenOpen(g'.current) == (init + [item])[f'..]
      && (g'.current.Some? <==> f' < |init| + 1)
  {
    if g.current.Some? {
      assert (init + [item])[f..] == init[f..] + [item];
      if HeadingLike(item) {
        OpenSectionCloses(g, item);
      } else {
        OpenSectionGrows(g, item);
      }
    } else if HeadingLike(item) {
      assert (init + [item])[|init|..] == [item];
    }
  }

  /** A heading closes the open section and opens an empty one. */
  lemma OpenSectionCloses(g: Grouping, item: string)
    requires g.current.Some? && HeadingLike(item)
    ensures var g' := GroupStep(g, item);
      Flatten(g'.done) + FlattenOpen(g'.current) == Flatten(g.done) + FlattenOpen(g.current) + [item]
      && g'.current.Some?
  {
    FlattenSnoc(g.done, g.current.value);
  }

  /** Any other item goes at the end of the open section. */
  lemma OpenSectionGrows(g: Grouping, item: string)
    requires g.current.Some? && !HeadingLike(item)
    ensures var g' := GroupStep(g, item);
      Flatten(g'.done) + FlattenOpen(g'.current) == Flatten(g.done) + FlattenOpen(g.current) + [item]
      && g'.current.Some?
  {
    var pre := Flatten(g.done);
    var h := g.current.value.heading;
    var c := g.current.value.content;
    assert pre + ([h] + (c + [item])) == pre + ([h] + c) + [item];
  }

  /** A section's heading is heading-like and none of its content items is. */
  predicate SectionShape(t: TextSection) {
    HeadingLike(t.heading) && forall j :: 0 <= j < |t.content| ==> !HeadingLike(t.content[j])
  }

  /** Every section heading is heading-like, and no content item is. */
  lemma {:induction false} SectionsHeadingLike(items: seq<string>)
    ensures forall k :: 0 <= k < |ContentSections(items)| ==> SectionShape(ContentSections(items)[k])
    decreases |items|
  {
    GroupedShape(items);
  }

  lemma {:induction false} GroupedShape(items: seq<string>)
    ensures var g := Grouped(items);
      (forall k :: 0 <= k < |g.done| ==> SectionShape(g.done[k]))
      && (g.current.Some? ==> SectionShape(g.current.value))
    decreases |items|
  {
    if items != [] {
      GroupedShape(items[..|items| - 1]);
    }
  }

  // ---------------------------------------------------------------------------
  // FAQ scanning over the raw page lines

  predicate Question(line: string) {
    EndsWith(line, "?") && |line| > 10
  }

  predicate AnswerCandidate(line: string) {
    line != "" && !EndsWith(line, "?")
  }

  /** Each line of the page with surrounding whitespace removed. */
  function StrippedLines(lines: seq<string>): seq<string> {
    seq(|lines|, k requires 0 <= k < |lines| => Strip(lines[k]))
  }

  /** The candidate answer lines among the stripped lines `sl[lo..hi]`, in order. */
  function Candidates(sl: seq<string>, lo: nat, hi: nat): (r: seq<string>)
    requires lo <= hi <= |sl|
    ensures |r| <= hi - lo
    decreases hi - lo
  {
    if lo == hi then []
    else Candidates(sl, lo, hi - 1) + (if AnswerCandidate(sl[hi - 1]) then [sl[hi - 1]] else [])
  }

  /** The end of the window of lines that may answer the question on line `i`. */
  function WindowEnd(sl: seq<string>, i: nat): nat {
    if i + 5 < |sl| then i + 5 else |sl|
  }

  /** The answer to the question on line `i`: the first two candidates among the
      next four lines. */
  function AnswerLines(sl: seq<string>, i: nat): (r: seq<string>)
    requires i < |sl|
    ensures |r| <= 2
  {
    var c := Candidates(sl, i + 1, WindowEnd(sl, i));
    if |c| <= 2 then c else c[..2]
  }

  function FaqAt(sl: seq<string>, i: nat): seq<Faq>
    requires i < |sl|
  {
    if Question(sl[i]) && AnswerLines(sl, i) != [] then
      [Faq(sl[i], Join(AnswerLines(sl, i), " "), "text_analysis")]
    else []
  }

  /** The FAQs found on the first `m` stripped lines, in line order. */
  function FaqsUpTo(sl: seq<string>, m: nat): seq<Faq>
    requires m <= |sl|
    decreases m
  {
    if m == 0 then [] else FaqsUpTo(sl, m - 1) + FaqAt(sl, m - 1)
  }

  /** Scanning further only extends the candidates found so far. */
  lemma {:induction false} CandidatesGrow(sl: seq<string>, lo: nat, hi: nat, hi': nat)
    requires lo <= hi <= hi' <= |sl|
    ensures Candidates(sl, lo, hi) <= Candidates(sl, lo, hi')
    decreases hi' - hi
  {
    if hi < hi' {
      CandidatesGrow(sl, lo, hi, hi' - 1);
    }
  }

  /** Once two candidates are found, the rest of the window does not change the
      answer. */
  lemma AnswerAfterTwo(sl: seq<string>, i: nat, j: nat)
    requires i < |sl| && i + 1 <= j <= WindowEnd(sl, i)
    requires |Candidates(sl, i + 1, j)| == 2
    ensures AnswerLines(sl, i) == Candidates(sl, i + 1, j)
  {
    var a := Candidates(sl, i + 1, j);
    var c := Candidates(sl, i + 1, WindowEnd(sl, i));
    CandidatesGrow(sl, i + 1, j, WindowEnd(sl, i));
    assert c[..2] == a;
  }

  /** Looking at line `j` adds it to the candidates when it is one. */
  lemma CandidatesStep(sl: seq<string>, lo: nat, j: nat, line: string)
    requires lo <= j < |sl| && line == sl[j]
    ensures line != "" && !EndsWith(line, "?") ==> Candidates(sl, lo, j + 1) == Candidates(sl, lo, j) + [line]
    ensures !(line != "" && !EndsWith(line, "?")) ==> Candidates(sl, lo, j + 1) == Candidates(sl, lo, j)
  {
    if !(line != "" && !EndsWith(line, "?")) {
      assert Candidates(sl, lo, j) + [] == Candidates(sl, lo, j);
    }
  }

  /** The inner scan of `extract_faqs` over the stripped lines `sl`: up to four
      lines after the question, stopping at the second answer line. */
  method ScanAnswers(sl: seq<string>, i: nat) returns (answerLines: seq<string>)
    requires i < |sl|
    ensures answerLines == AnswerLines(sl, i)
  {
    answerLines := [];
    var hi := if i + 5 < |sl| then i + 5 else |sl|;
    var j := i + 1;
    while j < hi
      invariant i + 1 <= j <= hi
      invariant answerLines == Candidates(sl, i + 1, j)
      invariant |answerLines| < 2
    {
      var nextLine := sl[j];
      CandidatesStep(sl, i + 1, j, nextLine);
      if nextLine != "" && !EndsWith(nextLine, "?") {
        answerLines := answerLines + [nextLine];
        if |answerLines| >= 2 {
          AnswerAfterTwo(sl, i, j + 1);
          return;
        }
      }
      j := j + 1;
    }
  }

  /** What line `i` adds to the FAQs found before it. */
  lemma FaqsStep(sl: seq<string>, i: nat)
    requires i < |sl|
    ensures FaqsUpTo(sl, i + 1) == FaqsUpTo(sl, i)
      + if Question(sl[i]) && AnswerLines(sl, i) != [] then [Faq(sl[i], Join(AnswerLines(sl, i), " "), "text_analysis")] else []
  {
  }

  /** `extract_faqs`: every stripped line ending in `?` and longer than ten
      characters that has answer lines yields one FAQ. Each line is stripped
      once, before the scan, rather than where the scan first reads it. */
  method ExtractFaqs(htmlContent: string) returns (faqs: seq<Faq>)
    ensures faqs == FaqsUpTo(StrippedLines(Split(htmlContent, '\n')), |Split(htmlContent, '\n')|)
  {
    var lines := Split(htmlContent, '\n');
    var sl := StrippedLines(lines);
    faqs := [];
    for i := 0 to |sl|
      invariant faqs == FaqsUpTo(sl, i)
    {
      FaqsStep(sl, i);
      var line := sl[i];
      if EndsWith(line, "?") && |line| > 10 {
        var answerLines := ScanAnswers(sl, i);
        if answerLines != [] {
          faqs := faqs + [Faq(line, Join(answerLines, " "), "text_analysis")];
        }
      }
    }
  }

  /** The FAQ the question on stripped line `i` yields. */
  predicate FaqFrom(sl: seq<string>, i: nat, f: Faq)
    requires i < |sl|
  {
    Question(sl[i]) && f.question == sl[i]
    && AnswerLines(sl, i) != [] && f.answer == Join(AnswerLines(sl, i), " ")
    && f.source == "text_analysis"
  }

  /** Every FAQ comes from a question line among the lines scanned: a line
      ending in `?` longer than ten characters, answered by one or two lines of
      the window after it. */
  lemma {:induction false} FaqsShape(sl: seq<string>, m: nat, f: Faq)
    requires m <= |sl| && f in FaqsUpTo(sl, m)
    ensures exists i :: 0 <= i < m && FaqFrom(sl, i, f)
    decreases m
  {
    if f in FaqsUpTo(sl, m - 1) {
      FaqsShape(sl, m - 1, f);
    } else {
      assert FaqFrom(sl, m - 1, f);
    }
  }

  /** Every answer line is a non-blank line of the window not ending in `?`, and
      every such line is a candidate. */
  lemma {:induction false} CandidatesFromWindow(sl: seq<string>, lo: nat, hi: nat, a: string)
    requires lo <= hi <= |sl|
    ensures a in Candidates(sl, lo, hi) <==> exists j :: lo <= j < hi && sl[j] == a && AnswerCandidate(a)
    decreases hi - lo
  {
    if lo < hi {
      CandidatesFromWindow(sl, lo, hi - 1, a);
      var before := Candidates(sl, lo, hi - 1);
      var last := if AnswerCandidate(sl[hi - 1]) then [sl[hi - 1]] else [];
      assert Candidates(sl, lo, hi) == before + last;
      if a in before {
        var j :| lo <= j < hi - 1 && sl[j] == a && AnswerCandidate(a);
        assert lo <= j < hi;
      } else if a in last {
        assert sl[hi - 1] == a && AnswerCandidate(a);
      }
      if exists j :: lo <= j < hi && sl[j] == a && AnswerCandidate(a) {
        var j :| lo <= j < hi && sl[j] == a && AnswerCandidate(a);
        if j < hi - 1 {
          assert a in before;
        } else {
          assert a in last;
        }
      }
    }
  }

  /** A question is kept exactly when some line of its window is a candidate
      answer. */
  lemma QuestionKeptIff(sl: seq<string>, i: nat)
    requires i < |sl| && Question(sl[i])
    ensures |FaqAt(sl, i)| == 1 <==> exists j :: i + 1 <= j < WindowEnd(sl, i) && AnswerCandidate(sl[j])
  {
    var hi := WindowEnd(sl, i);
    var c := Candidates(sl, i + 1, hi);
    if c != [] {
      CandidatesFromWindow(sl, i + 1, hi, c[0]);
    }
    if exists j :: i + 1 <= j < hi && AnswerCandidate(sl[j]) {
      var j :| i + 1 <= j < hi && AnswerCandidate(sl[j]);
      CandidatesFromWindow(sl, i + 1, hi, sl[j]);
    }
  }

  /** Stripping the lines first loses nothing: every question and answer line is
      already stripped. */
  lemma StrippedLinesStripped(lines: seq<string>, k: nat)
    requires k < |lines|
    ensures Strip(StrippedLines(lines)[k]) == StrippedLines(lines)[k]
  {
    StripOfStripped(Strip(lines[k]));
  }

  // ---------------------------------------------------------------------------
  // Link filters over the parser's links

  const RelevantKeywords: seq<string> := ["recycling", "waste", "environment", "sustainability", "green"]
  const NewsKeywords: seq<string> := ["press", "news", "media", "release", "announcement"]

  /** `extract_relevant_links`: the parser's qualifying links, resolved against
      the base URL. */
  method ExtractRelevantLinks(events: seq<Event>, urljoin: (string, string) -> string)
    returns (relevantLinks: seq<LinkEntry>)
    ensures relevantLinks == RelevantEntries(KeywordLinks(Parse(events).links, RelevantKeywords), urljoin, BaseUrl)
  {
    var parser := new SimpleHtmlParser();
    parser.Feed(events);
    var links := parser.links;
    relevantLinks := [];
    for i := 0 to |links|
      invariant relevantLinks == RelevantEntries(KeywordLinks(links[..i], RelevantKeywords), urljoin, BaseUrl)
    {
      assert links[..i + 1][..i] == links[..i];
      var link := links[i];
      if link.text != "" && link.href != "" {
        if HasKeyword(link.href, link.text, RelevantKeywords) {
          var fullUrl := urljoin(BaseUrl, link.href);
          relevantLinks := relevantLinks + [RelevantLink(link.text, fullUrl)];
        }
      }
    }
    assert links[..|links|] == links;
  }

  /** `extract_press_releases`: the same filter with the news keywords. */
  method ExtractPressReleases(events: seq<Event>, urljoin: (string, string) -> string)
    returns (pressReleases: seq<LinkEntry>)
    ensures pressReleases == PressEntries(KeywordLinks(Parse(events).links, NewsKeywords), urljoin, BaseUrl, "link_analysis")
  {
    var parser := new SimpleHtmlParser();
    parser.Feed(events);
    var links := parser.links;
    pressReleases := [];
    for i := 0 to |links|
      invariant pressReleases == PressEntries(KeywordLinks(links[..i], NewsKeywords), urljoin, BaseUrl, "link_analysis")
    {
      assert links[..i + 1][..i] == links[..i];
      var link := links[i];
      if link.text != "" && link.href != "" {
        if HasKeyword(link.href, link.text, NewsKeywords) {
          var fullUrl := urljoin(BaseUrl, link.href);
          pressReleases := pressReleases + [PressRelease(link.text, fullUrl, "link_analysis")];
        }
      }
    }
    assert links[..|links|] == links;
  }
}
