/**
 * Headlines for one stock from its RSS feed. The XML tokeniser is outside the
 * model: a document arrives as the sequence of callbacks it makes on the
 * parser delegate, which collects one news item per `<item>` element.
 */
module StockNews {
  import opened Common
  import opened Text

  datatype StockNewsItem = StockNewsItem(title: string, link: Option<string>, pubDate: Option<string>, source: Option<string>)

  /** One delegate callback made by the XML parser. */
  datatype ParserEvent =
    | StartElement(name: string)
    | Characters(text: string)
    | EndElement(name: string)
    | EndDocument

  /** The delegate's fields, as one value. */
  datatype ParserState = ParserState(newsItems: seq<StockNewsItem>, currentElement: string,
                                     currentTitle: string, currentLink: string)

  /** A freshly created parser. */
  const Initial := ParserState([], "", "", "")

  const YahooSource := "Yahoo Finance"

  /** The item built when an `<item>` element closes. */
  function ItemOf(title: string, link: string): (item: StockNewsItem)
    ensures item.source == Some(YahooSource) && item.pubDate.None? && item.link.Some?
    ensures item.title == Trimmed(title, WhitespacesAndNewlines)
    ensures item.link.value == Trimmed(link, WhitespacesAndNewlines)
  {
    StockNewsItem(Trimmed(title, WhitespacesAndNewlines), Some(Trimmed(link, WhitespacesAndNewlines)),
                  None, Some(YahooSource))
  }

  /** The effect of one callback on the delegate's fields; the end of the document changes none of them. */
  function Step(st: ParserState, e: ParserEvent): (r: ParserState)
    ensures |r.newsItems| == |st.newsItems| + (if e == EndElement("item") then 1 else 0)
    ensures r.newsItems[..|st.newsItems|] == st.newsItems
    ensures e.EndDocument? || e.EndElement? ==> r.currentElement == st.currentElement
    ensures e.EndDocument? ==> r == st
  {
    match e
    case StartElement(name) =>
      if name == "item" then st.(currentElement := name, currentTitle := "", currentLink := "")
      else st.(currentElement := name)
    case Characters(text) =>
      var trimmed := Trimmed(text, WhitespacesAndNewlines);
      if trimmed == [] then st
      else if st.currentElement == "title" then st.(currentTitle := st.currentTitle + trimmed)
      else if st.currentElement == "link" then st.(currentLink := st.currentLink + trimmed)
      else st
    case EndElement(name) =>
      if name == "item" then st.(newsItems := st.newsItems + [ItemOf(st.currentTitle, st.currentLink)])
      else st
    case EndDocument => st
  }

  /** The fields after a whole run of callbacks. */
  function Run(st: ParserState, events: seq<ParserEvent>): ParserState
    decreases |events|
  {
    if events == [] then st else Step(Run(st, events[..|events| - 1]), events[|events| - 1])
  }

  /** The lists handed to the completion: one per end-of-document callback. */
  function Reports(st: ParserState, events: seq<ParserEvent>): seq<seq<StockNewsItem>>
    decreases |events|
  {
    if events == [] then []
    else
      var before := events[..|events| - 1];
      if events[|events| - 1].EndDocument? then Reports(st, before) + [Run(st, before).newsItems]
      else Reports(st, before)
  }

  /** Number of `</item>` callbacks. */
  function CountItemEnds(events: seq<ParserEvent>): nat
    decreases |events|
  {
    if events == [] then 0
    else CountItemEnds(events[..|events| - 1]) + (if events[|events| - 1] == EndElement("item") then 1 else 0)
  }

  class StockNewsParser {
    var newsItems: seq<StockNewsItem>
    var currentElement: string
    var currentTitle: string
    var currentLink: string

    constructor ()
      ensures State() == Initial
    {
      newsItems := [];
      currentElement := "";
      currentTitle := "";
      currentLink := "";
    }

    function State(): ParserState
      reads this
    {
      ParserState(newsItems, currentElement, currentTitle, currentLink)
    }

    /** `didStartElement`: remember the element; an `<item>` starts with an empty title and link. */
    method DidStartElement(name: string)
      modifies this
      ensures currentElement == name && newsItems == old(newsItems)
      ensures name == "item" ==> currentTitle == "" && currentLink == ""
      ensures name != "item" ==> currentTitle == old(currentTitle) && currentLink == old(currentLink)
      ensures State() == Step(old(State()), StartElement(name))
    {
      currentElement := name;
      if name == "item" {
        currentTitle := "";
        currentLink := "";
      }
    }

    /**
     * `foundCharacters`: a chunk that is blank after trimming is dropped;
     * any other is appended, trimmed, to the title inside `<title>`, to the
     * link inside `<link>`, and dropped elsewhere.
     */
    method FoundCharacters(text: string)
      modifies this
      ensures var trimmed := Trimmed(text, WhitespacesAndNewlines);
        && (trimmed == [] ==> unchanged(this))
        && (trimmed != [] && old(currentElement) == "title" ==>
              currentTitle == old(currentTitle) + trimmed && currentLink == old(currentLink))
        && (trimmed != [] && old(currentElement) == "link" ==>
              currentLink == old(currentLink) + trimmed && currentTitle == old(currentTitle))
        && (old(currentElement) != "title" && old(currentElement) != "link" ==> unchanged(this))
      ensures newsItems == old(newsItems) && currentElement == old(currentElement)
      ensures State() == Step(old(State()), Characters(text))
    {
      var trimmed := Trimmed(text, WhitespacesAndNewlines);
      if trimmed != [] {
        if currentElement == "title" {
          currentTitle := currentTitle + trimmed;
        } else if currentElement == "link" {
          currentLink := currentLink + trimmed;
        }
      }
    }

    /** `didEndElement`: closing an `<item>` appends one item built from the collected title and link. */
    method DidEndElement(name: string)
      modifies this
      ensures name == "item" ==> newsItems == old(newsItems) + [ItemOf(old(currentTitle), old(currentLink))]
      ensures name != "item" ==> newsItems == old(newsItems)
      ensures currentElement == old(currentElement) && currentTitle == old(currentTitle)
      ensures currentLink == old(currentLink)
      ensures State() == Step(old(State()), EndElement(name))
    {
      if name == "item" {
        var newsItem := ItemOf(currentTitle, currentLink);
        newsItems := newsItems + [newsItem];
      }
    }

    /** `parserDidEndDocument`: hand the items collected so far to the completion. */
    method DidEndDocument() returns (delivered: seq<StockNewsItem>)
      ensures delivered == newsItems
    {
      delivered := newsItems;
    }

    /**
     * `parseNews`: the tokeniser drives the delegate through `events`; the
     * result lists what the completion receives, once per end of document
     * (none when the tokeniser stops on an error before the end).
     */
    method ParseNews(events: seq<ParserEvent>) returns (reports: seq<seq<StockNewsItem>>)
      modifies this
      ensures State() == Run(old(State()), events)
      ensures reports == Reports(old(State()), events)
    {
      reports := [];
      for i := 0 to |events|
        invariant State() == Run(old(State()), events[..i])
        invariant reports == Reports(old(State()), events[..i])
      {
        assert events[..i + 1][..i] == events[..i];
        match events[i]
        case StartElement(name) => DidStartElement(name);
        case Characters(text) => FoundCharacters(text);
        case EndElement(name) => DidEndElement(name);
        case EndDocument =>
          var delivered := DidEndDocument();
          reports := reports + [delivered];
      }
      assert events[..|events|] == events;
    }
  }

  // ---------------------------------------------------------------------------
  // Properties of a run

  /** One item is produced per `</item>` callback and none otherwise. */
  lemma {:induction false} ItemCount(st: ParserState, events: seq<ParserEvent>)
    decreases |events|
    ensures |Run(st, events).newsItems| == |st.newsItems| + CountItemEnds(events)
  {
    if events != [] {
      ItemCount(st, events[..|events| - 1]);
    }
  }

  /**
   * Items are only ever appended: the items held before a run stay at the
   * front, and every item added by the run comes from Yahoo Finance, has
   * a link and has no publication date.
   */
  lemma {:induction false} RunAppendsYahooItems(st: ParserState, events: seq<ParserEvent>)
    decreases |events|
    ensures var items := Run(st, events).newsItems;
      && |st.newsItems| <= |items| && items[..|st.newsItems|] == st.newsItems
      && forall k :: |st.newsItems| <= k < |items| ==>
           items[k].source == Some(YahooSource) && items[k].pubDate.None? && items[k].link.Some?
  {
    if events != [] {
      RunAppendsYahooItems(st, events[..|events| - 1]);
    }
  }

  /** A run is the run of its first part followed by the run of the rest. */
  lemma {:induction false} RunAppend(st: ParserState, a: seq<ParserEvent>, b: seq<ParserEvent>)
    decreases |b|
    ensures Run(st, a + b) == Run(Run(st, a), b)
  {
    if b == [] {
      assert a + b == a;
    } else {
      var b' := b[..|b| - 1];
      assert (a + b)[..|a + b| - 1] == a + b';
      RunAppend(st, a, b');
    }
  }

  /** A chunk made only of line or paragraph separators is trimmed away, so it changes nothing. */
  lemma SeparatorChunkIgnored(st: ParserState)
    ensures Step(st, Characters("\U{2028}\U{2029}")) == st
  {
    TrimmedEmptyIff("\U{2028}\U{2029}", WhitespacesAndNewlines);
  }

  /** Without an end-of-document callback (the tokeniser stopped on an error) the completion is never called. */
  lemma {:induction false} NoEndNoReport(st: ParserState, events: seq<ParserEvent>)
    requires forall k :: 0 <= k < |events| ==> !events[k].EndDocument?
    decreases |events|
    ensures Reports(st, events) == []
  {
    if events != [] {
      NoEndNoReport(st, events[..|events| - 1]);
    }
  }

  /** A well-formed document reports exactly once, with every item it contains. */
  lemma WellFormedReportsOnce(body: seq<ParserEvent>)
    requires forall k :: 0 <= k < |body| ==> !body[k].EndDocument?
    ensures Reports(Initial, body + [EndDocument]) == [Run(Initial, body).newsItems]
    ensures |Run(Initial, body).newsItems| == CountItemEnds(body)
  {
    assert (body + [EndDocument])[..|body|] == body;
    NoEndNoReport(Initial, body);
    ItemCount(Initial, body);
  }

  /**
   * Whatever text was collected before an `<item>` starts (the feed's own
   * `<title>` and `<link>`, say) does not leak into that item: after the
   * start only the items already produced are remembered.
   */
  lemma ItemStartForgetsPending(st: ParserState, before: seq<ParserEvent>, after: seq<ParserEvent>)
    ensures Run(st, before + [StartElement("item")] + after)
            == Run(ParserState(Run(st, before).newsItems, "item", "", ""), after)
  {
    RunAppend(st, before + [StartElement("item")], after);
    RunAppend(st, before, [StartElement("item")]);
    assert [StartElement("item")][..0] == [];
  }

  // ---------------------------------------------------------------------------
  // fetchNews

  /** What `fetchNews` does with the outcome of its request. */
  datatype FetchOutcome =
    | Headline(title: Option<string>)   // the completion is called with this value
    | AskSentiment                       // falls back to the market-sentiment request
    | NoCall                             // the completion is never called

  /**
   * `fetchNews`: an unusable URL or a failed request reports no headline;
   * otherwise the feed is parsed and the first item's title is the
   * headline, or, when the feed has no items, the sentiment fallback runs.
   * `response` is the callback sequence of the downloaded document, absent
   * when the request failed.
   */
  function FetchNews(urlParses: bool, response: Option<seq<ParserEvent>>): (r: FetchOutcome)
    ensures !urlParses || response.None? ==> r == Headline(None)
    ensures urlParses && response.Some? && Reports(Initial, response.value) == [] ==> r == NoCall
    ensures r.Headline? && r.title.Some? ==>
      && urlParses && response.Some?
      && var reports := Reports(Initial, response.value);
         reports != [] && reports[0] != [] && r.title.value == reports[0][0].title
    ensures r == AskSentiment ==> urlParses && response.Some? && Reports(Initial, response.value)[..1] == [[]]
    ensures urlParses && response.Some? && Reports(Initial, response.value) != [] ==>
      var first := Reports(Initial, response.value)[0];
      r == if first != [] then Headline(Some(first[0].title)) else AskSentiment
  {
    if !urlParses then Headline(None)
    else match response
      case None => Headline(None)
      case Some(events) =>
        var reports := Reports(Initial, events);
        if reports == [] then NoCall
        else
          var newsItems := reports[0];
          if newsItems != [] then Headline(Some(newsItems[0].title)) else AskSentiment
  }

  /** For a well-formed document the headline is the title of its first `<item>`. */
  lemma FetchFirstTitle(body: seq<ParserEvent>)
    requires forall k :: 0 <= k < |body| ==> !body[k].EndDocument?
    requires CountItemEnds(body) > 0
    ensures |Run(Initial, body).newsItems| > 0
            && FetchNews(true, Some(body + [EndDocument])) == Headline(Some(Run(Initial, body).newsItems[0].title))
  {
    WellFormedReportsOnce(body);
  }
}
