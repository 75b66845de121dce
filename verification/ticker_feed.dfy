/**
 * The feed aggregator: one list of tagged feed items that is rebuilt whenever
 * a data source delivers a fresh snapshot, re-merged so that stocks and news
 * alternate, system and notification items come last, and at most
 * `MaxItems` items remain.
 */
module TickerFeed {
  import opened Common
  import ReadHistory

  datatype ItemType = Stock | News | System | Notification

  /**
   * A feed item. The random UUID of the source becomes a `nat` drawn from a
   * counter; the creation `Date` becomes an integer timestamp.
   */
  datatype FeedItem = FeedItem(id: nat, text: string, kind: ItemType, timestamp: int,
                               url: Option<string>, isRead: bool)

  /** A stock quote as the stock data source delivers it; the price strings are formatted elsewhere. */
  datatype StockQuote = StockQuote(symbol: string, formattedPrice: string, formattedChange: string)

  /** A headline as the news data source delivers it. */
  datatype NewsItem = NewsItem(title: string, source: string, url: Option<string>, publishedAt: int)

  /** The re-merge keeps at most this many items. */
  const MaxItems: nat := 50

  const QuotePageUrl := "https://finance.yahoo.com/quote/"

  // ---------------------------------------------------------------------------
  // Partitions of the item list

  /** The three partitions of the re-merge: stocks, news and all the others. */
  datatype Group = StockGroup | NewsGroup | OtherGroup

  function GroupOf(k: ItemType): Group {
    match k
    case Stock => StockGroup
    case News => NewsGroup
    case System => OtherGroup
    case Notification => OtherGroup
  }

  predicate InGroup(item: FeedItem, g: Group) {
    GroupOf(item.kind) == g
  }

  predicate AllIn(s: seq<FeedItem>, g: Group) {
    forall i :: 0 <= i < |s| ==> InGroup(s[i], g)
  }

  predicate NoneIn(s: seq<FeedItem>, g: Group) {
    forall i :: 0 <= i < |s| ==> !InGroup(s[i], g)
  }

  /** `items.filter { ... }` for one partition, in list order. */
  function Select(s: seq<FeedItem>, g: Group): (r: seq<FeedItem>)
    ensures |r| <= |s|
    ensures AllIn(r, g)
  {
    if s == [] then []
    else if InGroup(s[0], g) then [s[0]] + Select(s[1..], g)
    else Select(s[1..], g)
  }

  /** `items.removeAll { $0.type == k }`. */
  function RemoveKind(s: seq<FeedItem>, k: ItemType): (r: seq<FeedItem>)
    ensures |r| <= |s|
    ensures forall i :: 0 <= i < |r| ==> r[i].kind != k
  {
    if s == [] then []
    else if s[0].kind == k then RemoveKind(s[1..], k)
    else [s[0]] + RemoveKind(s[1..], k)
  }

  // ---------------------------------------------------------------------------
  // The re-merge

  /** Position-by-position interleaving: `s[0], n[0], s[1], n[1], ...`, then the rest of the longer one. */
  function Interleave<T>(s: seq<T>, n: seq<T>): (r: seq<T>)
    ensures |r| == |s| + |n|
  {
    if s == [] then n
    else if n == [] then s
    else [s[0], n[0]] + Interleave(s[1..], n[1..])
  }

  /** The re-merged list before truncation: no item is dropped before the trim. */
  function Merge(s: seq<FeedItem>): (r: seq<FeedItem>)
    ensures |r| == |s|
  {
    SelectPartition(s);
    assert |multiset(s)| == |Select(s, StockGroup)| + |Select(s, NewsGroup)| + |Select(s, OtherGroup)|;
    Interleave(Select(s, StockGroup), Select(s, NewsGroup)) + Select(s, OtherGroup)
  }

  /** `Array(s.prefix(k))`. */
  function Take<T>(s: seq<T>, k: nat): (r: seq<T>)
    ensures |r| == Min(|s|, k)
    ensures r == s[..|r|]
  {
    if |s| <= k then s else s[..k]
  }

  /** What `sortAndTrimItems` leaves in `items`. */
  function SortAndTrim(s: seq<FeedItem>): (r: seq<FeedItem>)
    ensures |r| == Min(|Merge(s)|, MaxItems)
    ensures r == Merge(s)[..|r|]
  {
    Take(Merge(s), MaxItems)
  }

  // ---------------------------------------------------------------------------
  // Fresh items derived from the sources' snapshots

  function StockText(q: StockQuote): string {
    q.symbol + " " + q.formattedPrice + " " + q.formattedChange
  }

  /** One stock item per quote, with consecutive fresh ids and the quote page as url. */
  function StockFeedItems(quotes: seq<StockQuote>, firstId: nat, now: int): (r: seq<FeedItem>)
    ensures |r| == |quotes|
    ensures forall i :: 0 <= i < |r| ==> r[i].id == firstId + i && r[i].kind == Stock
  {
    seq(|quotes|, i requires 0 <= i < |quotes| =>
      FeedItem(firstId + i, StockText(quotes[i]), Stock, now, Some(QuotePageUrl + quotes[i].symbol), false))
  }

  /** The headlines that yield an item: those with a url that is not in the read history. */
  function UnreadWithUrl(news: seq<NewsItem>, readLinks: seq<string>): (r: seq<NewsItem>)
    ensures |r| <= |news|
    ensures forall i :: 0 <= i < |r| ==> r[i].url.Some? && r[i].url.value !in readLinks
    ensures forall i :: 0 <= i < |news| && news[i].url.Some? && news[i].url.value !in readLinks
                        ==> news[i] in r
    ensures forall x :: x in r ==> x in news
  {
    if news == [] then []
    else if news[0].url.Some? && news[0].url.value !in readLinks then
      [news[0]] + UnreadWithUrl(news[1..], readLinks)
    else UnreadWithUrl(news[1..], readLinks)
  }

  /** The filter keeps the headlines in their order: it distributes over concatenation. */
  lemma {:induction false} UnreadWithUrlAppend(a: seq<NewsItem>, b: seq<NewsItem>, readLinks: seq<string>)
    ensures UnreadWithUrl(a + b, readLinks) == UnreadWithUrl(a, readLinks) + UnreadWithUrl(b, readLinks)
  {
    if a != [] {
      assert (a + b)[0] == a[0];
      assert (a + b)[1..] == a[1..] + b;
      UnreadWithUrlAppend(a[1..], b, readLinks);
    } else {
      assert a + b == b;
    }
  }

  /**
   * The `compactMap` of `updateNewsItems`: a headline without url or with an
   * already-read url yields nothing; every other one yields a news item with a
   * fresh id, in order.
   */
  function NewsFeedItems(news: seq<NewsItem>, readLinks: seq<string>, firstId: nat): (r: seq<FeedItem>)
    ensures |r| == |UnreadWithUrl(news, readLinks)|
    ensures forall i :: 0 <= i < |r| ==>
      var h := UnreadWithUrl(news, readLinks)[i];
      r[i] == FeedItem(firstId + i, h.title, News, h.publishedAt, h.url, false)
  {
    if news == [] then []
    else match news[0].url
      case None => NewsFeedItems(news[1..], readLinks, firstId)
      case Some(u) =>
        if u in readLinks then NewsFeedItems(news[1..], readLinks, firstId)
        else [FeedItem(firstId, news[0].title, News, news[0].publishedAt, Some(u), false)]
             + NewsFeedItems(news[1..], readLinks, firstId + 1)
  }

  // ---------------------------------------------------------------------------
  // Identity of items

  /** No two distinct items share an id, and no item occurs twice. */
  ghost predicate IdsUnique(s: seq<FeedItem>) {
    && (forall x | x in multiset(s) :: multiset(s)[x] == 1)
    && (forall x, y | x in s && y in s && x.id == y.id :: x == y)
  }

  ghost predicate IdsBelow(s: seq<FeedItem>, bound: nat) {
    forall x | x in s :: x.id < bound
  }

  // ---------------------------------------------------------------------------
  // The aggregator object

  class TickerFeedData {
    var items: seq<FeedItem>
    /** The next fresh id to hand out. */
    var nextId: nat

    ghost predicate Valid()
      reads this
    {
      IdsBelow(items, nextId) && IdsUnique(items)
    }

    /** `loadInitialItems` starts from an empty list. */
    constructor ()
      ensures Valid() && items == [] && nextId == 0
    {
      items := [];
      nextId := 0;
    }

    /** Partition by kind, interleave stocks and news, append the others, keep the first `MaxItems`. */
    method SortAndTrimItems()
      modifies this
      ensures items == SortAndTrim(old(items))
      ensures nextId == old(nextId)
    {
      var stocks := Select(items, StockGroup);
      var news := Select(items, NewsGroup);
      var others := Select(items, OtherGroup);
      var mixed: seq<FeedItem> := [];
      var maxCount := Max(|stocks|, |news|);
      for i := 0 to maxCount
        invariant unchanged(this)
        invariant mixed == Interleave(stocks[..Min(i, |stocks|)], news[..Min(i, |news|)])
      {
        InterleaveStep(stocks, news, i);
        if i < |stocks| {
          mixed := mixed + [stocks[i]];
        }
        if i < |news| {
          mixed := mixed + [news[i]];
        }
      }
      assert Min(maxCount, |stocks|) == |stocks| && Min(maxCount, |news|) == |news|;
      assert stocks[..|stocks|] == stocks && news[..|news|] == news;
      mixed := mixed + others;
      assert mixed == Merge(old(items));
      items := Take(mixed, MaxItems);
    }

    /** Replaces every stock item by one fresh item per quote, then re-merges. */
    method UpdateStockItems(quotes: seq<StockQuote>, now: int)
      requires Valid()
      modifies this
      ensures Valid()
      ensures nextId == old(nextId) + |quotes|
      ensures items == SortAndTrim(RemoveKind(old(items), Stock) + StockFeedItems(quotes, old(nextId), now))
    {
      RemoveKindSubMultiset(items, Stock);
      IdsUniqueSubMultiset(items, RemoveKind(items, Stock));
      items := RemoveKind(items, Stock);
      var stockItems := StockFeedItems(quotes, nextId, now);
      FreshItemsKeepValid(items, stockItems, nextId);
      nextId := nextId + |stockItems|;
      items := items + stockItems;
      ghost var merged := items;
      SortAndTrimItems();
      SortAndTrimSubMultiset(merged);
      IdsUniqueSubMultiset(merged, items);
    }

    /**
     * Replaces every news item by one fresh item per headline that has a url
     * the read history does not hold, then re-merges.
     */
    method UpdateNewsItems(newsItems: seq<NewsItem>, history: ReadHistory.ReadHistoryManager)
      requires Valid()
      modifies this
      ensures Valid()
      ensures nextId == old(nextId) + |UnreadWithUrl(newsItems, history.readLinks)|
      ensures items == SortAndTrim(RemoveKind(old(items), News)
                                   + NewsFeedItems(newsItems, history.readLinks, old(nextId)))
      ensures forall i :: 0 <= i < |items| && items[i].kind == News ==>
                items[i].url.Some? && !history.IsRead(items[i].url.value)
    {
      RemoveKindSubMultiset(items, News);
      IdsUniqueSubMultiset(items, RemoveKind(items, News));
      items := RemoveKind(items, News);
      var newsFeeds := NewsFeedItems(newsItems, history.GetReadLinks(), nextId);
      FreshItemsKeepValid(items, newsFeeds, nextId);
      nextId := nextId + |newsFeeds|;
      ghost var kept := items;
      items := items + newsFeeds;
      ghost var merged := items;
      SortAndTrimItems();
      SortAndTrimSubMultiset(merged);
      IdsUniqueSubMultiset(merged, items);
      forall i | 0 <= i < |items| && items[i].kind == News
        ensures items[i].url.Some? && !history.IsRead(items[i].url.value)
      {
        assert items[i] in multiset(merged);
        assert items[i] !in kept;
      }
    }

    /** Appends one locally sourced item without url, then re-merges. */
    method AddCustomItem(text: string, kind: ItemType, now: int)
      requires Valid()
      modifies this
      ensures Valid()
      ensures nextId == old(nextId) + 1
      ensures items == SortAndTrim(old(items) + [FeedItem(old(nextId), text, kind, now, None, false)])
    {
      var item := FeedItem(nextId, text, kind, now, None, false);
      FreshItemsKeepValid(items, [item], nextId);
      nextId := nextId + 1;
      items := items + [item];
      ghost var merged := items;
      SortAndTrimItems();
      SortAndTrimSubMultiset(merged);
      IdsUniqueSubMultiset(merged, items);
    }
  }

  // ---------------------------------------------------------------------------
  // Lemmas: filters

  lemma {:induction false} SelectAppend(a: seq<FeedItem>, b: seq<FeedItem>, g: Group)
    ensures Select(a + b, g) == Select(a, g) + Select(b, g)
  {
    if a == [] {
      assert a + b == b;
    } else {
      assert (a + b)[1..] == a[1..] + b;
      SelectAppend(a[1..], b, g);
    }
  }

  lemma {:induction false} SelectAll(s: seq<FeedItem>, g: Group)
    requires AllIn(s, g)
    ensures Select(s, g) == s
  {
    if s != [] {
      SelectAll(s[1..], g);
    }
  }

  lemma {:induction false} SelectNone(s: seq<FeedItem>, g: Group)
    requires NoneIn(s, g)
    ensures Select(s, g) == []
  {
    if s != [] {
      SelectNone(s[1..], g);
    }
  }

  /** The three partitions together hold exactly the items of the list. */
  lemma {:induction false} SelectPartition(s: seq<FeedItem>)
    ensures multiset(Select(s, StockGroup)) + multiset(Select(s, NewsGroup)) + multiset(Select(s, OtherGroup))
            == multiset(s)
  {
    if s != [] {
      var x, rest := s[0], s[1..];
      SelectPartition(rest);
      MultisetHead(s);
      SelectHead(s, StockGroup);
      SelectHead(s, NewsGroup);
      SelectHead(s, OtherGroup);
    }
  }

  /** The head of a list counts in the partition of its own group and in no other. */
  lemma SelectHead(s: seq<FeedItem>, g: Group)
    requires s != []
    ensures multiset(Select(s, g))
            == (if InGroup(s[0], g) then multiset{s[0]} else multiset{}) + multiset(Select(s[1..], g))
  {
    if InGroup(s[0], g) {
      MultisetHead(Select(s, g));
    }
  }

  lemma {:induction false} RemoveKindSubMultiset(s: seq<FeedItem>, k: ItemType)
    ensures multiset(RemoveKind(s, k)) <= multiset(s)
  {
    if s != [] {
      var r := RemoveKind(s[1..], k);
      RemoveKindSubMultiset(s[1..], k);
      MultisetHead(s);
      if s[0].kind != k {
        assert RemoveKind(s, k) == [s[0]] + r;
        MultisetHead(RemoveKind(s, k));
      }
    }
  }

  /** Removing the stock (or news) items leaves every other partition as it was. */
  lemma {:induction false} RemoveKindSelect(s: seq<FeedItem>, k: ItemType, g: Group)
    requires k == Stock || k == News
    ensures Select(RemoveKind(s, k), g) == if g == GroupOf(k) then [] else Select(s, g)
  {
    if s != [] {
      RemoveKindSelect(s[1..], k, g);
    }
  }

  /**
   * `updateStockItems` and `updateNewsItems` touch only their own kind: in the
   * list handed to the re-merge, the partition of that kind is exactly the
   * fresh items and every other partition is unchanged.
   */
  lemma UpdateTouchesOnlyOwnKind(s: seq<FeedItem>, k: ItemType, added: seq<FeedItem>, g: Group)
    requires k == Stock || k == News
    requires AllIn(added, GroupOf(k))
    ensures Select(RemoveKind(s, k) + added, g) == if g == GroupOf(k) then added else Select(s, g)
  {
    SelectAppend(RemoveKind(s, k), added, g);
    RemoveKindSelect(s, k, g);
    if g == GroupOf(k) {
      SelectAll(added, g);
    } else {
      SelectNone(added, g);
    }
  }

  // ---------------------------------------------------------------------------
  // Lemmas: interleaving

  lemma {:induction false} InterleaveSnocLeft<T>(a: seq<T>, b: seq<T>, x: T)
    requires |a| >= |b|
    ensures Interleave(a + [x], b) == Interleave(a, b) + [x]
  {
    if b != [] {
      assert (a + [x])[1..] == a[1..] + [x];
      InterleaveSnocLeft(a[1..], b[1..], x);
    }
  }

  lemma {:induction false} InterleaveSnocRight<T>(a: seq<T>, b: seq<T>, y: T)
    requires |a| <= |b| + 1
    ensures Interleave(a, b + [y]) == Interleave(a, b) + [y]
  {
    if a != [] && b != [] {
      assert (b + [y])[1..] == b[1..] + [y];
      InterleaveSnocRight(a[1..], b[1..], y);
    }
  }

  /** One round of the merge loop: the `i`-th stock, if any, then the `i`-th headline, if any. */
  lemma InterleaveStep<T>(a: seq<T>, b: seq<T>, i: nat)
    ensures var cur := Interleave(a[..Min(i, |a|)], b[..Min(i, |b|)]);
      var next := Interleave(a[..Min(i + 1, |a|)], b[..Min(i + 1, |b|)]);
      && (i < |a| && i < |b| ==> next == cur + [a[i]] + [b[i]])
      && (i < |a| && i >= |b| ==> next == cur + [a[i]])
      && (i >= |a| && i < |b| ==> next == cur + [b[i]])
      && (i >= |a| && i >= |b| ==> next == cur)
  {
    if i < |a| {
      InterleaveSnocLeft(a[..i], b[..Min(i, |b|)], a[i]);
      assert a[..i + 1] == a[..i] + [a[i]];
    }
    if i < |b| {
      InterleaveSnocRight(a[..Min(i + 1, |a|)], b[..i], b[i]);
      assert b[..i + 1] == b[..i] + [b[i]];
    }
  }

  /** While both lists last, they alternate starting with the first: `s[i]` at `2i`, `n[i]` at `2i+1`. */
  lemma {:induction false} InterleaveAlternates<T>(s: seq<T>, n: seq<T>, i: nat)
    requires i < |s| && i < |n|
    ensures Interleave(s, n)[2 * i] == s[i] && Interleave(s, n)[2 * i + 1] == n[i]
  {
    if i > 0 {
      InterleaveAlternates(s[1..], n[1..], i - 1);
    }
  }

  /** Once the shorter list is used up, the rest of the longer one follows in order. */
  lemma {:induction false} InterleaveTail<T>(s: seq<T>, n: seq<T>, i: nat)
    ensures |n| <= i < |s| ==> Interleave(s, n)[|n| + i] == s[i]
    ensures |s| <= i < |n| ==> Interleave(s, n)[|s| + i] == n[i]
  {
    if s != [] && n != [] && i > 0 {
      var rest := Interleave(s[1..], n[1..]);
      assert Interleave(s, n) == [s[0], n[0]] + rest;
      InterleaveTail(s[1..], n[1..], i - 1);
    }
  }

  lemma {:induction false} InterleaveMultiset<T>(s: seq<T>, n: seq<T>)
    ensures multiset(Interleave(s, n)) == multiset(s) + multiset(n)
  {
    if s != [] && n != [] {
      var r := Interleave(s[1..], n[1..]);
      InterleaveMultiset(s[1..], n[1..]);
      MultisetTwoHeads(s[0], n[0], r);
      MultisetHead(s);
      MultisetHead(n);
      var m := Interleave(s, n);
      forall x
        ensures multiset(m)[x] == multiset(s)[x] + multiset(n)[x]
      {
      }
    }
  }

  /** Two elements in front add one to the count of each. */
  lemma MultisetTwoHeads<T>(x: T, y: T, r: seq<T>)
    ensures multiset([x, y] + r) == multiset{x} + multiset{y} + multiset(r)
  {
    assert [x, y] + r == [x] + ([y] + r);
  }

  lemma MultisetHead<T>(s: seq<T>)
    requires s != []
    ensures multiset(s) == multiset{s[0]} + multiset(s[1..])
  {
    assert s == [s[0]] + s[1..];
  }

  /** Filtering an interleaving for a group that the second list lacks gives the first list's share. */
  lemma {:induction false} SelectInterleaveLeft(s: seq<FeedItem>, n: seq<FeedItem>, g: Group)
    requires NoneIn(n, g)
    ensures Select(Interleave(s, n), g) == Select(s, g)
  {
    if s == [] {
      SelectNone(n, g);
    } else if n != [] {
      var rest := Interleave(s[1..], n[1..]);
      assert [s[0], n[0]] + rest == [s[0]] + ([n[0]] + rest);
      SelectAppend([n[0]], rest, g);
      SelectInterleaveLeft(s[1..], n[1..], g);
    }
  }

  /** Filtering an interleaving for a group that the first list lacks gives the second list's share. */
  lemma {:induction false} SelectInterleaveRight(s: seq<FeedItem>, n: seq<FeedItem>, g: Group)
    requires NoneIn(s, g)
    ensures Select(Interleave(s, n), g) == Select(n, g)
  {
    if n == [] {
      SelectNone(s, g);
    } else if s != [] {
      var rest := Interleave(s[1..], n[1..]);
      assert [s[0], n[0]] + rest == [s[0]] + ([n[0]] + rest);
      SelectInterleaveRight(s[1..], n[1..], g);
    }
  }

  /** Every prefix of an interleaving is the interleaving of two prefixes. */
  lemma {:induction false} InterleavePrefix<T>(s: seq<T>, n: seq<T>, k: nat) returns (a: nat, b: nat)
    requires k <= |s| + |n|
    ensures a <= |s| && b <= |n|
    ensures Interleave(s, n)[..k] == Interleave(s[..a], n[..b])
  {
    if s == [] {
      a, b := 0, k;
    } else if n == [] {
      a, b := k, 0;
    } else if k == 0 {
      a, b := 0, 0;
    } else if k == 1 {
      a, b := 1, 0;
    } else {
      var a', b' := InterleavePrefix(s[1..], n[1..], k - 2);
      a, b := a' + 1, b' + 1;
      assert s[..a][1..] == s[1..][..a'];
      assert n[..b][1..] == n[1..][..b'];
    }
  }

  // ---------------------------------------------------------------------------
  // Lemmas: properties of the re-merge

  /**
   * The layout of the merged list before truncation: stocks and news alternate
   * while both last, the rest of the longer partition follows, then the others.
   */
  lemma MergeLayout(s: seq<FeedItem>, i: nat)
    ensures var st, nw, ot := Select(s, StockGroup), Select(s, NewsGroup), Select(s, OtherGroup);
      && |Merge(s)| == |st| + |nw| + |ot|
      && (i < |st| && i < |nw| ==> Merge(s)[2 * i] == st[i] && Merge(s)[2 * i + 1] == nw[i])
  {
    InterleaveThenLayout(Merge(s), Select(s, StockGroup), Select(s, NewsGroup), Select(s, OtherGroup), i);
  }

  /** Once the shorter of stock and news runs out, the longer one continues in its own order. */
  lemma MergeLayoutTail(s: seq<FeedItem>, i: nat)
    ensures |Select(s, NewsGroup)| <= i < |Select(s, StockGroup)| ==>
      Merge(s)[|Select(s, NewsGroup)| + i] == Select(s, StockGroup)[i]
    ensures |Select(s, StockGroup)| <= i < |Select(s, NewsGroup)| ==>
      Merge(s)[|Select(s, StockGroup)| + i] == Select(s, NewsGroup)[i]
  {
    InterleaveThenTail(Merge(s), Select(s, StockGroup), Select(s, NewsGroup), Select(s, OtherGroup), i);
  }

  /** The others follow the whole stock and news block, in their own order. */
  lemma MergeLayoutOthers(s: seq<FeedItem>, i: nat)
    ensures var st, nw, ot := Select(s, StockGroup), Select(s, NewsGroup), Select(s, OtherGroup);
      i < |ot| ==> Merge(s)[|st| + |nw| + i] == ot[i]
  {
    InterleaveThenLayout(Merge(s), Select(s, StockGroup), Select(s, NewsGroup), Select(s, OtherGroup), i);
  }

  /** An interleaving followed by a tail: the alternating pairs, then the tail after both inputs. */
  lemma InterleaveThenLayout<T>(r: seq<T>, st: seq<T>, nw: seq<T>, ot: seq<T>, i: nat)
    requires r == Interleave(st, nw) + ot
    ensures i < |st| && i < |nw| ==> r[2 * i] == st[i] && r[2 * i + 1] == nw[i]
    ensures i < |ot| ==> r[|st| + |nw| + i] == ot[i]
  {
    var m := Interleave(st, nw);
    if i < |st| && i < |nw| {
      InterleaveAlternates(st, nw, i);
      assert r[2 * i] == m[2 * i] && r[2 * i + 1] == m[2 * i + 1];
    }
  }

  /** After an interleaving, past the shorter input, the longer one continues. */
  lemma InterleaveThenTail<T>(r: seq<T>, st: seq<T>, nw: seq<T>, ot: seq<T>, i: nat)
    requires r == Interleave(st, nw) + ot
    ensures |nw| <= i < |st| ==> r[|nw| + i] == st[i]
    ensures |st| <= i < |nw| ==> r[|st| + i] == nw[i]
  {
    var m := Interleave(st, nw);
    if |nw| <= i < |st| {
      InterleaveTail(st, nw, i);
      assert r[|nw| + i] == m[|nw| + i];
    }
    if |st| <= i < |nw| {
      InterleaveTail(st, nw, i);
      assert r[|st| + i] == m[|st| + i];
    }
  }

  /** The re-merge keeps the relative order within each partition. */
  lemma MergeKeepsOrder(s: seq<FeedItem>, g: Group)
    ensures Select(Merge(s), g) == Select(s, g)
  {
    var st, nw, ot := Select(s, StockGroup), Select(s, NewsGroup), Select(s, OtherGroup);
    SelectAppend(Interleave(st, nw), ot, g);
    match g
    case StockGroup =>
      SelectInterleaveLeft(st, nw, g); SelectAll(st, g); SelectNone(ot, g);
    case NewsGroup =>
      SelectInterleaveRight(st, nw, g); SelectAll(nw, g); SelectNone(ot, g);
    case OtherGroup =>
      SelectInterleaveLeft(st, nw, g); SelectNone(st, g); SelectAll(ot, g);
  }

  /** The merged list before truncation is a permutation of the input. */
  lemma MergePermutation(s: seq<FeedItem>)
    ensures multiset(Merge(s)) == multiset(s)
  {
    InterleaveMultiset(Select(s, StockGroup), Select(s, NewsGroup));
    SelectPartition(s);
  }

  /** The result never exceeds `MaxItems` and loses items only to that bound. */
  lemma SortAndTrimLength(s: seq<FeedItem>)
    ensures |SortAndTrim(s)| == Min(|s|, MaxItems)
    ensures |SortAndTrim(s)| <= MaxItems
  {
  }

  /** Nothing is invented or duplicated. */
  lemma SortAndTrimSubMultiset(s: seq<FeedItem>)
    ensures multiset(SortAndTrim(s)) <= multiset(s)
  {
    var m := Merge(s);
    MergePermutation(s);
    var k := |SortAndTrim(s)|;
    assert m == m[..k] + m[k..];
  }

  /** At most `MaxItems` items in: the result is a permutation of the input. */
  lemma SortAndTrimPermutation(s: seq<FeedItem>)
    requires |s| <= MaxItems
    ensures multiset(SortAndTrim(s)) == multiset(s)
  {
    MergePermutation(s);
    SortAndTrimLength(s);
  }

  /** In the result every stock and news item comes before every system or notification item. */
  lemma OthersComeLast(s: seq<FeedItem>)
    ensures var r := SortAndTrim(s);
      forall i, j :: 0 <= i < |r| && 0 <= j < |r| && !InGroup(r[i], OtherGroup) && InGroup(r[j], OtherGroup)
        ==> i < j
  {
    var st, nw := Select(s, StockGroup), Select(s, NewsGroup);
    var inter := Interleave(st, nw);
    InterleaveMultiset(st, nw);
    assert NoneIn(inter, OtherGroup) by {
      forall i | 0 <= i < |inter| ensures !InGroup(inter[i], OtherGroup) {
        assert inter[i] in multiset(inter);
      }
    }
  }

  /** A prefix that ends inside the interleaved block is itself a merged list. */
  lemma MergeOfInterleavedPrefix(st: seq<FeedItem>, nw: seq<FeedItem>, k: nat)
    requires AllIn(st, StockGroup) && AllIn(nw, NewsGroup)
    requires k <= |st| + |nw|
    ensures Merge(Interleave(st, nw)[..k]) == Interleave(st, nw)[..k]
  {
    var a, b := InterleavePrefix(st, nw, k);
    var st', nw' := st[..a], nw[..b];
    SelectInterleaveLeft(st', nw', StockGroup);
    SelectAll(st', StockGroup);
    SelectInterleaveRight(st', nw', NewsGroup);
    SelectAll(nw', NewsGroup);
    SelectInterleaveLeft(st', nw', OtherGroup);
    SelectNone(st', OtherGroup);
  }

  /** The whole interleaved block followed by a prefix of the others is itself a merged list. */
  lemma MergeOfPrefixInOthers(st: seq<FeedItem>, nw: seq<FeedItem>, ot: seq<FeedItem>)
    requires AllIn(st, StockGroup) && AllIn(nw, NewsGroup) && AllIn(ot, OtherGroup)
    ensures Merge(Interleave(st, nw) + ot) == Interleave(st, nw) + ot
  {
    var inter := Interleave(st, nw);
    assert Select(inter + ot, StockGroup) == st by {
      SelectAppend(inter, ot, StockGroup);
      SelectInterleaveLeft(st, nw, StockGroup);
      SelectAll(st, StockGroup);
      SelectNone(ot, StockGroup);
    }
    assert Select(inter + ot, NewsGroup) == nw by {
      SelectAppend(inter, ot, NewsGroup);
      SelectInterleaveRight(st, nw, NewsGroup);
      SelectAll(nw, NewsGroup);
      SelectNone(ot, NewsGroup);
    }
    assert Select(inter + ot, OtherGroup) == ot by {
      SelectAppend(inter, ot, OtherGroup);
      SelectInterleaveLeft(st, nw, OtherGroup);
      SelectNone(st, OtherGroup);
      SelectAll(ot, OtherGroup);
    }
  }

  /** Re-merging a prefix of a merged list gives that prefix back. */
  lemma MergeOfMergedPrefix(s: seq<FeedItem>, k: nat)
    requires k <= |Merge(s)|
    ensures Merge(Merge(s)[..k]) == Merge(s)[..k]
  {
    var st, nw, ot := Select(s, StockGroup), Select(s, NewsGroup), Select(s, OtherGroup);
    var inter := Interleave(st, nw);
    if k <= |inter| {
      assert Merge(s)[..k] == inter[..k];
      MergeOfInterleavedPrefix(st, nw, k);
    } else {
      var ot' := ot[..k - |inter|];
      assert Merge(s)[..k] == inter + ot';
      MergeOfPrefixInOthers(st, nw, ot');
    }
  }

  /** `sortAndTrimItems` is idempotent. */
  lemma SortAndTrimIdempotent(s: seq<FeedItem>)
    ensures SortAndTrim(SortAndTrim(s)) == SortAndTrim(s)
  {
    var m := Merge(s);
    var t := SortAndTrim(s);
    assert t == m[..|t|];
    MergeOfMergedPrefix(s, |t|);
  }

  /** The scenario of three stocks and one headline: the headline sits between the first two stocks. */
  lemma MergeThreeStocksOneNews(a: FeedItem, b: FeedItem, c: FeedItem, x: FeedItem)
    requires a.kind == Stock && b.kind == Stock && c.kind == Stock && x.kind == News
    ensures SortAndTrim([a, b, c, x]) == [a, x, b, c]
  {
    assert [a, b, c, x] == [a, b, c] + [x];
    assert Select([a, b, c, x], StockGroup) == [a, b, c] by {
      SelectAppend([a, b, c], [x], StockGroup);
      SelectAll([a, b, c], StockGroup);
    }
    assert Select([a, b, c, x], NewsGroup) == [x] by {
      SelectAppend([a, b, c], [x], NewsGroup);
      SelectNone([a, b, c], NewsGroup);
    }
    assert Select([a, b, c, x], OtherGroup) == [] by {
      SelectNone([a, b, c, x], OtherGroup);
    }
    assert [a, b, c][1..] == [b, c] && [x][1..] == [];
    assert Interleave([a, b, c], [x]) == [a, x] + Interleave([b, c], []);
  }

  // ---------------------------------------------------------------------------
  // Lemmas: identity of items

  lemma IdsUniqueSubMultiset(s: seq<FeedItem>, t: seq<FeedItem>)
    requires IdsUnique(s)
    requires multiset(t) <= multiset(s)
    ensures IdsUnique(t)
    ensures forall x | x in t :: x in s
  {
    forall x | x in t ensures x in s {
      assert x in multiset(t);
    }
  }

  /** With unique ids, items at two different positions have different ids. */
  lemma IdsUniqueAt(s: seq<FeedItem>, i: nat, j: nat)
    requires IdsUnique(s) && i < j < |s|
    ensures s[i].id != s[j].id
  {
    var x := s[i];
    assert s == s[..j] + [s[j]] + s[j + 1..];
    assert x in s[..j];
    assert multiset(s)[x] == multiset(s[..j])[x] + multiset{s[j]}[x] + multiset(s[j + 1..])[x];
    assert s[j] != x;
  }

  /** Appending an item whose id no listed item has keeps the ids unique. */
  lemma AppendFreshId(init: seq<FeedItem>, last: FeedItem)
    requires IdsUnique(init)
    requires forall x | x in init :: x.id != last.id
    ensures IdsUnique(init + [last])
  {
    var s := init + [last];
    assert multiset(s) == multiset(init) + multiset{last};
    forall x | x in multiset(s) ensures multiset(s)[x] == 1 {
      if x != last {
        assert x in init;
      }
    }
    forall x | x in s ensures x == last || x in init {
      var i :| 0 <= i < |s| && s[i] == x;
      if i < |init| {
        assert init[i] == x;
      }
    }
  }

  /** Items numbered consecutively from `firstId` have unique ids, all in `firstId .. firstId + |s| - 1`. */
  lemma {:induction false} ConsecutiveIdsUnique(s: seq<FeedItem>, firstId: nat)
    requires forall i :: 0 <= i < |s| ==> s[i].id == firstId + i
    ensures IdsUnique(s)
    ensures forall x | x in s :: firstId <= x.id < firstId + |s|
  {
    if s != [] {
      var init, last := s[..|s| - 1], s[|s| - 1];
      assert s == init + [last];
      ConsecutiveIdsUnique(init, firstId);
      assert last.id == firstId + |init|;
      AppendFreshId(init, last);
      forall x | x in s ensures firstId <= x.id < firstId + |s| {
        if x != last {
          assert x in init;
        }
      }
    }
  }

  /** Appending items with consecutive ids from the counter keeps the ids unique and issued. */
  lemma FreshItemsKeepValid(s: seq<FeedItem>, added: seq<FeedItem>, firstId: nat)
    requires IdsBelow(s, firstId) && IdsUnique(s)
    requires forall i :: 0 <= i < |added| ==> added[i].id == firstId + i
    ensures IdsBelow(s + added, firstId + |added|) && IdsUnique(s + added)
  {
    ConsecutiveIdsUnique(added, firstId);
    forall x | x in multiset(s + added) ensures multiset(s + added)[x] == 1 {
      if x in s {
        assert x !in added;
      } else {
        assert x in added;
      }
    }
  }
}
