/**
 * The adaptive rotating ticker: shows a window of one or two feed items,
 * advances its cursor by the size of the window on every timer tick, and
 * drops an item the user opens after recording its url as read.
 */
module AdaptiveTicker {
  import opened Common
  import opened TickerFeed
  import ReadHistory

  /**
   * `currentItems`: at most two items, starting with the item at `cursor mod
   * count`; nothing exactly when the feed is empty. That the items are
   * consecutive is stated by `WindowConsecutive`, which heads get a second
   * item by `WindowShape`.
   */
  function Window(items: seq<FeedItem>, cursor: nat): (w: seq<FeedItem>)
    ensures |w| <= 2
    ensures |items| == 0 <==> w == []
  {
    if |items| == 0 then []
    else
      var startIndex := cursor % |items|;
      var currentItem := items[startIndex];
      if currentItem.kind == News then [currentItem]
      else
        var nextIndex := (startIndex + 1) % |items|;
        if nextIndex != startIndex && items[nextIndex].kind != News then [currentItem, items[nextIndex]]
        else [currentItem]
  }

  /** The item `i` places after the first one, counting round the feed. */
  function Cyclic(items: seq<FeedItem>, i: nat): FeedItem
    requires |items| > 0
  {
    items[i % |items|]
  }

  /**
   * A news head is shown alone; a non-news head is followed by the next item
   * exactly when there are several items and the next one is not news.
   */
  lemma WindowShape(items: seq<FeedItem>, cursor: nat)
    requires |items| > 0
    ensures var head := items[cursor % |items|];
      && (head.kind == News ==> Window(items, cursor) == [head])
      && ((head.kind != News && |items| > 1 && items[(cursor + 1) % |items|].kind != News)
            ==> Window(items, cursor) == [head, items[(cursor + 1) % |items|]])
      && ((head.kind != News && (|items| == 1 || items[(cursor + 1) % |items|].kind == News))
            ==> Window(items, cursor) == [head])
  {
    NextIndex(cursor, |items|);
  }

  /** The window shows consecutive items, cyclically, from the one at the cursor. */
  lemma WindowConsecutive(items: seq<FeedItem>, cursor: nat)
    requires |items| > 0
    ensures forall k :: 0 <= k < |Window(items, cursor)| ==> Window(items, cursor)[k] == Cyclic(items, cursor + k)
  {
    NextIndex(cursor, |items|);
  }

  /** The index after the head, taken modulo the count, is the cursor's successor and differs from the head when there are several items. */
  lemma NextIndex(cursor: nat, n: int)
    requires n > 0
    ensures (cursor % n + 1) % n == (cursor + 1) % n
    ensures n > 1 ==> (cursor + 1) % n != cursor % n
  {
    ModOfSum(cursor, 1, n);
    ModShift(cursor, 1, n);
  }

  /** `firstIndex(where: { $0.id == id })`. */
  function FirstIndexWithId(s: seq<FeedItem>, id: nat): (r: Option<nat>)
    ensures r.Some? ==> r.value < |s| && s[r.value].id == id
    ensures r.Some? ==> forall j :: 0 <= j < r.value ==> s[j].id != id
    ensures r.None? ==> forall j :: 0 <= j < |s| ==> s[j].id != id
  {
    if s == [] then None
    else if s[0].id == id then Some(0)
    else match FirstIndexWithId(s[1..], id)
      case None => None
      case Some(k) => Some(k + 1)
  }

  /** The list after `remove(at:)` of the first item with the given id, if there is one. */
  function RemoveFirstWithId(s: seq<FeedItem>, id: nat): seq<FeedItem> {
    match FirstIndexWithId(s, id)
    case None => s
    case Some(k) => s[..k] + s[k + 1..]
  }

  class AdaptiveTickerPrimary {
    const data: TickerFeedData
    /** The shared read-history store. */
    const history: ReadHistory.ReadHistoryManager
    /** Grows without bound; it is reduced modulo the item count only when read. */
    var currentIndex: nat
    var isAnimating: bool

    constructor (data: TickerFeedData, history: ReadHistory.ReadHistoryManager)
      ensures this.data == data && this.history == history
      ensures currentIndex == 0 && !isAnimating
    {
      this.data := data;
      this.history := history;
      currentIndex := 0;
      isAnimating := false;
    }

    function CurrentItems(): seq<FeedItem>
      reads this, data
    {
      Window(data.items, currentIndex)
    }

    /** First phase of a rotation (the timer tick): start the exit animation unless the feed is empty. */
    method RotateToNext()
      modifies this
      ensures currentIndex == old(currentIndex)
      ensures isAnimating == (|data.items| > 0 || old(isAnimating))
    {
      if |data.items| == 0 {
        return;
      }
      isAnimating := true;
    }

    /**
     * Second phase (the continuation 0.3 s later): skip as many items as the
     * window shows at that moment, and end the animation.
     */
    method FinishRotation()
      modifies this
      ensures currentIndex == old(currentIndex) + |Window(data.items, old(currentIndex))|
      ensures |data.items| > 0 ==> currentIndex > old(currentIndex)
      ensures !isAnimating
    {
      var itemsShown := |CurrentItems()|;
      currentIndex := currentIndex + itemsShown;
      isAnimating := false;
    }

    /**
     * A click on an item with a well-formed url (`urlParses` is the outcome of
     * `URL(string:)`): record the url as read, remove the item from the feed
     * and start the next rotation. Any other click does nothing.
     */
    method HandleItemClick(item: FeedItem, urlParses: bool)
      requires data.Valid()
      modifies this, data, history
      ensures data.Valid() && data.nextId == old(data.nextId)
      ensures item.url.None? || !urlParses ==>
        && data.items == old(data.items) && history.readLinks == old(history.readLinks)
        && currentIndex == old(currentIndex) && isAnimating == old(isAnimating)
      ensures item.url.Some? && urlParses ==>
        && history.readLinks == ReadHistory.Capped(old(history.readLinks) + [item.url.value])
        && data.items == RemoveFirstWithId(old(data.items), item.id)
        && currentIndex == old(currentIndex)
        && isAnimating == (|data.items| > 0 || old(isAnimating))
    {
      if item.url.None? || !urlParses {
        return;
      }
      var urlString := item.url.value;
      history.MarkAsRead(urlString);
      var found := FirstIndexWithId(data.items, item.id);
      if found.Some? {
        var index := found.value;
        RemoveAtKeepsIds(data.items, data.nextId, index);
        data.items := data.items[..index] + data.items[index + 1..];
      }
      RotateToNext();
    }
  }

  lemma RemoveAtSubMultiset(s: seq<FeedItem>, k: nat)
    requires k < |s|
    ensures multiset(s[..k] + s[k + 1..]) == multiset(s) - multiset{s[k]}
  {
    assert s == s[..k] + [s[k]] + s[k + 1..];
  }

  /** Removing one item keeps the ids unique and below the counter. */
  lemma RemoveAtKeepsIds(s: seq<FeedItem>, bound: nat, k: nat)
    requires k < |s| && IdsBelow(s, bound) && IdsUnique(s)
    ensures IdsBelow(s[..k] + s[k + 1..], bound) && IdsUnique(s[..k] + s[k + 1..])
  {
    RemoveAtSubMultiset(s, k);
    IdsUniqueSubMultiset(s, s[..k] + s[k + 1..]);
  }

  /**
   * A click removes exactly one item, the first with the clicked id, keeps
   * the others in order, and (ids being unique) leaves no item with that id.
   */
  lemma RemoveFirstWithIdEffect(s: seq<FeedItem>, id: nat)
    requires IdsUnique(s)
    ensures var r := RemoveFirstWithId(s, id);
      && (forall x | x in r :: x.id != id)
      && (forall x | x in s && x.id != id :: x in r)
      && ((forall x | x in s :: x.id != id) ==> r == s)
    ensures (exists x :: x in s && x.id == id) ==>
      var k := FirstIndexWithId(s, id).value;
      var r := RemoveFirstWithId(s, id);
      |r| == |s| - 1 && r[..k] == s[..k] && r[k..] == s[k + 1..]
  {
    var r := RemoveFirstWithId(s, id);
    match FirstIndexWithId(s, id)
    case None =>
    case Some(k) =>
      assert r == s[..k] + s[k + 1..];
      RemoveAtSkipsId(s, id, k);
      RemoveAtKeepsOthers(s, k);
      assert r[..k] == s[..k];
      assert r[k..] == s[k + 1..];
  }

  /** Removing the first item with an id leaves none with that id, when ids are unique. */
  lemma RemoveAtSkipsId(s: seq<FeedItem>, id: nat, k: nat)
    requires IdsUnique(s) && k < |s| && s[k].id == id
    requires forall j :: 0 <= j < k ==> s[j].id != id
    ensures forall x | x in s[..k] + s[k + 1..] :: x.id != id
  {
    var r := s[..k] + s[k + 1..];
    forall x | x in r ensures x.id != id {
      var i :| 0 <= i < |r| && r[i] == x;
      if i >= k {
        assert r[i] == s[i + 1];
        IdsUniqueAt(s, k, i + 1);
      }
    }
  }

  /** Removing the item at `k` keeps every item that differs from it. */
  lemma RemoveAtKeepsOthers(s: seq<FeedItem>, k: nat)
    requires k < |s|
    ensures forall x | x in s && x != s[k] :: x in s[..k] + s[k + 1..]
  {
    var r := s[..k] + s[k + 1..];
    forall x | x in s && x != s[k] ensures x in r {
      var i :| 0 <= i < |s| && s[i] == x;
      if i < k {
        assert r[i] == x;
      } else {
        assert r[i - 1] == x;
      }
    }
  }

  // ---------------------------------------------------------------------------
  // Successive windows

  /** The cursor after `steps` rotations over an unchanged list: each one moves it on by the size of the window shown. */
  ghost function CursorAfter(items: seq<FeedItem>, cursor: nat, steps: nat): nat
    decreases steps
  {
    if steps == 0 then cursor
    else
      var c := CursorAfter(items, cursor, steps - 1);
      c + |Window(items, c)|
  }

  /**
   * Over a non-empty list every rotation moves the cursor on by at least
   * one, and the cursor never goes back: the `t`-th window starts no later
   * than the `steps`-th.
   */
  lemma {:induction false} CursorAdvances(items: seq<FeedItem>, cursor: nat, steps: nat)
    requires |items| > 0
    decreases steps
    ensures CursorAfter(items, cursor, steps) >= cursor + steps
    ensures forall t :: 0 <= t <= steps ==> CursorAfter(items, cursor, t) <= CursorAfter(items, cursor, steps)
  {
    if steps > 0 {
      CursorAdvances(items, cursor, steps - 1);
      var c := CursorAfter(items, cursor, steps - 1);
      assert CursorAfter(items, cursor, steps) == c + |Window(items, c)|;
      assert Window(items, c) != [];
    }
  }

  /**
   * Advancing by the window size neither skips nor repeats an item: every
   * position `p` between the first cursor and the cursor after `steps`
   * rotations falls in a window (in exactly one, by `WindowsDisjoint`).
   */
  lemma {:induction false} RotationShowsConsecutive(items: seq<FeedItem>, cursor: nat, steps: nat, p: nat)
    requires |items| > 0 && cursor <= p < CursorAfter(items, cursor, steps)
    decreases steps
    ensures exists t :: 0 <= t < steps && CursorAfter(items, cursor, t) <= p < CursorAfter(items, cursor, t + 1)
  {
    var c := CursorAfter(items, cursor, steps - 1);
    if p < c {
      RotationShowsConsecutive(items, cursor, steps - 1, p);
    } else {
      assert CursorAfter(items, cursor, (steps - 1) + 1) == CursorAfter(items, cursor, steps);
    }
  }

  /** The window in which position `p` falls shows the `p`-th item, cyclically, at offset `p - start`. */
  lemma PositionShown(items: seq<FeedItem>, cursor: nat, t: nat, p: nat)
    requires |items| > 0
    requires CursorAfter(items, cursor, t) <= p < CursorAfter(items, cursor, t + 1)
    ensures var start := CursorAfter(items, cursor, t);
      Window(items, start)[p - start] == Cyclic(items, p)
  {
    var start := CursorAfter(items, cursor, t);
    WindowConsecutive(items, start);
    assert start + (p - start) == p;
  }

  /** Windows do not overlap: a later window starts at or after the end of an earlier one. */
  lemma WindowsDisjoint(items: seq<FeedItem>, cursor: nat, t1: nat, t2: nat)
    requires |items| > 0 && t1 < t2
    ensures CursorAfter(items, cursor, t1 + 1) <= CursorAfter(items, cursor, t2)
  {
    CursorAdvances(items, cursor, t2);
  }
}
