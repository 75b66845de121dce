/**
 * The single-item rotating ticker: shows the feed item at the cursor (taken
 * modulo the item count) and moves the cursor on by one per timer tick.
 */
module RotatingTicker {
  import opened Common
  import opened TickerFeed

  class RotatingTickerPrimary {
    const data: TickerFeedData
    /** Grows without bound; it is reduced modulo the item count only when read. */
    var currentIndex: nat
    var isAnimating: bool

    constructor (data: TickerFeedData)
      ensures this.data == data
      ensures currentIndex == 0 && !isAnimating
    {
      this.data := data;
      currentIndex := 0;
      isAnimating := false;
    }

    /** `currentItem`: nothing for an empty feed, otherwise the item at the cursor modulo the count. */
    function CurrentItem(): (r: Option<FeedItem>)
      reads this, data
      ensures r.None? <==> |data.items| == 0
      ensures r.Some? ==> r.value in data.items
      ensures r.Some? ==> r.value == data.items[currentIndex % |data.items|]
    {
      if |data.items| == 0 then None else Some(data.items[currentIndex % |data.items|])
    }

    /** First phase of a rotation (the timer tick): start the exit animation unless the feed is empty. */
    method RotateToNext()
      modifies this
      ensures currentIndex == old(currentIndex)
      ensures isAnimating == (|data.items| > 0 || old(isAnimating))
    {
      if |data.items| == 0 {
        return;
      }
      isAnimating := true;
    }

    /** Second phase (the continuation 0.3 s later): step the cursor by one and end the animation. */
    method FinishRotation()
      modifies this
      ensures currentIndex == old(currentIndex) + 1
      ensures !isAnimating
    {
      currentIndex := currentIndex + 1;
      isAnimating := false;
    }

    /**
     * `k` timer ticks over an unchanged feed, each followed by its
     * continuation, recording the item on screen before each tick. A tick on
     * an empty feed schedules no continuation.
     */
    method RunTicks(k: nat) returns (shown: seq<Option<FeedItem>>)
      modifies this
      ensures |shown| == k
      ensures |data.items| == 0 ==>
        currentIndex == old(currentIndex) && forall j :: 0 <= j < k ==> shown[j].None?
      ensures |data.items| > 0 ==>
        && currentIndex == old(currentIndex) + k && !(k > 0 && isAnimating)
        && forall j :: 0 <= j < k ==> shown[j] == Some(data.items[(old(currentIndex) + j) % |data.items|])
      ensures 0 < k <= |data.items| ==>
        forall j :: 0 <= j < k ==> shown[j] == Some(data.items[ShownPositions(old(currentIndex), |data.items|)[j]])
      ensures 0 < k == |data.items| ==> forall i :: 0 <= i < k ==> Some(data.items[i]) in shown
    {
      shown := [];
      for i := 0 to k
        invariant |shown| == i
        invariant |data.items| == 0 ==>
          currentIndex == old(currentIndex) && forall j :: 0 <= j < i ==> shown[j].None?
        invariant |data.items| > 0 ==>
          && currentIndex == old(currentIndex) + i && !(i > 0 && isAnimating)
          && forall j :: 0 <= j < i ==> shown[j] == Some(data.items[(old(currentIndex) + j) % |data.items|])
      {
        shown := shown + [CurrentItem()];
        RotateToNext();
        if |data.items| > 0 {
          FinishRotation();
        }
      }
      if 0 < k == |data.items| {
        var positions := ShownPositions(old(currentIndex), k);
        EachItemShownOnce(old(currentIndex), k);
        forall i | 0 <= i < k
          ensures Some(data.items[i]) in shown
        {
          assert i in positions;
          var j :| 0 <= j < k && positions[j] == i;
          assert shown[j] == Some(data.items[i]);
        }
      }
    }
  }

  /** The positions shown by `n` successive rotations from `cursor` over a list of `n` items. */
  function ShownPositions(cursor: nat, n: nat): (r: seq<nat>)
    requires n > 0
    ensures |r| == n
    ensures forall j :: 0 <= j < n ==> r[j] == (cursor + j) % n
  {
    seq(n, j requires 0 <= j < n => (cursor + j) % n)
  }

  /**
   * Over an unchanged list of `n` items, `n` consecutive rotations from any
   * cursor show every item exactly once: the shown positions cover all of
   * `0 .. n - 1` and no two of them coincide.
   */
  lemma EachItemShownOnce(cursor: nat, n: nat)
    requires n > 0
    ensures forall t :: 0 <= t < n ==> t in ShownPositions(cursor, n)
    ensures forall j1, j2 :: 0 <= j1 < j2 < n ==> ShownPositions(cursor, n)[j1] != ShownPositions(cursor, n)[j2]
  {
    var r := ShownPositions(cursor, n);
    var c := cursor % n;
    forall t | 0 <= t < n
      ensures t in r
    {
      var j := if c <= t then t - c else t + n - c;
      ModShift(cursor, j, n);
      assert r[j] == t;
    }
    forall j1, j2 | 0 <= j1 < j2 < n
      ensures r[j1] != r[j2]
    {
      ModShift(cursor, j1, n);
      ModShift(cursor, j2, n);
    }
  }

  /** After `n` rotations over `n` items the ticker is back at the item it started from. */
  lemma FullCycleReturns(cursor: nat, n: nat)
    requires n > 0
    ensures (cursor + n) % n == cursor % n
  {
    ModShift(cursor, n, n);
  }
}
