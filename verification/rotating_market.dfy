/**
 * The paged market strip: market indices followed by stock quotes, shown
 * four at a time, advancing one page per timer tick and wrapping around,
 * and standing still while a quote's detail view is open.
 */
module RotatingMarket {
  import opened Common
  import opened TickerFeed

  const ItemsPerPage: nat := 4

  /** `totalPages`: the number of pages needed for `count` items, and never fewer than one. */
  function TotalPages(count: nat): (p: nat)
    ensures p >= 1
    ensures count == 0 ==> p == 1
    ensures count > 0 ==> (p - 1) * ItemsPerPage < count <= p * ItemsPerPage
  {
    Max(1, (count + ItemsPerPage - 1) / ItemsPerPage)
  }

  /**
   * `currentItems`: the slice of `all` from `page * ItemsPerPage`, at most
   * `ItemsPerPage` long; empty when the page starts at or beyond the end,
   * which happens when the list shrinks under a page that was valid.
   */
  function PageItems<T>(all: seq<T>, page: nat): (r: seq<T>)
    ensures |r| <= ItemsPerPage
    ensures page * ItemsPerPage >= |all| <==> r == []
    ensures page * ItemsPerPage < |all| ==> |r| == Min(ItemsPerPage, |all| - page * ItemsPerPage)
    ensures forall k :: 0 <= k < |r| ==> r[k] == all[page * ItemsPerPage + k]
  {
    var startIndex := page * ItemsPerPage;
    var endIndex := Min(startIndex + ItemsPerPage, |all|);
    if startIndex < |all| then all[startIndex..endIndex] else []
  }

  /** The pages `0 .. k - 1`, one after the other. */
  function PagesUpTo<T>(all: seq<T>, k: nat): seq<T> {
    if k == 0 then [] else PagesUpTo(all, k - 1) + PageItems(all, k - 1)
  }

  /** The first `k` pages are exactly the first `k * ItemsPerPage` items (or all of them). */
  lemma {:induction false} PagesUpToPrefix<T>(all: seq<T>, k: nat)
    ensures PagesUpTo(all, k) == all[..Min(k * ItemsPerPage, |all|)]
  {
    if k > 0 {
      PagesUpToPrefix(all, k - 1);
      var start := (k - 1) * ItemsPerPage;
      assert k * ItemsPerPage == start + ItemsPerPage;
      var lo := Min(start, |all|);
      var hi := Min(start + ItemsPerPage, |all|);
      assert PageItems(all, k - 1) == all[lo..hi];
      assert all[..hi] == all[..lo] + all[lo..hi];
    }
  }

  /**
   * Paging neither drops nor repeats a quote: the pages `0 .. TotalPages - 1`
   * laid end to end are the whole list, in order.
   */
  lemma PagesCoverAll<T>(all: seq<T>)
    ensures PagesUpTo(all, TotalPages(|all|)) == all
  {
    PagesUpToPrefix(all, TotalPages(|all|));
  }

  /** Every page below `TotalPages` except for an empty list shows at least one item. */
  lemma PagesBelowTotalAreNonEmpty<T>(all: seq<T>, page: nat)
    requires |all| > 0 && page < TotalPages(|all|)
    ensures PageItems(all, page) != []
  {
  }

  /** The first page starts with the indices: with `i` indices it shows the first `min(i, 4)` of them. */
  lemma FirstPageLeadsWithIndices(indices: seq<StockQuote>, quotes: seq<StockQuote>)
    ensures var first := PageItems(indices + quotes, 0);
      |first| >= Min(|indices|, ItemsPerPage) && first[..Min(|indices|, ItemsPerPage)] == indices[..Min(|indices|, ItemsPerPage)]
  {
    var first := PageItems(indices + quotes, 0);
    var m := Min(|indices|, ItemsPerPage);
    assert forall k :: 0 <= k < m ==> first[k] == indices[k];
  }

  /** The quote store the strip reads: market indices and stock quotes, refreshed elsewhere. */
  class StockDataSource {
    var indices: seq<StockQuote>
    var quotes: seq<StockQuote>

    constructor (indices: seq<StockQuote>, quotes: seq<StockQuote>)
      ensures this.indices == indices && this.quotes == quotes
    {
      this.indices := indices;
      this.quotes := quotes;
    }
  }

  class RotatingMarketPrimary {
    const stockData: StockDataSource
    var currentPage: nat
    var isAnimating: bool
    /** The quote whose detail view is open, if any. */
    var showingStockDetail: Option<StockQuote>
    var stockNews: string

    constructor (stockData: StockDataSource)
      ensures this.stockData == stockData
      ensures currentPage == 0 && !isAnimating && showingStockDetail.None? && stockNews == ""
    {
      this.stockData := stockData;
      currentPage := 0;
      isAnimating := false;
      showingStockDetail := None;
      stockNews := "";
    }

    /** `allItems`: indices first, then stocks. */
    function AllItems(): (r: seq<StockQuote>)
      reads this, stockData
      ensures |r| == |stockData.indices| + |stockData.quotes|
      ensures r[..|stockData.indices|] == stockData.indices && r[|stockData.indices|..] == stockData.quotes
    {
      stockData.indices + stockData.quotes
    }

    function PageCount(): nat
      reads this, stockData
    {
      TotalPages(|AllItems()|)
    }

    function CurrentItems(): seq<StockQuote>
      reads this, stockData
    {
      PageItems(AllItems(), currentPage)
    }

    /** `isShowingIndices`: the first page is up and there is at least one index, which then leads the strip. */
    predicate IsShowingIndices()
      reads this, stockData
      ensures IsShowingIndices() ==> stockData.indices != [] && CurrentItems() != [] && CurrentItems()[0] == stockData.indices[0]
    {
      currentPage == 0 && stockData.indices != []
    }

    /** The timer tick: rotate unless a detail view is open. */
    method OnTimer()
      modifies this
      ensures showingStockDetail.Some? ==> unchanged(this)
      ensures showingStockDetail.None? ==>
        isAnimating && currentPage == old(currentPage) && showingStockDetail == old(showingStockDetail)
        && stockNews == old(stockNews)
    {
      if showingStockDetail.None? {
        RotateDisplay();
      }
    }

    /** First phase of `rotateDisplay`: start the exit animation. */
    method RotateDisplay()
      modifies this
      ensures isAnimating
      ensures currentPage == old(currentPage) && showingStockDetail == old(showingStockDetail)
      ensures stockNews == old(stockNews)
    {
      isAnimating := true;
    }

    /**
     * Second phase (the continuation 0.3 s later): move to the next page,
     * wrapping around after the last one counted at that moment.
     */
    method FinishRotation()
      modifies this
      ensures currentPage == (old(currentPage) + 1) % PageCount()
      ensures currentPage < PageCount()
      ensures !isAnimating
      ensures showingStockDetail == old(showingStockDetail) && stockNews == old(stockNews)
    {
      currentPage := (currentPage + 1) % PageCount();
      isAnimating := false;
    }

    /** A tap on a quote of the current page opens its detail view and shows the loading text of `fetchStockNews`. */
    method ShowDetail(stock: StockQuote)
      modifies this
      ensures showingStockDetail == Some(stock)
      ensures stockNews == "Fetching latest news..."
      ensures currentPage == old(currentPage) && isAnimating == old(isAnimating)
    {
      showingStockDetail := Some(stock);
      stockNews := "Fetching latest news...";
    }

    /** The close button: leave the detail view and forget its news line. */
    method CloseDetail()
      modifies this
      ensures showingStockDetail.None? && stockNews == ""
      ensures currentPage == old(currentPage) && isAnimating == old(isAnimating)
    {
      showingStockDetail := None;
      stockNews := "";
    }
  }

  /**
   * Starting from page 0 with an unchanged list, `k` page advances land on
   * page `k mod TotalPages`: every page comes up in turn and the strip
   * returns to the indices after the last page.
   */
  lemma {:induction false} AdvancesCycle(pages: nat, k: nat)
    requires pages >= 1
    ensures Advance(pages, k) == k % pages
  {
    if k > 0 {
      var j := k - 1;
      AdvancesCycle(pages, j);
      ModOfSum(j, 1, pages);
      assert Advance(pages, j + 1) == (j % pages + 1) % pages;
    }
  }

  /** The page reached from page 0 after `k` advances over `pages` pages. */
  function Advance(pages: nat, k: nat): nat
    requires pages >= 1
  {
    if k == 0 then 0 else (Advance(pages, k - 1) + 1) % pages
  }
}
