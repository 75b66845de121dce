# NotchTape core, modelled in Dafny

NotchTape is a macOS menu-bar app. It shows market data and headlines in the notch area. This project models the parts of it that hold state and make decisions:

- **The ticker feed** (`TickerFeed`). One list of tagged items: stock, news, system and notification.
  - Every data-source snapshot replaces all items of its kind.
  - The list is then re-merged: stocks and news alternate position by position, the other kinds follow, and at most 50 items are kept.
  - Headlines whose url is in the read history, or that have no url, are skipped.
- **The read history** (`ReadHistory`). An append-only list of opened links, capped at the newest 1000.
- **The adaptive ticker** (`AdaptiveTicker`).
  - It shows one news item, or up to two non-news items.
  - Each tick advances the cursor by the number of items shown.
  - Clicking an item records its url as read and drops the item from the feed.
- **The single-item ticker** (`RotatingTicker`). It shows the item at `cursor mod count` and advances by one per tick.
- **The market strip** (`RotatingMarket`).
  - Market indices, then stock quotes, are shown four per page.
  - The page wraps modulo the page count, which is at least one.
  - The strip stands still while a quote's detail view is open.
- **The settings pane** (`SettingsPane`).
  - Adds, removes and resets the watched index and ticker symbols.
  - Input is uppercased and trimmed. Index symbols get a `^` prefix. Duplicates are refused.
- **The stock-news RSS reader** (`StockNews`).
  - The parser delegate's state machine collects one item per `<item>` element.
  - `fetchNews` picks the first title.

`Common` holds the Swift optional type and a few facts about `%`. `Text` models the Foundation string operations the core uses: ASCII `uppercased()`, and `trimmingCharacters(in:)` for `.whitespaces` (Unicode space separators and tab) and `.whitespacesAndNewlines` (all Unicode separators, including U+2028 and U+2029, plus U+000A to U+000D and U+0085).

Modelling choices:

- Timers and `DispatchQueue.main.asyncAfter` continuations become explicit method calls. Each animated rotation has a tick method and a `FinishRotation` method for the continuation that runs 0.3 s later.
- `UUID()` becomes a counter `nextId` on the feed. `Date()` becomes a `now` parameter.
- The persistent key-value store becomes in-memory fields.
- The shared singletons (`ReadHistoryManager.shared`, `StockDataSource.shared`) become objects passed in explicitly.
- Whether `URL(string:)` accepts a string is a boolean parameter.
- The XML tokeniser is replaced by the sequence of delegate callbacks it makes.
- `currentIndex` and `currentPage` are `nat`. In Swift they are 64-bit `Int`, and the cursor only ever grows, so it cannot overflow in practice.

## Model

| member | source | states |
|---|---|---|
| Text.Uppercased | src/NotchTape/Sources/WindowViews/Settings.swift:122 | `uppercased()` keeps the length and maps each character through ASCII upper-casing |
| Text.LeadingCount | src/NotchTape/Sources/DataSources/StockNewsDataSource.swift:125 | counts the set characters at the front: all of them belong to the set and the next one does not |
| Text.TrailingCount | src/NotchTape/Sources/DataSources/StockNewsDataSource.swift:125 | counts the set characters at the back: all of them belong to the set and the one before does not |
| Text.Trimmed | src/NotchTape/Sources/DataSources/StockNewsDataSource.swift:125 | `trimmingCharacters(in:)` yields the infix after the leading set characters; everything cut off belongs to the set, and the result neither starts nor ends with a set character |
| Text.TrimmedEmptyIff | src/NotchTape/Sources/DataSources/StockNewsDataSource.swift:125-126 | a trimmed chunk is empty exactly when every character of it is in the set |
| Text.TrimmedUnchanged | src/NotchTape/Sources/DataSources/StockNewsDataSource.swift:141-142 | trimming a string that already has no set character at either end returns it unchanged |
| Text.UpperCharKeepsSet | src/NotchTape/Sources/WindowViews/Settings.swift:122 | upper-casing neither moves a character into nor out of a whitespace set |
| Text.InSet | src/NotchTape/Sources/DataSources/StockNewsDataSource.swift:125 | `.whitespaces` is the space separators and tab; `.whitespacesAndNewlines` adds the line and paragraph separators, U+000A to U+000D and U+0085; `TrimmedEmptyIff` and `UpperCharKeepsSet` are stated over it |
| Text.HasPrefix | src/NotchTape/Sources/WindowViews/Settings.swift:136 | `hasPrefix(p)`: `p` is the start of the string; `IndexSymbol` is proved to start with `"^"` under it |
| ReadHistory.Capped | src/NotchTape/Sources/DataSources/ReadHistoryManager.swift:16-18 | the stored list is the newest `min(n, 1000)` entries, a suffix of the appended list |
| ReadHistory.ReadHistoryManager.constructor | src/NotchTape/Sources/DataSources/ReadHistoryManager.swift:9 | the manager starts from the list persisted by an earlier run, given as a parameter |
| ReadHistory.ReadHistoryManager.GetReadLinks | src/NotchTape/Sources/DataSources/ReadHistoryManager.swift:27-29 | the stored list, oldest first; after `ClearHistory` it is the empty list |
| ReadHistory.ReadHistoryManager.IsRead | src/NotchTape/Sources/DataSources/ReadHistoryManager.swift:23-25 | a url is read exactly when some stored entry equals it; `MarkAsRead` and `ClearHistory` state its value afterwards |
| ReadHistory.ReadHistoryManager.MarkAsRead | src/NotchTape/Sources/DataSources/ReadHistoryManager.swift:11-21 | the new list is the capped old list plus `url`; `url` is read afterwards; the cap is kept |
| ReadHistory.ReadHistoryManager.ClearHistory | src/NotchTape/Sources/DataSources/ReadHistoryManager.swift:31-33 | afterwards the list is empty and no url is read |
| ReadHistory.MarkBelowCap | src/NotchTape/Sources/DataSources/ReadHistoryManager.swift:12-13 | below the cap an append keeps every old entry, duplicates included |
| ReadHistory.MarkAtCap | src/NotchTape/Sources/DataSources/ReadHistoryManager.swift:16-18 | at the cap exactly the oldest entry is evicted |
| ReadHistory.MarkNewestLast | src/NotchTape/Sources/DataSources/ReadHistoryManager.swift:11-21 | the appended url is the newest entry and the list never exceeds 1000 |
| ReadHistory.MarkKeepsRecent | src/NotchTape/Sources/DataSources/ReadHistoryManager.swift:7 | every entry among the newest 999 survives an append |
| TickerFeed.Select | src/NotchTape/Sources/Widgets/TickerFeed/TickerFeedData.swift:110-112 | each filter keeps only items of its partition and never grows the list |
| TickerFeed.RemoveKind | src/NotchTape/Sources/Widgets/TickerFeed/TickerFeedData.swift:67 | `removeAll` leaves no item of the removed kind |
| TickerFeed.Interleave | src/NotchTape/Sources/Widgets/TickerFeed/TickerFeedData.swift:115-125 | the interleaving is as long as both lists together; that it holds exactly their elements is `InterleaveMultiset`, their positions `InterleaveAlternates` and `InterleaveTail` |
| TickerFeed.Take | src/NotchTape/Sources/Widgets/TickerFeed/TickerFeedData.swift:131 | `prefix(k)` is the first `min(n, k)` elements |
| TickerFeed.Merge | src/NotchTape/Sources/Widgets/TickerFeed/TickerFeedData.swift:108-128 | the merged list before truncation is exactly as long as the input, so only the final trim drops items; its layout is `MergeLayout`, `MergeLayoutTail` and `MergeLayoutOthers`, its order `MergeKeepsOrder`, its contents `MergePermutation` |
| TickerFeed.SortAndTrim | src/NotchTape/Sources/Widgets/TickerFeed/TickerFeedData.swift:108-132 | the items after `sortAndTrimItems` are the first `min(n, 50)` of the merged list |
| TickerFeed.StockFeedItems | src/NotchTape/Sources/Widgets/TickerFeed/TickerFeedData.swift:70-77 | one stock item per quote, with consecutive fresh ids |
| TickerFeed.UnreadWithUrl | src/NotchTape/Sources/Widgets/TickerFeed/TickerFeedData.swift:89-94 | keeps every headline with a url that is not in the read list, and only such headlines |
| TickerFeed.UnreadWithUrlAppend | src/NotchTape/Sources/Widgets/TickerFeed/TickerFeedData.swift:88-102 | the filter keeps the headlines in their order: it distributes over concatenation |
| TickerFeed.NewsFeedItems | src/NotchTape/Sources/Widgets/TickerFeed/TickerFeedData.swift:88-102 | the `compactMap` yields one news item per headline kept by `UnreadWithUrl`, at the same position, carrying its title, date and url with consecutive fresh ids |
| TickerFeed.TickerFeedData.constructor | src/NotchTape/Sources/Widgets/TickerFeed/TickerFeedData.swift:46-53 | the feed starts empty, with unique ids |
| TickerFeed.TickerFeedData.SortAndTrimItems | src/NotchTape/Sources/Widgets/TickerFeed/TickerFeedData.swift:108-132 | the loop builds the interleaving of stocks and news; the items become the first 50 of that followed by the others |
| TickerFeed.TickerFeedData.UpdateStockItems | src/NotchTape/Sources/Widgets/TickerFeed/TickerFeedData.swift:65-81 | old stock items are replaced by one fresh item per quote, then re-merged; ids stay unique |
| TickerFeed.TickerFeedData.UpdateNewsItems | src/NotchTape/Sources/Widgets/TickerFeed/TickerFeedData.swift:83-106 | old news items are replaced by the unread headlines with a url, then re-merged; afterwards no news item is read or lacks a url |
| TickerFeed.TickerFeedData.AddCustomItem | src/NotchTape/Sources/Widgets/TickerFeed/TickerFeedData.swift:134-137 | one item without url is appended, then the list is re-merged |
| TickerFeed.SelectAppend | src/NotchTape/Sources/Widgets/TickerFeed/TickerFeedData.swift:110-112 | filtering distributes over concatenation |
| TickerFeed.SelectAll | src/NotchTape/Sources/Widgets/TickerFeed/TickerFeedData.swift:110-112 | filtering a list wholly inside a partition keeps it all |
| TickerFeed.SelectNone | src/NotchTape/Sources/Widgets/TickerFeed/TickerFeedData.swift:110-112 | filtering a list wholly outside a partition keeps nothing |
| TickerFeed.SelectPartition | src/NotchTape/Sources/Widgets/TickerFeed/TickerFeedData.swift:110-112 | the three filters together hold exactly the items of the list |
| TickerFeed.SelectHead | src/NotchTape/Sources/Widgets/TickerFeed/TickerFeedData.swift:110-112 | the head of a list falls in the filter of its own group and in no other |
| TickerFeed.RemoveKindSubMultiset | src/NotchTape/Sources/Widgets/TickerFeed/TickerFeedData.swift:67 | `removeAll` only removes items |
| TickerFeed.RemoveKindSelect | src/NotchTape/Sources/Widgets/TickerFeed/TickerFeedData.swift:67 | removing stocks or news leaves every other partition as it was |
| TickerFeed.UpdateTouchesOnlyOwnKind | src/NotchTape/Sources/Widgets/TickerFeed/TickerFeedData.swift:67-79 | an update makes its own partition exactly the fresh items and leaves the other partitions unchanged |
| TickerFeed.InterleaveSnocLeft | src/NotchTape/Sources/Widgets/TickerFeed/TickerFeedData.swift:119-121 | appending a stock in loop round `i` extends the interleaving |
| TickerFeed.InterleaveSnocRight | src/NotchTape/Sources/Widgets/TickerFeed/TickerFeedData.swift:122-124 | appending a headline in loop round `i` extends the interleaving |
| TickerFeed.InterleaveStep | src/NotchTape/Sources/Widgets/TickerFeed/TickerFeedData.swift:118-125 | one round `i` of the loop turns the interleaving of the prefixes consumed so far into that of the prefixes one longer |
| TickerFeed.InterleaveAlternates | src/NotchTape/Sources/Widgets/TickerFeed/TickerFeedData.swift:118-125 | while both lists last, `s[i]` sits at `2i` and `n[i]` at `2i+1` |
| TickerFeed.InterleaveTail | src/NotchTape/Sources/Widgets/TickerFeed/TickerFeedData.swift:118-125 | after the shorter list runs out, the rest of the longer one follows in order |
| TickerFeed.InterleaveMultiset | src/NotchTape/Sources/Widgets/TickerFeed/TickerFeedData.swift:118-125 | the interleaving is a permutation of the two lists together |
| TickerFeed.SelectInterleaveLeft | src/NotchTape/Sources/Widgets/TickerFeed/TickerFeedData.swift:118-125 | the stock share of the interleaving is the stocks |
| TickerFeed.SelectInterleaveRight | src/NotchTape/Sources/Widgets/TickerFeed/TickerFeedData.swift:118-125 | the news share of the interleaving is the news |
| TickerFeed.InterleavePrefix | src/NotchTape/Sources/Widgets/TickerFeed/TickerFeedData.swift:118-125 | every prefix of an interleaving interleaves two prefixes |
| TickerFeed.MergeLayout | src/NotchTape/Sources/Widgets/TickerFeed/TickerFeedData.swift:110-128 | the merged list is as long as the three partitions together and alternates stock, news while both last |
| TickerFeed.MergeLayoutTail | src/NotchTape/Sources/Widgets/TickerFeed/TickerFeedData.swift:115-125 | once the shorter of stock and news runs out, the rest of the longer one follows in its own order |
| TickerFeed.MergeLayoutOthers | src/NotchTape/Sources/Widgets/TickerFeed/TickerFeedData.swift:112-128 | the others come after the whole stock and news block, in their own order |
| TickerFeed.MergeKeepsOrder | src/NotchTape/Sources/Widgets/TickerFeed/TickerFeedData.swift:108-128 | the relative order inside each partition is kept |
| TickerFeed.MergePermutation | src/NotchTape/Sources/Widgets/TickerFeed/TickerFeedData.swift:108-128 | before truncation the merge is a permutation of the items |
| TickerFeed.SortAndTrimLength | src/NotchTape/Sources/Widgets/TickerFeed/TickerFeedData.swift:131 | the result has `min(n, 50)` items |
| TickerFeed.SortAndTrimSubMultiset | src/NotchTape/Sources/Widgets/TickerFeed/TickerFeedData.swift:108-132 | nothing is invented or duplicated |
| TickerFeed.SortAndTrimPermutation | src/NotchTape/Sources/Widgets/TickerFeed/TickerFeedData.swift:108-132 | with at most 50 items the result is a permutation of the input |
| TickerFeed.OthersComeLast | src/NotchTape/Sources/Widgets/TickerFeed/TickerFeedData.swift:128 | every stock and news item precedes every system or notification item |
| TickerFeed.MergeOfInterleavedPrefix | src/NotchTape/Sources/Widgets/TickerFeed/TickerFeedData.swift:108-131 | a prefix ending inside the interleaved block is already merged |
| TickerFeed.MergeOfPrefixInOthers | src/NotchTape/Sources/Widgets/TickerFeed/TickerFeedData.swift:108-131 | the interleaved block followed by some of the others is already merged |
| TickerFeed.MergeOfMergedPrefix | src/NotchTape/Sources/Widgets/TickerFeed/TickerFeedData.swift:108-131 | re-merging any prefix of a merged list gives it back |
| TickerFeed.SortAndTrimIdempotent | src/NotchTape/Sources/Widgets/TickerFeed/TickerFeedData.swift:108-132 | `sortAndTrimItems` twice is `sortAndTrimItems` once |
| TickerFeed.MergeThreeStocksOneNews | src/NotchTape/Sources/Widgets/TickerFeed/TickerFeedData.swift:115-125 | worked example, one input: three stocks and one headline come out as stock, headline, stock, stock |
| TickerFeed.IdsUniqueSubMultiset | src/NotchTape/Sources/Widgets/TickerFeed/TickerFeedData.swift:8 | removing or reordering items keeps their ids unique |
| TickerFeed.IdsUniqueAt | src/NotchTape/Sources/Widgets/TickerFeed/TickerFeedData.swift:8 | with unique ids, items at two different positions have different ids |
| TickerFeed.AppendFreshId | src/NotchTape/Sources/Widgets/TickerFeed/TickerFeedData.swift:79 | appending an item whose id is not yet listed keeps the ids unique |
| TickerFeed.ConsecutiveIdsUnique | src/NotchTape/Sources/Widgets/TickerFeed/TickerFeedData.swift:8 | items numbered consecutively have unique ids in that range |
| TickerFeed.FreshItemsKeepValid | src/NotchTape/Sources/Widgets/TickerFeed/TickerFeedData.swift:79 | appending items with fresh ids keeps ids unique and below the counter |
| AdaptiveTicker.Window | src/NotchTape/Sources/Widgets/TickerFeed/AdaptiveTickerPrimary.swift:13-37 | at most two items are shown, and nothing exactly when the feed is empty |
| AdaptiveTicker.WindowShape | src/NotchTape/Sources/Widgets/TickerFeed/AdaptiveTickerPrimary.swift:17-36 | a news head is shown alone; any other head is joined by the next item, cyclically, exactly when there are several items and that one is not news |
| AdaptiveTicker.WindowConsecutive | src/NotchTape/Sources/Widgets/TickerFeed/AdaptiveTickerPrimary.swift:15-31 | the shown items are consecutive, cyclically, starting from the item at `cursor mod count` |
| AdaptiveTicker.NextIndex | src/NotchTape/Sources/Widgets/TickerFeed/AdaptiveTickerPrimary.swift:26-28 | `(start + 1) % count` is the cursor's successor and differs from the head when there are several items |
| AdaptiveTicker.FirstIndexWithId | src/NotchTape/Sources/Widgets/TickerFeed/AdaptiveTickerPrimary.swift:139 | `firstIndex(where:)` finds the first item with the id, or reports that there is none |
| AdaptiveTicker.RemoveFirstWithId | src/NotchTape/Sources/Widgets/TickerFeed/AdaptiveTickerPrimary.swift:139-141 | `remove(at:)` of the first item with the id, or nothing when none has it; what that keeps and drops is `RemoveFirstWithIdEffect` |
| AdaptiveTicker.AdaptiveTickerPrimary.constructor | src/NotchTape/Sources/Widgets/TickerFeed/AdaptiveTickerPrimary.swift:6-8 | the ticker starts at cursor 0, not animating |
| AdaptiveTicker.AdaptiveTickerPrimary.CurrentItems | src/NotchTape/Sources/Widgets/TickerFeed/AdaptiveTickerPrimary.swift:13-37 | `currentItems` is the window at the cursor over the current feed; its properties are those of `Window` |
| AdaptiveTicker.AdaptiveTickerPrimary.RotateToNext | src/NotchTape/Sources/Widgets/TickerFeed/AdaptiveTickerPrimary.swift:110-115 | on an empty feed nothing changes; otherwise the exit animation starts |
| AdaptiveTicker.AdaptiveTickerPrimary.FinishRotation | src/NotchTape/Sources/Widgets/TickerFeed/AdaptiveTickerPrimary.swift:117-125 | the cursor advances by the number of items shown at that moment, so it strictly grows unless the feed is empty |
| AdaptiveTicker.AdaptiveTickerPrimary.HandleItemClick | src/NotchTape/Sources/Widgets/TickerFeed/AdaptiveTickerPrimary.swift:128-145 | without a usable url nothing changes; otherwise the url is recorded, the first item with that id is removed, the rotation starts, and ids stay unique |
| AdaptiveTicker.RemoveAtSubMultiset | src/NotchTape/Sources/Widgets/TickerFeed/AdaptiveTickerPrimary.swift:140 | `remove(at:)` removes exactly that one element |
| AdaptiveTicker.RemoveFirstWithIdEffect | src/NotchTape/Sources/Widgets/TickerFeed/AdaptiveTickerPrimary.swift:139-141 | the click removes exactly one item and keeps the others in order; with unique ids none with that id remains; for an unknown id the list is unchanged |
| AdaptiveTicker.RemoveAtKeepsIds | src/NotchTape/Sources/Widgets/TickerFeed/AdaptiveTickerPrimary.swift:139-140 | removing one item keeps the ids unique and below the counter |
| AdaptiveTicker.RemoveAtSkipsId | src/NotchTape/Sources/Widgets/TickerFeed/AdaptiveTickerPrimary.swift:139-140 | with unique ids, removing the first item with the id leaves no item with it |
| AdaptiveTicker.RemoveAtKeepsOthers | src/NotchTape/Sources/Widgets/TickerFeed/AdaptiveTickerPrimary.swift:140 | `remove(at:)` keeps every item other than the removed one |
| AdaptiveTicker.CursorAdvances | src/NotchTape/Sources/Widgets/TickerFeed/AdaptiveTickerPrimary.swift:117-121 | over a non-empty feed each rotation moves the cursor on by at least one, and the cursor never moves back |
| AdaptiveTicker.RotationShowsConsecutive | src/NotchTape/Sources/Widgets/TickerFeed/AdaptiveTickerPrimary.swift:117-121 | no item is skipped: every position between the first cursor and the cursor after `k` rotations lies in the window of one of those rotations |
| AdaptiveTicker.PositionShown | src/NotchTape/Sources/Widgets/TickerFeed/AdaptiveTickerPrimary.swift:117-121 | the window in which position `p` lies shows the `p`-th item, cyclically, at offset `p - start` |
| AdaptiveTicker.WindowsDisjoint | src/NotchTape/Sources/Widgets/TickerFeed/AdaptiveTickerPrimary.swift:117-121 | no item is repeated: a later window starts at or after the end of an earlier one |
| RotatingTicker.RotatingTickerPrimary.constructor | src/NotchTape/Sources/Widgets/TickerFeed/RotatingTickerPrimary.swift:5-7 | the ticker starts at cursor 0, not animating |
| RotatingTicker.RotatingTickerPrimary.CurrentItem | src/NotchTape/Sources/Widgets/TickerFeed/RotatingTickerPrimary.swift:12-15 | nil iff the feed is empty; otherwise the item at the cursor modulo the count |
| RotatingTicker.RotatingTickerPrimary.RotateToNext | src/NotchTape/Sources/Widgets/TickerFeed/RotatingTickerPrimary.swift:65-70 | on an empty feed nothing changes; otherwise the exit animation starts |
| RotatingTicker.RotatingTickerPrimary.FinishRotation | src/NotchTape/Sources/Widgets/TickerFeed/RotatingTickerPrimary.swift:72-78 | the cursor advances by one and the animation ends |
| RotatingTicker.RotatingTickerPrimary.RunTicks | src/NotchTape/Sources/Widgets/TickerFeed/RotatingTickerPrimary.swift:60-78 | `k` ticks with their continuations show the items at `(cursor + j) mod n` in turn and move the cursor on by `k`; `n` ticks show every item of an `n`-item feed; on an empty feed nothing is shown and the cursor stays |
| RotatingTicker.EachItemShownOnce | src/NotchTape/Sources/Widgets/TickerFeed/RotatingTickerPrimary.swift:14 | `n` rotations over `n` items show every position exactly once |
| RotatingTicker.FullCycleReturns | src/NotchTape/Sources/Widgets/TickerFeed/RotatingTickerPrimary.swift:14 | after `n` rotations the same item is shown again |
| RotatingMarket.TotalPages | src/NotchTape/Sources/Widgets/MarketOverview/RotatingMarketPrimary.swift:21-23 | at least one page; for `n > 0` items it is `ceil(n / 4)` |
| RotatingMarket.PageItems | src/NotchTape/Sources/Widgets/MarketOverview/RotatingMarketPrimary.swift:25-30 | the contiguous slice from `4p`, at most four long; empty exactly when the page starts at or beyond the end |
| RotatingMarket.PagesUpToPrefix | src/NotchTape/Sources/Widgets/MarketOverview/RotatingMarketPrimary.swift:25-30 | the first `k` pages end to end are the first `4k` items |
| RotatingMarket.PagesCoverAll | src/NotchTape/Sources/Widgets/MarketOverview/RotatingMarketPrimary.swift:21-30 | all pages end to end are the whole list in order |
| RotatingMarket.PagesBelowTotalAreNonEmpty | src/NotchTape/Sources/Widgets/MarketOverview/RotatingMarketPrimary.swift:21-30 | no page below the page count is blank for a non-empty list |
| RotatingMarket.FirstPageLeadsWithIndices | src/NotchTape/Sources/Widgets/MarketOverview/RotatingMarketPrimary.swift:16-19 | the first page begins with up to four indices |
| RotatingMarket.StockDataSource.constructor | src/NotchTape/Sources/DataSources/StockDataSource.swift:36-51 | the store holds the given indices and quotes |
| RotatingMarket.RotatingMarketPrimary.constructor | src/NotchTape/Sources/Widgets/MarketOverview/RotatingMarketPrimary.swift:6-10 | the strip starts on page 0 with no detail view |
| RotatingMarket.RotatingMarketPrimary.AllItems | src/NotchTape/Sources/Widgets/MarketOverview/RotatingMarketPrimary.swift:16-19 | the indices come first, then the quotes |
| RotatingMarket.RotatingMarketPrimary.PageCount | src/NotchTape/Sources/Widgets/MarketOverview/RotatingMarketPrimary.swift:21-23 | `totalPages` over the current lists; its bounds are those of `TotalPages` |
| RotatingMarket.RotatingMarketPrimary.CurrentItems | src/NotchTape/Sources/Widgets/MarketOverview/RotatingMarketPrimary.swift:25-30 | `currentItems` is the page at `currentPage` of the current lists; its properties are those of `PageItems` |
| RotatingMarket.RotatingMarketPrimary.IsShowingIndices | src/NotchTape/Sources/Widgets/MarketOverview/RotatingMarketPrimary.swift:32-34 | when it holds, an index leads the visible page |
| RotatingMarket.RotatingMarketPrimary.OnTimer | src/NotchTape/Sources/Widgets/MarketOverview/RotatingMarketPrimary.swift:148-152 | while a detail view is open a tick changes nothing; otherwise it starts the rotation |
| RotatingMarket.RotatingMarketPrimary.RotateDisplay | src/NotchTape/Sources/Widgets/MarketOverview/RotatingMarketPrimary.swift:155-158 | the exit animation starts and nothing else changes |
| RotatingMarket.RotatingMarketPrimary.FinishRotation | src/NotchTape/Sources/Widgets/MarketOverview/RotatingMarketPrimary.swift:160-167 | the page becomes `(p + 1) mod totalPages`, so it lies below the page count |
| RotatingMarket.RotatingMarketPrimary.ShowDetail | src/NotchTape/Sources/Widgets/MarketOverview/RotatingMarketPrimary.swift:89-93 | the tapped quote's detail opens with the text "Fetching latest news..." |
| RotatingMarket.RotatingMarketPrimary.CloseDetail | src/NotchTape/Sources/Widgets/MarketOverview/RotatingMarketPrimary.swift:69-73 | the detail view closes and its news text is cleared |
| RotatingMarket.AdvancesCycle | src/NotchTape/Sources/Widgets/MarketOverview/RotatingMarketPrimary.swift:162 | from page 0, `k` advances land on page `k mod totalPages` |
| SettingsPane.NormalizeSymbol | src/NotchTape/Sources/WindowViews/Settings.swift:122 | the symbol has no lower-case ASCII letter and no space or tab at either end |
| SettingsPane.IndexSymbol | src/NotchTape/Sources/WindowViews/Settings.swift:134-138 | the index symbol always starts with `^`; one is added only when missing |
| SettingsPane.RemoveAll | src/NotchTape/Sources/WindowViews/Settings.swift:46 | removal leaves exactly the other symbols |
| SettingsPane.Settings.constructor | src/NotchTape/Sources/WindowViews/Settings.swift:6-9 | the pane opens on the stored lists with empty text fields |
| SettingsPane.Settings.AddSymbol | src/NotchTape/Sources/WindowViews/Settings.swift:121-131 | a blank or already listed ticker leaves the list unchanged; otherwise it is appended; no duplicates arise; the field is cleared |
| SettingsPane.Settings.AddIndex | src/NotchTape/Sources/WindowViews/Settings.swift:133-147 | the `^`-prefixed symbol is appended unless listed; every new entry starts with `^`; no duplicates arise; the field is cleared |
| SettingsPane.Settings.RemoveIndexSymbol | src/NotchTape/Sources/WindowViews/Settings.swift:44-48 | every occurrence of the index symbol is removed; no duplicates arise |
| SettingsPane.Settings.RemoveStockSymbol | src/NotchTape/Sources/WindowViews/Settings.swift:76-80 | every occurrence of the ticker is removed; no duplicates arise |
| SettingsPane.Settings.ResetToDefaults | src/NotchTape/Sources/WindowViews/Settings.swift:104-107 | both lists become the fixed defaults, which have no duplicates |
| SettingsPane.NormalizeBlankIff | src/NotchTape/Sources/WindowViews/Settings.swift:122-126 | input normalises to empty exactly when it is all spaces and tabs |
| SettingsPane.BlankIndexIsCaret | src/NotchTape/Sources/WindowViews/Settings.swift:134-144 | because the emptiness test follows the prefixing, blank index input yields `"^"` |
| SettingsPane.NormalizeIdempotent | src/NotchTape/Sources/WindowViews/Settings.swift:122-123 | normalising is idempotent, so a listed symbol typed again is refused |
| SettingsPane.TrimPaddedEntry | src/NotchTape/Sources/WindowViews/Settings.swift:122 | worked example, one input: trimming `" GSPC "` strips exactly one blank on each side |
| SettingsPane.NormalizePaddedEntry | src/NotchTape/Sources/WindowViews/Settings.swift:122 | worked example, one input: `" gspc "` normalises to `"GSPC"` |
| SettingsPane.IndexSymbolPadded | src/NotchTape/Sources/WindowViews/Settings.swift:134-138 | worked example, one input: `" gspc "` becomes `"^GSPC"` |
| SettingsPane.IndexSymbolWithCaret | src/NotchTape/Sources/WindowViews/Settings.swift:134-138 | worked example, one input: `"^vix"` becomes `"^VIX"` |
| SettingsPane.RemoveAllAppend | src/NotchTape/Sources/WindowViews/Settings.swift:78 | removal keeps the remaining symbols in order |
| SettingsPane.RemoveAllCounts | src/NotchTape/Sources/WindowViews/Settings.swift:78 | removal deletes every occurrence and keeps every other count |
| SettingsPane.RemoveAbsent | src/NotchTape/Sources/WindowViews/Settings.swift:78 | removing an unlisted symbol changes nothing |
| SettingsPane.RemoveAllKeepsDistinct | src/NotchTape/Sources/WindowViews/Settings.swift:46 | removal keeps a list duplicate-free |
| StockNews.ItemOf | src/NotchTape/Sources/DataSources/StockNewsDataSource.swift:140-145 | an item has the trimmed title and link, no date and source "Yahoo Finance" |
| StockNews.Step | src/NotchTape/Sources/DataSources/StockNewsDataSource.swift:116-152 | one delegate callback appends exactly one item on `</item>` and none otherwise, never touches the items already held, and the end of the document changes nothing |
| StockNews.Run | src/NotchTape/Sources/DataSources/StockNewsDataSource.swift:109-114 | the delegate state after a whole callback sequence; `ItemCount`, `RunAppendsYahooItems` and `RunAppend` state its properties |
| StockNews.Reports | src/NotchTape/Sources/DataSources/StockNewsDataSource.swift:150-152 | the lists handed to the completion, one per end of document; `NoEndNoReport` and `WellFormedReportsOnce` state its properties |
| StockNews.StockNewsParser.constructor | src/NotchTape/Sources/DataSources/StockNewsDataSource.swift:103-106 | a new parser has no items and empty text fields |
| StockNews.StockNewsParser.DidStartElement | src/NotchTape/Sources/DataSources/StockNewsDataSource.swift:116-122 | the element is remembered; `<item>` resets the title and link |
| StockNews.StockNewsParser.FoundCharacters | src/NotchTape/Sources/DataSources/StockNewsDataSource.swift:124-136 | a chunk that trims to empty (space separators, tab, line breaks, U+0085 and the line and paragraph separators U+2028, U+2029) changes nothing; others are appended to the title inside `<title>`, to the link inside `<link>`, and dropped elsewhere |
| StockNews.SeparatorChunkIgnored | src/NotchTape/Sources/DataSources/StockNewsDataSource.swift:124-126 | a chunk of line and paragraph separators trims to nothing and changes no field |
| StockNews.StockNewsParser.DidEndElement | src/NotchTape/Sources/DataSources/StockNewsDataSource.swift:138-148 | `</item>` appends one item built from the collected text; other ends change nothing |
| StockNews.StockNewsParser.DidEndDocument | src/NotchTape/Sources/DataSources/StockNewsDataSource.swift:150-152 | the completion receives the items collected so far |
| StockNews.StockNewsParser.ParseNews | src/NotchTape/Sources/DataSources/StockNewsDataSource.swift:109-114 | driving the delegate through the callbacks gives the state and reports of the reference run |
| StockNews.ItemCount | src/NotchTape/Sources/DataSources/StockNewsDataSource.swift:138-147 | the number of items produced equals the number of `</item>` callbacks |
| StockNews.RunAppendsYahooItems | src/NotchTape/Sources/DataSources/StockNewsDataSource.swift:140-146 | items are only appended, and each has source "Yahoo Finance", a link and no date |
| StockNews.RunAppend | src/NotchTape/Sources/DataSources/StockNewsDataSource.swift:116-148 | a run over two parts is the run of the first, then the second |
| StockNews.NoEndNoReport | src/NotchTape/Sources/DataSources/StockNewsDataSource.swift:150-152 | without an end of document the completion is never called |
| StockNews.WellFormedReportsOnce | src/NotchTape/Sources/DataSources/StockNewsDataSource.swift:146-152 | a complete document reports once, with all its items in document order |
| StockNews.ItemStartForgetsPending | src/NotchTape/Sources/DataSources/StockNewsDataSource.swift:117-121 | text collected before an `<item>` starts (the feed's own title) never reaches that item |
| StockNews.FetchNews | src/NotchTape/Sources/DataSources/StockNewsDataSource.swift:15-47 | a bad URL or a failed request reports nil; a parsed feed whose first report has items reports its first title, and one whose first report is empty falls back to the sentiment request; a document that never ends calls nothing |
| StockNews.FetchFirstTitle | src/NotchTape/Sources/DataSources/StockNewsDataSource.swift:35-39 | for a complete document with items, the headline is the first item's title |

## Left out

- Network fetching and JSON decoding are left out: `fetchQuotesV8`, the Hacker News requests and `fetchMarketSentiment`. Their results are inputs (quote and headline sequences, a callback sequence for the RSS body). `fetchMarketSentiment` is reduced to the outcome `AskSentiment`.
- The data sources' own state is left out. `StockDataSource.swift` is not part of this model beyond the two lists it publishes. `NewsDataSource.swift` is not part of this model beyond its `NewsItem` shape.
- Concurrency is left out: timers, `asyncAfter`, Combine subscriptions, and the locking fan-out in the data sources. A rotation's two phases are separate calls, and nothing is modelled about what may happen between them.
- `setupDataSources` wiring is left out. The feed subscribes only to news, so `updateStockItems` is never called in the app; it is modelled on its own all the same.
- Floating point is left out: price and percent formatting, `changeColor`, the VIX and 52-week thresholds, and publish-date ordering.
- The `fetchStockNews` completion in the market strip is left out. It sets the headline, or an "Up"/"Down" fallback chosen by the sign of a `Double` change. Only its first, synchronous line is modelled, in `ShowDetail`.
- View bodies, animations, `NSWorkspace.open` and `NSCursor` are left out, and so are the symbol labels of the market strip (the `dropFirst().prefix(4)` text, line 96).
- `ItemType.color` and `icon` are left out. They are display constants.
- Text.Uppercased: upper-cases only ASCII `a`-`z`. Foundation's Unicode case mapping (for example `ß` to `SS`) is not modelled.
- XML tokenising is left out. The parser is driven by a given callback sequence. CDATA blocks produce no `foundCharacters` callback, and the delegate ignores them.
- `URL(string:)` validity is left out. It is a boolean parameter (`urlParses`) of `HandleItemClick` and `FetchNews`.
- Persistence is left out: `UserDefaults` and the `Defaults` keys are plain fields, and each object starts from the persisted value it is given.
- String equality is code-point equality: symbols, urls and element names are compared as sequences of characters, where Swift's `==` and `contains` compare by Unicode canonical equivalence and `hasPrefix` compares whole grapheme clusters. A symbol typed as `E` plus a combining accent is therefore not a duplicate of a listed precomposed `É` in the model, though Swift refuses it; and `HasPrefix("^\u{301}", "^")` holds in the model, so `IndexSymbol` keeps `^\u{301}` where Swift's `addIndex` stores `^^\u{301}`.
- Integer width is left out: `currentIndex` and `currentPage` are unbounded. The Swift `Int` cursor of the tickers grows by at most two per tick and never wraps in practice.
