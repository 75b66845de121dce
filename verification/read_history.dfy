/**
 * The read-history store: an append-only list of opened URLs that keeps only
 * the newest `MaxHistory` entries. The persistent key-value store that holds
 * the list is modelled as one in-memory field.
 */
module ReadHistory {

  /** Number of read links kept; older ones are evicted first. */
  const MaxHistory: nat := 1000

  /** The list written back after an append: its newest `MaxHistory` entries. */
  function Capped(links: seq<string>): (r: seq<string>)
    ensures |r| == if |links| > MaxHistory then MaxHistory else |links|
    ensures r == links[|links| - |r|..]
  {
    if |links| > MaxHistory then links[|links| - MaxHistory..] else links
  }

  class ReadHistoryManager {
    /**
     * The string array stored under the key "NotchFeed.ReadLinks", oldest
     * first. A missing key reads as the empty list, so the removed key is
     * represented by `[]`.
     */
    var readLinks: seq<string>

    /** Starts from whatever list was persisted by an earlier run. */
    constructor (stored: seq<string>)
      ensures readLinks == stored
    {
      readLinks := stored;
    }

    /** The stored list, oldest first, or the empty list when nothing is stored. */
    function GetReadLinks(): (r: seq<string>)
      reads this
      ensures r == readLinks
    {
      readLinks
    }

    /** `contains`: some stored entry equals `url`. */
    function IsRead(url: string): (r: bool)
      reads this
      ensures r <==> exists i :: 0 <= i < |readLinks| && readLinks[i] == url
    {
      url in GetReadLinks()
    }

    /** Reads the stored list, appends `url`, keeps the newest entries and stores it back. */
    method MarkAsRead(url: string)
      modifies this
      ensures readLinks == Capped(old(readLinks) + [url])
      ensures IsRead(url)
      ensures |old(readLinks)| <= MaxHistory ==> |readLinks| <= MaxHistory
    {
      var links := GetReadLinks();
      links := links + [url];
      if |links| > MaxHistory {
        links := links[|links| - MaxHistory..];
      }
      readLinks := links;
      assert readLinks[|readLinks| - 1] == url;
    }

    /** Removes the stored list; reading it afterwards yields the empty list. */
    method ClearHistory()
      modifies this
      ensures GetReadLinks() == []
      ensures forall url :: !IsRead(url)
    {
      readLinks := [];
    }
  }

  /** Below the cap an append keeps every old entry, duplicates included. */
  lemma MarkBelowCap(links: seq<string>, url: string)
    requires |links| < MaxHistory
    ensures Capped(links + [url]) == links + [url]
  {
  }

  /** At the cap exactly the oldest entry is evicted. */
  lemma MarkAtCap(links: seq<string>, url: string)
    requires |links| == MaxHistory
    ensures Capped(links + [url]) == links[1..] + [url]
  {
    assert (links + [url])[1..] == links[1..] + [url];
  }

  /** The appended URL is always the newest entry, and the cap is never exceeded. */
  lemma MarkNewestLast(links: seq<string>, url: string)
    ensures |Capped(links + [url])| > 0
    ensures Capped(links + [url])[|Capped(links + [url])| - 1] == url
    ensures |Capped(links + [url])| <= MaxHistory
  {
  }

  /**
   * Only the oldest entries are lost: every entry among the newest
   * `MaxHistory - 1` of the old list survives an append.
   */
  lemma MarkKeepsRecent(links: seq<string>, url: string, i: nat)
    requires i < |links| && |links| - i < MaxHistory
    ensures links[i] in Capped(links + [url])
  {
    var all := links + [url];
    var r := Capped(all);
    assert all[i] == links[i];
    assert r[i - (|all| - |r|)] == all[i];
  }
}
