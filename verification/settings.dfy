/**
 * The settings pane's editing of the two watched symbol lists: market
 * indices and stock tickers. Entered text is uppercased and trimmed; index
 * symbols get a leading `^`; blank or duplicate entries are refused; the
 * text field is cleared after every attempt.
 */
module SettingsPane {
  import opened Text

  /** The index list a fresh install starts with and "Reset All to Defaults" restores. */
  const DefaultIndexSymbols: seq<string> := ["^GSPC", "^DJI", "^IXIC", "^VIX"]

  /** The ticker list a fresh install starts with and "Reset All to Defaults" restores. */
  const DefaultStockSymbols: seq<string> := ["AAPL", "GOOGL", "MSFT", "AMZN", "TSLA", "META", "NVDA", "SPY"]

  predicate NoDuplicates(s: seq<string>) {
    forall i, j :: 0 <= i < j < |s| ==> s[i] != s[j]
  }

  /** `uppercased().trimmingCharacters(in: .whitespaces)`. */
  function NormalizeSymbol(raw: string): (r: string)
    ensures |r| <= |raw|
    ensures forall i :: 0 <= i < |r| ==> !('a' <= r[i] <= 'z')
    ensures r == [] || (!InSet(r[0], Whitespaces) && !InSet(r[|r| - 1], Whitespaces))
  {
    Trimmed(Uppercased(raw), Whitespaces)
  }

  /** The symbol `addIndex` tries to append: the normalised text with a `^` put in front unless it has one. */
  function IndexSymbol(raw: string): (r: string)
    ensures HasPrefix(r, "^")
    ensures HasPrefix(NormalizeSymbol(raw), "^") ==> r == NormalizeSymbol(raw)
    ensures !HasPrefix(NormalizeSymbol(raw), "^") ==> r == "^" + NormalizeSymbol(raw)
  {
    var symbol := NormalizeSymbol(raw);
    if !HasPrefix(symbol, "^") then "^" + symbol else symbol
  }

  /** `removeAll { $0 == symbol }`. */
  function RemoveAll(s: seq<string>, symbol: string): (r: seq<string>)
    ensures |r| <= |s|
    ensures symbol !in r
    ensures forall x :: x in r <==> x in s && x != symbol
  {
    if s == [] then []
    else if s[0] == symbol then RemoveAll(s[1..], symbol)
    else [s[0]] + RemoveAll(s[1..], symbol)
  }

  class Settings {
    /** The persisted ticker list. */
    var stockSymbols: seq<string>
    /** The persisted index list. */
    var indexSymbols: seq<string>
    /** Text of the "Add ticker..." field. */
    var newSymbol: string
    /** Text of the "Add index" field. */
    var newIndex: string

    /** Opens the pane on the stored lists with both text fields empty. */
    constructor (stockSymbols: seq<string>, indexSymbols: seq<string>)
      ensures this.stockSymbols == stockSymbols && this.indexSymbols == indexSymbols
      ensures newSymbol == "" && newIndex == ""
    {
      this.stockSymbols := stockSymbols;
      this.indexSymbols := indexSymbols;
      newSymbol := "";
      newIndex := "";
    }

    /** `addSymbol`: append the normalised ticker unless it is blank or already listed; clear the field either way. */
    method AddSymbol()
      modifies this
      ensures var symbol := NormalizeSymbol(old(newSymbol));
        stockSymbols == if symbol == [] || symbol in old(stockSymbols) then old(stockSymbols)
                        else old(stockSymbols) + [symbol]
      ensures NoDuplicates(old(stockSymbols)) ==> NoDuplicates(stockSymbols)
      ensures newSymbol == ""
      ensures indexSymbols == old(indexSymbols) && newIndex == old(newIndex)
    {
      var symbol := NormalizeSymbol(newSymbol);
      if symbol == [] || symbol in stockSymbols {
        newSymbol := "";
        return;
      }
      stockSymbols := stockSymbols + [symbol];
      newSymbol := "";
    }

    /**
     * `addIndex`: normalise, put a `^` in front if missing, then append unless
     * already listed; clear the field either way. The emptiness test comes
     * after the prefixing, so it never refuses anything.
     */
    method AddIndex()
      modifies this
      ensures var symbol := IndexSymbol(old(newIndex));
        indexSymbols == if symbol in old(indexSymbols) then old(indexSymbols) else old(indexSymbols) + [symbol]
      ensures forall s :: s in indexSymbols && s !in old(indexSymbols) ==> HasPrefix(s, "^")
      ensures NoDuplicates(old(indexSymbols)) ==> NoDuplicates(indexSymbols)
      ensures newIndex == ""
      ensures stockSymbols == old(stockSymbols) && newSymbol == old(newSymbol)
    {
      var symbol := NormalizeSymbol(newIndex);
      if !HasPrefix(symbol, "^") {
        symbol := "^" + symbol;
      }
      if symbol == [] || symbol in indexSymbols {
        newIndex := "";
        return;
      }
      indexSymbols := indexSymbols + [symbol];
      newIndex := "";
    }

    /** The minus button beside an index symbol. */
    method RemoveIndexSymbol(symbol: string)
      modifies this
      ensures indexSymbols == RemoveAll(old(indexSymbols), symbol)
      ensures NoDuplicates(old(indexSymbols)) ==> NoDuplicates(indexSymbols)
      ensures stockSymbols == old(stockSymbols) && newSymbol == old(newSymbol) && newIndex == old(newIndex)
    {
      RemoveAllKeepsDistinct(indexSymbols, symbol);
      indexSymbols := RemoveAll(indexSymbols, symbol);
    }

    /** The minus button beside a stock ticker. */
    method RemoveStockSymbol(symbol: string)
      modifies this
      ensures stockSymbols == RemoveAll(old(stockSymbols), symbol)
      ensures NoDuplicates(old(stockSymbols)) ==> NoDuplicates(stockSymbols)
      ensures indexSymbols == old(indexSymbols) && newSymbol == old(newSymbol) && newIndex == old(newIndex)
    {
      RemoveAllKeepsDistinct(stockSymbols, symbol);
      stockSymbols := RemoveAll(stockSymbols, symbol);
    }

    /** "Reset All to Defaults": both lists back to the defaults, which have no duplicates. */
    method ResetToDefaults()
      modifies this
      ensures indexSymbols == DefaultIndexSymbols && stockSymbols == DefaultStockSymbols
      ensures NoDuplicates(indexSymbols) && NoDuplicates(stockSymbols)
      ensures newSymbol == old(newSymbol) && newIndex == old(newIndex)
    {
      indexSymbols := DefaultIndexSymbols;
      stockSymbols := DefaultStockSymbols;
    }
  }

  // ---------------------------------------------------------------------------
  // Properties of the symbol functions

  /** Text made only of spaces and tabs normalises to the empty symbol, and nothing else does. */
  lemma NormalizeBlankIff(raw: string)
    ensures NormalizeSymbol(raw) == [] <==> forall i :: 0 <= i < |raw| ==> InSet(raw[i], Whitespaces)
  {
    var up := Uppercased(raw);
    TrimmedEmptyIff(up, Whitespaces);
    forall i | 0 <= i < |raw|
      ensures InSet(up[i], Whitespaces) <==> InSet(raw[i], Whitespaces)
    {
      UpperCharKeepsSet(raw[i], Whitespaces);
    }
  }

  /** A blank index entry appends the bare `"^"` (when it is not listed yet). */
  lemma BlankIndexIsCaret(raw: string)
    requires forall i :: 0 <= i < |raw| ==> InSet(raw[i], Whitespaces)
    ensures IndexSymbol(raw) == "^"
  {
    NormalizeBlankIff(raw);
  }

  /** Normalising twice is normalising once, so a listed symbol typed again is refused as a duplicate. */
  lemma NormalizeIdempotent(raw: string)
    ensures NormalizeSymbol(NormalizeSymbol(raw)) == NormalizeSymbol(raw)
  {
    var t := NormalizeSymbol(raw);
    assert Uppercased(t) == t;
    TrimmedUnchanged(t, Whitespaces);
  }

  /** Trimming strips exactly the one blank on each side of the padded entry. */
  lemma TrimPaddedEntry()
    ensures Trimmed(" GSPC ", Whitespaces) == "GSPC"
  {
    var a := " GSPC ";
    var rest := a[1..];
    assert LeadingCount(rest, Whitespaces) == 0;
    assert LeadingCount(a, Whitespaces) == 1;
    assert TrailingCount(rest[..4], Whitespaces) == 0;
    assert TrailingCount(rest, Whitespaces) == 1;
    assert rest[..4] == "GSPC";
  }

  /** The padded lower-case entry normalises to the bare upper-case symbol. */
  lemma NormalizePaddedEntry()
    ensures NormalizeSymbol(" gspc ") == "GSPC"
  {
    assert Uppercased(" gspc ") == " GSPC ";
    TrimPaddedEntry();
  }

  /** Lower-case and padded input lands on the listed spelling. */
  lemma IndexSymbolPadded()
    ensures IndexSymbol(" gspc ") == "^GSPC"
  {
    NormalizePaddedEntry();
    assert !HasPrefix("GSPC", "^");
  }

  /** An index typed with its caret is only uppercased. */
  lemma IndexSymbolWithCaret()
    ensures IndexSymbol("^vix") == "^VIX"
  {
    var b := Uppercased("^vix");
    assert b == "^VIX";
    TrimmedUnchanged(b, Whitespaces);
    assert NormalizeSymbol("^vix") == "^VIX";
  }

  /** Removal keeps the other entries in their order: it distributes over concatenation. */
  lemma {:induction false} RemoveAllAppend(a: seq<string>, b: seq<string>, symbol: string)
    ensures RemoveAll(a + b, symbol) == RemoveAll(a, symbol) + RemoveAll(b, symbol)
  {
    if a == [] {
      assert a + b == b;
    } else {
      assert (a + b)[0] == a[0];
      assert (a + b)[1..] == a[1..] + b;
      RemoveAllAppend(a[1..], b, symbol);
    }
  }

  /** Removal deletes every occurrence of the symbol and leaves every other count as it was. */
  lemma {:induction false} RemoveAllCounts(s: seq<string>, symbol: string)
    ensures multiset(RemoveAll(s, symbol)) == multiset(s)[symbol := 0]
  {
    if s != [] {
      RemoveAllCounts(s[1..], symbol);
      assert s == [s[0]] + s[1..];
    }
  }

  /** Removing a symbol that is not listed changes nothing. */
  lemma {:induction false} RemoveAbsent(s: seq<string>, symbol: string)
    requires symbol !in s
    ensures RemoveAll(s, symbol) == s
  {
    if s != [] {
      RemoveAbsent(s[1..], symbol);
    }
  }

  lemma {:induction false} RemoveAllKeepsDistinct(s: seq<string>, symbol: string)
    ensures NoDuplicates(s) ==> NoDuplicates(RemoveAll(s, symbol))
  {
    if s != [] && NoDuplicates(s) {
      RemoveAllKeepsDistinct(s[1..], symbol);
      assert NoDuplicates(s[1..]);
      assert s[0] !in s[1..];
    }
  }
}
