/** The watchlist page's search box (src/pages/watchlist/WatchlistPage.tsx). */
module Watchlist {
  import opened Common
  import opened Text

  datatype WatchlistItem = WatchlistItem(symbol: string, name: string, price: real, change: real, tech: real)

  /** The fixed list the page displays. */
  const WatchlistData: seq<WatchlistItem> := [
    WatchlistItem("S", "Sprint Corporation", 7.82, 54.62, 4.9),
    WatchlistItem("GOOGL", "Alphabet Inc.", 1088.0, -10.18, 1.56),
    WatchlistItem("FB", "Facebook Inc.", 147.0, -14.11, 4.9),
    WatchlistItem("MSFT", "Microsoft Corporation", 142.49, -2.89, 1.56),
    WatchlistItem("F", "Ford Motor Company", 4.51, -52.08, 1.56),
    WatchlistItem("EQM", "EQM Midstream Partners, LP", 147.0, -14.11, 4.9),
    WatchlistItem("AMZN", "Amazon.com Inc.", 142.49, 2.18, 1.56)
  ]

  /** The filter's callback: the query occurs in the symbol or the name, ignoring case. */
  predicate Matches(item: WatchlistItem, query: string)
  {
    Contains(Lower(item.symbol), Lower(query)) || Contains(Lower(item.name), Lower(query))
  }

  /** `items.filter(...)` */
  function Filter(items: seq<WatchlistItem>, query: string): (r: seq<WatchlistItem>)
    ensures |r| <= |items|
    ensures forall x :: x in r ==> x in items && Matches(x, query)
    decreases |items|
  {
    if items == [] then []
    else (if Matches(items[0], query) then [items[0]] else []) + Filter(items[1..], query)
  }

  /** `filteredData` for the current search query. */
  function FilteredData(searchQuery: string): (shown: seq<WatchlistItem>)
    ensures forall x :: x in shown ==> x in WatchlistData && Matches(x, searchQuery)
    ensures searchQuery == "" ==> shown == WatchlistData
  {
    FilterEmptyQuery(WatchlistData);
    Filter(WatchlistData, searchQuery)
  }

  /** An item of the list is shown exactly when it matches. */
  lemma {:induction false} FilterKeepsMatches(items: seq<WatchlistItem>, query: string, x: WatchlistItem)
    ensures x in Filter(items, query) <==> x in items && Matches(x, query)
    decreases |items|
  {
    if items != [] {
      FilterKeepsMatches(items[1..], query, x);
      assert x in items <==> x == items[0] || x in items[1..];
    }
  }

  /** The result is the list with some items deleted, in their original order. */
  lemma {:induction false} FilterIsSubsequence(items: seq<WatchlistItem>, query: string)
    ensures IsSubsequence(Filter(items, query), items)
    decreases |items|
  {
    if items != [] {
      var rest := Filter(items[1..], query);
      FilterIsSubsequence(items[1..], query);
      if Matches(items[0], query) {
        assert Filter(items, query) == [items[0]] + rest;
        assert ([items[0]] + rest)[1..] == rest;
      } else {
        assert Filter(items, query) == rest;
        SubsequenceOfTail(rest, items);
      }
    }
  }

  /** A subsequence of the tail is a subsequence of the whole. */
  lemma SubsequenceOfTail(a: seq<WatchlistItem>, b: seq<WatchlistItem>)
    requires b != [] && IsSubsequence(a, b[1..])
    ensures IsSubsequence(a, b)
  {
  }

  /** The empty query shows every item. */
  lemma {:induction false} FilterEmptyQuery(items: seq<WatchlistItem>)
    ensures Filter(items, "") == items
    decreases |items|
  {
    if items != [] {
      ContainsEmpty(Lower(items[0].symbol));
      FilterEmptyQuery(items[1..]);
    }
  }

  /** Queries that differ only in letter case show the same items. */
  lemma {:induction false} FilterCaseInsensitive(items: seq<WatchlistItem>, q1: string, q2: string)
    requires Lower(q1) == Lower(q2)
    ensures Filter(items, q1) == Filter(items, q2)
    decreases |items|
  {
    if items != [] {
      FilterCaseInsensitive(items[1..], q1, q2);
    }
  }

  /** A list whose every item matches passes the filter whole. */
  lemma {:induction false} FilterAllMatching(items: seq<WatchlistItem>, query: string)
    requires forall i :: 0 <= i < |items| ==> Matches(items[i], query)
    ensures Filter(items, query) == items
    decreases |items|
  {
    if items != [] {
      FilterAllMatching(items[1..], query);
    }
  }

  /** Filtering the shown items again with the same query changes nothing. */
  lemma FilterIdempotent(items: seq<WatchlistItem>, query: string)
    ensures Filter(Filter(items, query), query) == Filter(items, query)
  {
    var shown := Filter(items, query);
    assert forall i :: 0 <= i < |shown| ==> shown[i] in shown;
    FilterAllMatching(shown, query);
  }
}
