/**
 * The market table's live price merge (src/pages/market/MarketPage.tsx).
 * Each WebSocket message is matched against the rows by the lower-cased
 * identity; rows with a truthy new price take it, and a price that moved
 * marks the row's identity "up" or "down" until a timer clears the mark.
 */
module MarketPage {
  import opened Common
  import opened Text
  import opened Prices

  /** A row of the table, as the asset list endpoint delivers it. */
  datatype Vault = Vault(
    id: string,
    identity: string,
    symbol: string,
    name: string,
    currentPriceUsd: real,
    explorer: string,
    state: string)

  /** `liveData[vault.identity.toLowerCase()]` */
  function LivePrice(v: Vault, prices: map<string, real>): Option<real>
  {
    Get(prices, Lower(v.identity))
  }

  /** The direction of a move from `oldPrice` to `newPrice`; Neutral when equal. */
  function Classify(newPrice: real, oldPrice: real): (c: PriceChange)
    ensures c == Up <==> newPrice > oldPrice
    ensures c == Down <==> newPrice < oldPrice
    ensures c == Neutral <==> newPrice == oldPrice
  {
    if newPrice > oldPrice then Up else if newPrice < oldPrice then Down else Neutral
  }

  /** The row the `map` callback returns for one vault. */
  function MergeRow(v: Vault, prices: map<string, real>): (r: Vault)
    ensures !Truthy(LivePrice(v, prices)) ==> r == v
    ensures Truthy(LivePrice(v, prices)) ==>
      r.currentPriceUsd == prices[Lower(v.identity)] && r.(currentPriceUsd := v.currentPriceUsd) == v
  {
    var p := LivePrice(v, prices);
    if !Truthy(p) then v else v.(currentPriceUsd := p.value)
  }

  /** `prevVaults.map(...)` */
  function MergeRows(rows: seq<Vault>, prices: map<string, real>): seq<Vault>
  {
    seq(|rows|, k requires 0 <= k < |rows| => MergeRow(rows[k], prices))
  }

  /** The mark the callback records for a row, Neutral when it records none. */
  function RowMark(v: Vault, prices: map<string, real>): (c: PriceChange)
    ensures c != Neutral <==> Truthy(LivePrice(v, prices)) && prices[Lower(v.identity)] != v.currentPriceUsd
  {
    var p := LivePrice(v, prices);
    if !Truthy(p) then Neutral else Classify(p.value, v.currentPriceUsd)
  }

  /** One `setPriceChanges` update, keyed by the identity as written. */
  function MarkRow(marks: map<string, PriceChange>, v: Vault, prices: map<string, real>): map<string, PriceChange>
  {
    if RowMark(v, prices) != Neutral then marks[v.identity := RowMark(v, prices)] else marks
  }

  /** The mark updates of a whole message, applied row by row in table order. */
  function MarkRows(marks: map<string, PriceChange>, rows: seq<Vault>, prices: map<string, real>): map<string, PriceChange>
    decreases |rows|
  {
    if rows == [] then marks else MarkRows(MarkRow(marks, rows[0], prices), rows[1..], prices)
  }

  /** The identities whose mark a 500 ms timer will clear, in scheduling order. */
  function Scheduled(rows: seq<Vault>, prices: map<string, real>): seq<string>
    decreases |rows|
  {
    if rows == [] then []
    else
      var last := rows[|rows| - 1];
      Scheduled(rows[..|rows| - 1], prices) + (if RowMark(last, prices) != Neutral then [last.identity] else [])
  }

  /** The timer's `setPriceChanges`: the identity's mark becomes null. */
  function Cleared(marks: map<string, PriceChange>, identity: string): (r: map<string, PriceChange>)
    ensures r.Keys == marks.Keys + {identity}
    ensures r[identity] == Neutral
    ensures forall other :: other in marks && other != identity ==> r[other] == marks[other]
  {
    marks[identity := Neutral]
  }

  /** Every scheduled timer firing, in order. */
  function ClearAll(marks: map<string, PriceChange>, identities: seq<string>): map<string, PriceChange>
    decreases |identities|
  {
    if identities == [] then marks else ClearAll(Cleared(marks, identities[0]), identities[1..])
  }

  /** Firing the timers resets exactly the identities they were scheduled for. */
  lemma {:induction false} ClearAllResets(marks: map<string, PriceChange>, identities: seq<string>, identity: string)
    ensures identity in identities ==> identity in ClearAll(marks, identities) && ClearAll(marks, identities)[identity] == Neutral
    ensures identity !in identities ==> (identity in ClearAll(marks, identities) <==> identity in marks)
    ensures identity !in identities && identity in marks ==> ClearAll(marks, identities)[identity] == marks[identity]
    decreases |identities|
  {
    if identities != [] {
      ClearAllResets(Cleared(marks, identities[0]), identities[1..], identity);
      if identity in identities && identity !in identities[1..] {
        assert identity == identities[0];
        ClearAllFrom(Cleared(marks, identity), identities[1..], identity);
      }
    }
  }

  /** A timer for another identity leaves a mark alone. */
  lemma {:induction false} ClearAllFrom(marks: map<string, PriceChange>, identities: seq<string>, identity: string)
    requires identity !in identities && identity in marks
    ensures identity in ClearAll(marks, identities) && ClearAll(marks, identities)[identity] == marks[identity]
    decreases |identities|
  {
    if identities != [] {
      ClearAllFrom(Cleared(marks, identities[0]), identities[1..], identity);
    }
  }

  /** The merge keeps the number and the order of the rows, and touches only prices. */
  lemma MergeRowsShape(rows: seq<Vault>, prices: map<string, real>)
    ensures |MergeRows(rows, prices)| == |rows|
    ensures forall k :: 0 <= k < |rows| ==>
      MergeRows(rows, prices)[k].(currentPriceUsd := rows[k].currentPriceUsd) == rows[k]
  {
  }

  /** A mark never lands on an identity no row of the message marked. */
  lemma {:induction false} MarkRowsUntouched(marks: map<string, PriceChange>, rows: seq<Vault>,
                                             prices: map<string, real>, identity: string)
    requires forall j :: 0 <= j < |rows| && rows[j].identity == identity ==> RowMark(rows[j], prices) == Neutral
    ensures identity in MarkRows(marks, rows, prices) <==> identity in marks
    ensures identity in marks ==> MarkRows(marks, rows, prices)[identity] == marks[identity]
    decreases |rows|
  {
    if rows != [] {
      MarkRowsUntouched(MarkRow(marks, rows[0], prices), rows[1..], prices, identity);
    }
  }

  /** The last row of an identity that moved decides that identity's mark. */
  lemma {:induction false} MarkRowsLastWins(marks: map<string, PriceChange>, rows: seq<Vault>,
                                            prices: map<string, real>, k: nat)
    requires k < |rows| && RowMark(rows[k], prices) != Neutral
    requires forall j :: k < j < |rows| && rows[j].identity == rows[k].identity ==> RowMark(rows[j], prices) == Neutral
    ensures rows[k].identity in MarkRows(marks, rows, prices)
    ensures MarkRows(marks, rows, prices)[rows[k].identity] == RowMark(rows[k], prices)
    decreases |rows|
  {
    var next := MarkRow(marks, rows[0], prices);
    if k == 0 {
      MarkRowsUntouched(next, rows[1..], prices, rows[0].identity);
    } else {
      MarkRowsLastWins(next, rows[1..], prices, k - 1);
    }
  }

  /** With distinct identities, every row is marked by its own price move. */
  lemma MarkRowsDistinct(marks: map<string, PriceChange>, rows: seq<Vault>, prices: map<string, real>, k: nat)
    requires k < |rows|
    requires forall i, j :: 0 <= i < j < |rows| ==> rows[i].identity != rows[j].identity
    ensures var key := Lower(rows[k].identity);
      var r := MarkRows(marks, rows, prices);
      && (key in prices && prices[key] != 0.0 && prices[key] > rows[k].currentPriceUsd ==> rows[k].identity in r && r[rows[k].identity] == Up)
      && (key in prices && prices[key] != 0.0 && prices[key] < rows[k].currentPriceUsd ==> rows[k].identity in r && r[rows[k].identity] == Down)
      && (!(key in prices && prices[key] != 0.0 && prices[key] != rows[k].currentPriceUsd) ==>
            (rows[k].identity in r <==> rows[k].identity in marks) &&
            (rows[k].identity in marks ==> r[rows[k].identity] == marks[rows[k].identity]))
  {
    if RowMark(rows[k], prices) != Neutral {
      MarkRowsLastWins(marks, rows, prices, k);
    } else {
      MarkRowsUntouched(marks, rows, prices, rows[k].identity);
    }
  }

  /** Exactly the identities of the rows that moved have a clear scheduled. */
  lemma {:induction false} ScheduledIffMarked(rows: seq<Vault>, prices: map<string, real>, identity: string)
    ensures identity in Scheduled(rows, prices) <==>
      exists j :: 0 <= j < |rows| && rows[j].identity == identity && RowMark(rows[j], prices) != Neutral
    decreases |rows|
  {
    if rows != [] {
      var init := rows[..|rows| - 1];
      ScheduledIffMarked(init, prices, identity);
      if exists j :: 0 <= j < |init| && init[j].identity == identity && RowMark(init[j], prices) != Neutral {
        var j :| 0 <= j < |init| && init[j].identity == identity && RowMark(init[j], prices) != Neutral;
        assert rows[j] == init[j];
      }
      if exists j :: 0 <= j < |rows| && rows[j].identity == identity && RowMark(rows[j], prices) != Neutral {
        var j :| 0 <= j < |rows| && rows[j].identity == identity && RowMark(rows[j], prices) != Neutral;
        if j < |init| {
          assert init[j] == rows[j];
        }
      }
    }
  }

  /** A message never removes a mark. */
  lemma {:induction false} MarkRowsGrows(marks: map<string, PriceChange>, rows: seq<Vault>, prices: map<string, real>)
    ensures marks.Keys <= MarkRows(marks, rows, prices).Keys
    decreases |rows|
  {
    if rows != [] {
      MarkRowsGrows(MarkRow(marks, rows[0], prices), rows[1..], prices);
    }
  }

  /** Every row that moved leaves a mark under its identity. */
  lemma {:induction false} MarkRowsHasMoved(marks: map<string, PriceChange>, rows: seq<Vault>,
                                            prices: map<string, real>, j: nat)
    requires j < |rows| && RowMark(rows[j], prices) != Neutral
    ensures rows[j].identity in MarkRows(marks, rows, prices)
    decreases |rows|
  {
    var next := MarkRow(marks, rows[0], prices);
    if j == 0 {
      MarkRowsGrows(next, rows[1..], prices);
    } else {
      MarkRowsHasMoved(next, rows[1..], prices, j - 1);
    }
  }

  /** After a message, the identities holding a mark are the earlier ones and the scheduled ones. */
  lemma MarkRowsKeys(marks: map<string, PriceChange>, rows: seq<Vault>, prices: map<string, real>, identity: string)
    ensures identity in MarkRows(marks, rows, prices) <==> identity in marks || identity in Scheduled(rows, prices)
  {
    ScheduledIffMarked(rows, prices, identity);
    if exists j :: 0 <= j < |rows| && rows[j].identity == identity && RowMark(rows[j], prices) != Neutral {
      var j :| 0 <= j < |rows| && rows[j].identity == identity && RowMark(rows[j], prices) != Neutral;
      MarkRowsHasMoved(marks, rows, prices, j);
    } else {
      MarkRowsUntouched(marks, rows, prices, identity);
    }
  }

  /** One turn of the loop over the rows: the next row's mark is recorded, and its clear scheduled. */
  lemma MarkStep(marks: map<string, PriceChange>, rows: seq<Vault>, prices: map<string, real>, i: nat)
    requires i < |rows|
    ensures MarkRows(marks, rows[i..], prices) == MarkRows(MarkRow(marks, rows[i], prices), rows[i + 1..], prices)
    ensures Scheduled(rows[..i + 1], prices) ==
      Scheduled(rows[..i], prices) + (if RowMark(rows[i], prices) != Neutral then [rows[i].identity] else [])
  {
    assert rows[i..][0] == rows[i] && rows[i..][1..] == rows[i + 1..];
    assert rows[..i + 1][..i] == rows[..i];
  }

  /** One turn of the `map`: the next row's merged form is appended. */
  lemma MergeStep(rows: seq<Vault>, prices: map<string, real>, i: nat)
    requires i < |rows|
    ensures MergeRows(rows[..i + 1], prices) == MergeRows(rows[..i], prices) + [MergeRow(rows[i], prices)]
  {
  }

  /**
   * Once the timers a message scheduled have fired, every identity the message
   * marked is back to null and every other identity keeps its earlier mark.
   */
  lemma MarksRevert(marks: map<string, PriceChange>, rows: seq<Vault>, prices: map<string, real>, identity: string)
    ensures var r := ClearAll(MarkRows(marks, rows, prices), Scheduled(rows, prices));
      && ((exists j :: 0 <= j < |rows| && rows[j].identity == identity && RowMark(rows[j], prices) != Neutral) ==>
            identity in r && r[identity] == Neutral)
      && ((forall j :: 0 <= j < |rows| && rows[j].identity == identity ==> RowMark(rows[j], prices) == Neutral) ==>
            (identity in r <==> identity in marks) && (identity in marks ==> r[identity] == marks[identity]))
  {
    ScheduledIffMarked(rows, prices, identity);
    ClearAllResets(MarkRows(marks, rows, prices), Scheduled(rows, prices), identity);
    if forall j :: 0 <= j < |rows| && rows[j].identity == identity ==> RowMark(rows[j], prices) == Neutral {
      MarkRowsUntouched(marks, rows, prices, identity);
    }
  }

  /** The table state the page keeps between WebSocket messages. */
  class MarketPage {
    var vaults: seq<Vault>
    var priceChanges: map<string, PriceChange>

    /** `useState<any[]>([])` and `useState({})` */
    constructor ()
      ensures vaults == [] && priceChanges == map[]
    {
      vaults := [];
      priceChanges := map[];
    }

    /** `setVaults(data.data)` once the asset list has loaded. */
    method ReceiveAssets(rows: seq<Vault>)
      modifies this
      ensures vaults == rows && priceChanges == old(priceChanges)
    {
      vaults := rows;
    }

    /**
     * `ws.onmessage`: merges the message into the rows and records a mark per
     * moved row; returns the identities whose mark a timer will clear.
     */
    method OnMessage(msg: Message) returns (scheduled: seq<string>)
      modifies this
      ensures !msg.Object? ==> vaults == old(vaults) && priceChanges == old(priceChanges) && scheduled == []
      ensures msg.Object? ==>
        && vaults == MergeRows(old(vaults), msg.prices)
        && priceChanges == MarkRows(old(priceChanges), old(vaults), msg.prices)
        && scheduled == Scheduled(old(vaults), msg.prices)
    {
      scheduled := [];
      if !msg.Object? {
        return;
      }
      var liveData := msg.prices;
      var rows := vaults;
      var merged: seq<Vault> := [];
      var i := 0;
      while i < |rows|
        invariant 0 <= i <= |rows|
        invariant merged == MergeRows(rows[..i], liveData)
        invariant MarkRows(priceChanges, rows[i..], liveData) == MarkRows(old(priceChanges), rows, liveData)
        invariant scheduled == Scheduled(rows[..i], liveData)
      {
        var vault := rows[i];
        var newPrice := LivePrice(vault, liveData);
        MarkStep(priceChanges, rows, liveData, i);
        MergeStep(rows, liveData, i);
        if !Truthy(newPrice) {
          merged := merged + [vault];
        } else {
          var change := Classify(newPrice.value, vault.currentPriceUsd);
          if change != Neutral {
            priceChanges := priceChanges[vault.identity := change];
            scheduled := scheduled + [vault.identity];
          }
          merged := merged + [vault.(currentPriceUsd := newPrice.value)];
        }
        i := i + 1;
      }
      assert rows[..i] == rows;
      vaults := merged;
    }

    /** The 500 ms timer: resets one identity's mark to null. */
    method ClearMark(identity: string)
      modifies this
      ensures priceChanges == Cleared(old(priceChanges), identity)
      ensures vaults == old(vaults)
    {
      priceChanges := priceChanges[identity := Neutral];
    }
  }

  /** A message `{"btc": 50000}` moves a `btc` row at 49000 up; `{"eth": 3000}` leaves it alone. */
  lemma BtcExample(v: Vault)
    requires v.identity == "btc" && v.currentPriceUsd == 49000.0
    ensures MergeRows([v], map["btc" := 50000.0]) == [v.(currentPriceUsd := 50000.0)]
    ensures MarkRows(map[], [v], map["btc" := 50000.0]) == map["btc" := Up]
    ensures MergeRows([v], map["eth" := 3000.0]) == [v]
    ensures MarkRows(map[], [v], map["eth" := 3000.0]) == map[]
  {
    assert Lower("btc") == "btc";
  }

  /** The lookup lower-cases the identity but the mark is stored under the identity as written. */
  lemma MarkKeyNotLowered(v: Vault)
    requires v.identity == "BTC" && v.currentPriceUsd == 49000.0
    ensures MarkRows(map[], [v], map["btc" := 50000.0]) == map["BTC" := Up]
    ensures "btc" !in MarkRows(map[], [v], map["btc" := 50000.0])
  {
    assert Lower("BTC") == "btc";
  }
}
