/**
 * The `useAssetPrice` hook (src/pages/market/hooks/use-asset-price.ts):
 * a symbol -> price table that every WebSocket message is merged into, and
 * a per-symbol up/down mark set only when the symbol had a truthy price.
 */
module AssetPrice {
  import opened Prices

  /** The mark for one symbol of a message, computed against the previous table. */
  function SymbolChange(prev: map<string, real>, symbol: string, newPrice: real): (c: PriceChange)
    ensures c == Up <==> symbol in prev && prev[symbol] != 0.0 && newPrice > prev[symbol]
    ensures c == Down <==> symbol in prev && prev[symbol] != 0.0 && newPrice < prev[symbol]
  {
    var oldPrice := Get(prev, symbol);
    if Truthy(oldPrice) && newPrice > oldPrice.value then Up
    else if Truthy(oldPrice) && newPrice < oldPrice.value then Down
    else Neutral
  }

  /** `{ ...prevPrices }` with every key of the message written over it. */
  function MergePrices(prev: map<string, real>, live: map<string, real>): map<string, real>
  {
    prev + live
  }

  /** The marks one message records: the symbols whose truthy old price moved. */
  function NewMarks(prev: map<string, real>, live: map<string, real>): map<string, PriceChange>
  {
    map symbol | symbol in live && SymbolChange(prev, symbol, live[symbol]) != Neutral :: SymbolChange(prev, symbol, live[symbol])
  }

  /** Every key of the message takes its new price, falsy ones included; other keys keep theirs. */
  lemma MergePricesSpec(prev: map<string, real>, live: map<string, real>)
    ensures MergePrices(prev, live).Keys == prev.Keys + live.Keys
    ensures forall symbol :: symbol in live ==> MergePrices(prev, live)[symbol] == live[symbol]
    ensures forall symbol :: symbol in prev && symbol !in live ==> MergePrices(prev, live)[symbol] == prev[symbol]
  {
  }

  /**
   * A symbol is marked exactly when it is in the message, had a truthy price
   * and moved; the mark is "up" for a rise and "down" for a fall. A first-seen
   * symbol, an old price of 0 and an unchanged price produce no mark.
   */
  lemma NewMarksSpec(prev: map<string, real>, live: map<string, real>, symbol: string)
    ensures symbol in NewMarks(prev, live) <==>
      symbol in live && symbol in prev && prev[symbol] != 0.0 && live[symbol] != prev[symbol]
    ensures symbol in NewMarks(prev, live) ==>
      (NewMarks(prev, live)[symbol] == Up <==> live[symbol] > prev[symbol])
    ensures symbol in NewMarks(prev, live) ==> NewMarks(prev, live)[symbol] != Neutral
  {
  }

  /** A second identical message marks nothing: every price already equals the new one. */
  lemma RepeatMessageNoMarks(prev: map<string, real>, live: map<string, real>)
    ensures NewMarks(MergePrices(prev, live), live) == map[]
  {
    var m := NewMarks(MergePrices(prev, live), live);
    forall symbol | symbol in live
      ensures SymbolChange(MergePrices(prev, live), symbol, live[symbol]) == Neutral
    {
    }
    assert m.Keys == {};
  }

  /** `newPrices` once the symbols in `done` have been written into the copy of `prev`. */
  ghost predicate PricesWritten(cur: map<string, real>, prev: map<string, real>, live: map<string, real>, done: set<string>)
  {
    && done <= live.Keys
    && cur.Keys == prev.Keys + done
    && (forall s :: s in done ==> cur[s] == live[s])
    && (forall s :: s in prev && s !in done ==> cur[s] == prev[s])
  }

  /** `priceChanges` once the symbols in `done` have recorded their marks over `before`. */
  ghost predicate MarksWritten(cur: map<string, PriceChange>, before: map<string, PriceChange>,
                               marks: map<string, PriceChange>, done: set<string>)
  {
    && cur.Keys == before.Keys + (done * marks.Keys)
    && (forall s :: s in done && s in marks ==> cur[s] == marks[s])
    && (forall s :: s in before && !(s in done && s in marks) ==> cur[s] == before[s])
  }

  lemma PricesWrittenStep(cur: map<string, real>, prev: map<string, real>, live: map<string, real>,
                          done: set<string>, symbol: string)
    requires PricesWritten(cur, prev, live, done) && symbol in live
    ensures PricesWritten(cur[symbol := live[symbol]], prev, live, done + {symbol})
  {
  }

  lemma PricesWrittenAll(cur: map<string, real>, prev: map<string, real>, live: map<string, real>)
    requires PricesWritten(cur, prev, live, live.Keys)
    ensures cur == MergePrices(prev, live)
  {
  }

  lemma MarksWrittenStep(cur: map<string, PriceChange>, before: map<string, PriceChange>,
                         marks: map<string, PriceChange>, done: set<string>, symbol: string)
    requires MarksWritten(cur, before, marks, done)
    ensures symbol in marks ==> MarksWritten(cur[symbol := marks[symbol]], before, marks, done + {symbol})
    ensures symbol !in marks ==> MarksWritten(cur, before, marks, done + {symbol})
  {
  }

  lemma MarksWrittenAll(cur: map<string, PriceChange>, before: map<string, PriceChange>,
                        marks: map<string, PriceChange>, done: set<string>)
    requires MarksWritten(cur, before, marks, done) && marks.Keys <= done
    ensures cur == before + marks
  {
  }

  /** The hook's state. */
  class AssetPriceFeed {
    var updatedPrices: map<string, real>
    var priceChanges: map<string, PriceChange>

    constructor ()
      ensures updatedPrices == map[] && priceChanges == map[]
    {
      updatedPrices := map[];
      priceChanges := map[];
    }

    /**
     * `ws.onmessage`: copies the table, writes every key of the message into
     * the copy and records the marks; returns the symbols whose mark a timer
     * will clear. The keys are visited in an unspecified order.
     */
    method OnMessage(msg: Message) returns (scheduled: set<string>)
      modifies this
      ensures !msg.Object? ==> updatedPrices == old(updatedPrices) && priceChanges == old(priceChanges) && scheduled == {}
      ensures msg.Object? ==>
        && updatedPrices == MergePrices(old(updatedPrices), msg.prices)
        && priceChanges == old(priceChanges) + NewMarks(old(updatedPrices), msg.prices)
        && scheduled == NewMarks(old(updatedPrices), msg.prices).Keys
    {
      scheduled := {};
      if !msg.Object? {
        return;
      }
      var liveData := msg.prices;
      var prevPrices := updatedPrices;
      var newPrices := prevPrices;
      var pending := liveData.Keys;
      ghost var done: set<string> := {};
      ghost var marks := NewMarks(prevPrices, liveData);
      ghost var oldChanges := priceChanges;
      while pending != {}
        invariant pending !! done && pending + done == liveData.Keys
        invariant PricesWritten(newPrices, prevPrices, liveData, done)
        invariant MarksWritten(priceChanges, oldChanges, marks, done)
        invariant scheduled == done * marks.Keys
        decreases pending
      {
        var symbol :| symbol in pending;
        var newPrice := liveData[symbol];
        var change := SymbolChange(prevPrices, symbol, newPrice);
        PricesWrittenStep(newPrices, prevPrices, liveData, done, symbol);
        MarksWrittenStep(priceChanges, oldChanges, marks, done, symbol);
        assert change != Neutral <==> symbol in marks;
        newPrices := newPrices[symbol := newPrice];
        if change != Neutral {
          priceChanges := priceChanges[symbol := change];
          scheduled := scheduled + {symbol};
        }
        pending := pending - {symbol};
        done := done + {symbol};
      }
      PricesWrittenAll(newPrices, prevPrices, liveData);
      MarksWrittenAll(priceChanges, oldChanges, marks, done);
      updatedPrices := newPrices;
    }

    /** The 500 ms timer: resets one symbol's mark to null. */
    method ClearMark(symbol: string)
      modifies this
      ensures priceChanges == old(priceChanges)[symbol := Neutral]
      ensures updatedPrices == old(updatedPrices)
    {
      priceChanges := priceChanges[symbol := Neutral];
    }
  }
}
