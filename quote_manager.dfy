/**
 * The quote manager (Services/QuoteManager.cs): a quote book indexed by Id and by
 * symbol, kept in agreement by every operation, with lazy eviction of stale quotes
 * and greedy cheapest-first trade execution.
 *
 * `DateTime.Now` is the parameter `now`, and `Guid.NewGuid()` is a caller-supplied
 * Id (`freshId`, `tradeId`). A thrown exception is a returned `Error`.
 */
module Services {
  import opened Wrappers
  import opened Model
  import opened QuoteRules
  import PQ = PriorityQueue
  import opened QuoteBook
  import opened Matching
  import opened Eviction

  /** The exceptions the manager throws, one per message it throws them with. */
  datatype Error =
    | NullQuoteArgument     // ArgumentNullException: the quote is null
    | ExpiredQuote          // ArgumentException: adding or updating an expired quote
    | NoActiveQuote         // KeyNotFoundException: unknown Id, or symbol without a queue
    | ZeroRequestedVolume   // ArgumentException: a trade for volume 0
    | NullSymbol            // ArgumentNullException: the symbol is null
    | EmptyGuidId           // ArgumentException: the Id is Guid.Empty

  /**
   * The scan loop of `GetBestQuoteWithAvailableVolume`, run on the two indices: while
   * the queue of s is not empty and the iteration bound allows, a valid front quote
   * ends the scan and an invalid one is dequeued and dropped from the book, with the
   * queue's entry dropped once it empties. The iteration bound starts at the queue's
   * length and goes down with it, so it never stops the scan early.
   */
  method ScanQueue(book0: Book, index0: map<string, PQ.Queue>, s: string, now: DateTime)
    returns (book: Book, index: map<string, PQ.Queue>, quote: Option<Quote>)
    requires WellKeyed(book0) && index0 == BySymbol(book0) && s in index0
    ensures WellKeyed(book) && index == BySymbol(book)
    ensures ScanResult(book0, book, index, s, now, quote)
  {
    quote := None;
    book, index := book0, index0;
    var pricingPriorityQueue := index[s];
    var maxQueueIterations := |pricingPriorityQueue|;
    ScanStart(book, s, now);
    while |pricingPriorityQueue| != 0 && maxQueueIterations != 0
      invariant Scanning(book0, book, index, s, pricingPriorityQueue, now) && quote.None?
      invariant maxQueueIterations == |pricingPriorityQueue|
      decreases |pricingPriorityQueue|
    {
      var g := PQ.First(pricingPriorityQueue);
      FrontIsStored(book0, book, index, s, pricingPriorityQueue, g, now);
      var firstQuote := book[g];
      if IsValidQuote(firstQuote, now) {
        // Storing the queue back under s: it is the entry the index already holds.
        FirstIsCheapest(book0, book, index, s, pricingPriorityQueue, g, now);
        StoreBack(index, s, pricingPriorityQueue);
        index := index[s := pricingPriorityQueue];
        quote := Some(firstQuote);
        break;
      }
      // Dequeue takes out the quote First returned; the queue is shared with the
      // index, so the index entry for s shrinks with it.
      EvictFirst(book0, book, index, s, pricingPriorityQueue, g, now);
      PQ.CountAfterRemove(pricingPriorityQueue, g);
      pricingPriorityQueue := pricingPriorityQueue - {g};
      if |pricingPriorityQueue| == 0 {
        index := index - {firstQuote.symbol};
      } else {
        index := index[s := pricingPriorityQueue];
      }
      book := book - {firstQuote.id.value};
      maxQueueIterations := maxQueueIterations - 1;
    }
    if quote.None? {
      ScanExhausted(book0, book, index, s, now);
    }
  }

  /**
   * The drain loop of `RemoveAllQuotes`, run on the book: dequeues the queue until it is
   * empty and takes each dequeued Id out of the book.
   */
  method DrainQueue(book0: Book, queue0: PQ.Queue) returns (book: Book)
    ensures book == book0 - queue0.Keys
  {
    book := book0;
    var pricingPriorityQueue := queue0;
    ghost var removed: set<Guid> := {};
    while |pricingPriorityQueue| != 0
      invariant queue0.Keys == removed + pricingPriorityQueue.Keys
      invariant book == book0 - removed
      decreases |pricingPriorityQueue|
    {
      var g, rest := PQ.Dequeue(pricingPriorityQueue);
      PQ.CountAfterRemove(pricingPriorityQueue, g);
      RemoveOneMore(book0, removed, g);
      pricingPriorityQueue := rest;
      book := book - {g};
      removed := removed + {g};
    }
    assert removed == queue0.Keys;
  }

  /**
   * The bookkeeping half of one pass of the trade loop: the volume executed so far is what
   * the request no longer needs, and the fill's price times its volume joins the trade's
   * total price, which stays the notional of the fills made.
   */
  method RecordFill(volumeRequested: uint32, remaining: uint32, tradeTotalPrice: real, price: real, used: uint32,
                    ghost fills: seq<Fill>, ghost fill: Fill)
    returns (volumeExecuted: uint32, newTotal: real, ghost newFills: seq<Fill>)
    requires remaining <= volumeRequested
    requires fill.price == price && fill.volume == used
    requires tradeTotalPrice == Notional(fills)
    ensures volumeExecuted == volumeRequested - remaining
    ensures newFills == fills + [fill]
    ensures SumVolume(newFills) == SumVolume(fills) + used
    ensures newTotal == Notional(newFills)
  {
    volumeExecuted := volumeRequested - remaining;
    newTotal := tradeTotalPrice + price * used as real;
    SumsOfSnoc(fills, fill, price, used);
    newFills := fills + [fill];
  }

  class QuoteManager {
    /** Quotes by Id. */
    var quoteBook: Book
    /** Per symbol, the priority queue of its quotes ordered by price. */
    var symbolsQuoteBook: map<string, PQ.Queue>

    /** The two indices agree: the by-symbol index holds exactly the quotes of the book, at their prices. */
    ghost predicate Valid()
      reads this
    {
      WellKeyed(quoteBook) && symbolsQuoteBook == BySymbol(quoteBook)
    }

    constructor ()
      ensures Valid()
      ensures quoteBook == map[] && symbolsQuoteBook == map[]
    {
      quoteBook := map[];
      symbolsQuoteBook := map[];
      EmptyBookHasEmptyIndex();
    }

    /**
     * Adds a quote without an Id under freshId, or replaces the stored quote with the
     * given quote's Id. Null and expired quotes are refused before the Id is looked at,
     * so the expiry check guards updates as well as additions.
     */
    method AddOrUpdateQuote(quote: Option<Quote>, now: DateTime, freshId: Guid) returns (outcome: Outcome<Error>)
      requires Valid()
      requires freshId != EmptyGuid && freshId !in quoteBook
      modifies this
      ensures Valid()
      ensures quote.None? ==> outcome == Fail(NullQuoteArgument)
      ensures quote.Some? && IsExpiredQuote(quote.value, now) ==> outcome == Fail(ExpiredQuote)
      ensures (quote.Some? && !IsExpiredQuote(quote.value, now) && quote.value.id.Some? &&
               quote.value.id.value !in old(quoteBook)) ==> outcome == Fail(NoActiveQuote)
      ensures (quote.Some? && !IsExpiredQuote(quote.value, now) &&
               (quote.value.id.None? || quote.value.id.value in old(quoteBook))) ==> outcome.Pass?
      ensures outcome.Fail? ==> quoteBook == old(quoteBook) && symbolsQuoteBook == old(symbolsQuoteBook)
      ensures outcome.Pass? ==>
                quote.Some? && !IsExpiredQuote(quote.value, now) &&
                if quote.value.id.Some? then
                  quote.value.id.value in old(quoteBook) &&
                  quoteBook == old(quoteBook)[quote.value.id.value := quote.value]
                else
                  quoteBook == old(quoteBook)[freshId := quote.value.(id := Some(freshId))]
    {
      if quote.None? {
        return Fail(NullQuoteArgument);
      }
      var q := quote.value;
      if IsExpiredQuote(q, now) {
        return Fail(ExpiredQuote);
      }
      if q.id.Some? {
        if q.id.value !in quoteBook {
          return Fail(NoActiveQuote);
        }
        UpdateQuote(q);
      } else {
        AddQuoteWithId(freshId, q);
      }
      return Pass;
    }

    /**
     * Executes a buy of volumeRequested on symbol: repeatedly takes the best quote and
     * consumes as much of it as the rest of the request needs. The fills made are the
     * ghost result fills.
     */
    method ExecuteTrade(symbol: Option<string>, volumeRequested: uint32, now: DateTime, tradeId: Guid)
      returns (result: Result<TradeResult, Error>, ghost fills: seq<Fill>)
      requires Valid()
      modifies this
      ensures Valid()
      ensures symbol.None? ==> result == Failure(NullSymbol)
      ensures symbol.Some? && volumeRequested == 0 ==> result == Failure(ZeroRequestedVolume)
      ensures result.Failure? ==> quoteBook == old(quoteBook) && symbolsQuoteBook == old(symbolsQuoteBook)
      ensures symbol.Some? && volumeRequested != 0 ==> result.Success?
      ensures result.Success? ==>
                var t := result.value;
                symbol.Some? && volumeRequested != 0 &&
                t.id == tradeId && t.symbol == symbol.value && t.volumeRequested == volumeRequested &&
                t.volumeExecuted <= volumeRequested && t.volumeExecuted == SumVolume(fills) &&
                GreedyFills(Live(old(quoteBook), symbol.value, now), volumeRequested, fills,
                            Live(quoteBook, symbol.value, now), volumeRequested - t.volumeExecuted) &&
                Complete(Live(quoteBook, symbol.value, now), volumeRequested - t.volumeExecuted) &&
                t.volumeWeightedAveragePrice == GetWeightedAveragePrice(t.volumeExecuted, Notional(fills)) &&
                Traded(old(quoteBook), quoteBook, symbol.value) &&
                KeepsInvalid(old(quoteBook), quoteBook, now)
    {
      fills := [];
      if symbol.None? {
        return Failure(NullSymbol), fills;
      }
      if volumeRequested == 0 {
        return Failure(ZeroRequestedVolume), fills;
      }
      var s := symbol.value;
      var volumeExecuted: uint32, tradeTotalPrice: real;
      volumeExecuted, tradeTotalPrice, fills := FillRequest(s, volumeRequested, now);
      var vwap := GetWeightedAveragePrice(volumeExecuted, tradeTotalPrice);
      return Success(TradeResult(tradeId, s, vwap, volumeRequested, volumeExecuted)), fills;
    }

    /**
     * The fill loop of `ExecuteTrade`: while some of the request remains, takes the best
     * valid quote of s (evicting stale ones on the way) and fills from it, and stops early
     * when s has no valid quote left. The fills it makes are the greedy run from the live
     * quotes at entry, and the run stops only when the request is met or nothing is left.
     */
    method FillRequest(s: string, volumeRequested: uint32, now: DateTime)
      returns (volumeExecuted: uint32, tradeTotalPrice: real, ghost fills: seq<Fill>)
      requires Valid()
      modifies this
      ensures Valid()
      ensures volumeExecuted <= volumeRequested && volumeExecuted == SumVolume(fills)
      ensures tradeTotalPrice == Notional(fills)
      ensures GreedyFills(Live(old(quoteBook), s, now), volumeRequested, fills,
                          Live(quoteBook, s, now), volumeRequested - volumeExecuted)
      ensures Complete(Live(quoteBook, s, now), volumeRequested - volumeExecuted)
      ensures Traded(old(quoteBook), quoteBook, s)
      ensures KeepsInvalid(old(quoteBook), quoteBook, now)
    {
      fills := [];
      var remainingVolumeRequested: uint32 := volumeRequested;
      volumeExecuted := 0;
      tradeTotalPrice := 0.0;
      TradeStart(quoteBook, volumeRequested, s, now);

      while remainingVolumeRequested != 0
        invariant Valid()
        invariant Trading(old(quoteBook), volumeRequested, fills, quoteBook, remainingVolumeRequested, s, now)
        invariant volumeExecuted == volumeRequested - remainingVolumeRequested
        invariant SumVolume(fills) == volumeExecuted && tradeTotalPrice == Notional(fills)
        invariant KeepsInvalid(old(quoteBook), quoteBook, now)
        decreases remainingVolumeRequested
      {
        ghost var bookBefore := quoteBook;
        var best := GetBestQuoteWithAvailableVolume(Some(s), now);
        TradeEvicted(old(quoteBook), volumeRequested, fills, bookBefore, remainingVolumeRequested, quoteBook, s, now);
        EvictionKeepsLive(bookBefore, quoteBook, s, s, now);
        if best.value.None? {
          break;
        }
        remainingVolumeRequested, volumeExecuted, tradeTotalPrice, fills :=
          AdvanceTrade(old(quoteBook), volumeRequested, fills, s, now, best.value.value,
                       remainingVolumeRequested, volumeExecuted, tradeTotalPrice);
      }

      assert volumeRequested - volumeExecuted == remainingVolumeRequested;
    }

    /**
     * One pass of the trade loop once the best quote is known: fills from it and keeps the
     * loop's invariant, the fills made so far being a greedy run from the live quotes at the
     * start of the trade.
     */
    method AdvanceTrade(ghost start: Book, volumeRequested: uint32, ghost fills: seq<Fill>, s: string, now: DateTime,
                        bestQuote: Quote, remaining: uint32, volumeExecuted: uint32, tradeTotalPrice: real)
      returns (newRemaining: uint32, newExecuted: uint32, newTotal: real, ghost newFills: seq<Fill>)
      requires Valid()
      requires Trading(start, volumeRequested, fills, quoteBook, remaining, s, now) && 0 < remaining
      requires volumeExecuted == volumeRequested - remaining
      requires SumVolume(fills) == volumeExecuted && tradeTotalPrice == Notional(fills)
      requires bestQuote.id.Some? && bestQuote.id.value in quoteBook && quoteBook[bestQuote.id.value] == bestQuote
      requires IsCheapest(Live(quoteBook, s, now), bestQuote.id.value)
      requires KeepsInvalid(start, quoteBook, now)
      modifies this
      ensures Valid()
      ensures Trading(start, volumeRequested, newFills, quoteBook, newRemaining, s, now)
      ensures newExecuted == volumeRequested - newRemaining
      ensures SumVolume(newFills) == newExecuted && newTotal == Notional(newFills)
      ensures newRemaining < remaining
      ensures KeepsInvalid(start, quoteBook, now)
    {
      ghost var g, bookBefore := bestQuote.id.value, quoteBook;
      ghost var fill := Fill(g, bestQuote.price, Min(remaining, bestQuote.availableVolume));
      newRemaining, newExecuted, newTotal, newFills :=
        FillBest(volumeRequested, fills, bestQuote, remaining, volumeExecuted, tradeTotalPrice);
      TradeFill(start, volumeRequested, fills, bookBefore, remaining, s, now, g, bestQuote, fill,
                bestQuote.availableVolume - fill.volume, quoteBook, newRemaining);
    }

    /**
     * The fill half of one pass of the trade loop: takes as much of the remaining request
     * as bestQuote holds, at its price, writes the quote back with its available volume
     * reduced by what was taken, and adds the fill to the trade's executed volume and
     * total price.
     */
    method FillBest(volumeRequested: uint32, ghost fills: seq<Fill>, bestQuote: Quote, remaining: uint32,
                    volumeExecuted: uint32, tradeTotalPrice: real)
      returns (newRemaining: uint32, newExecuted: uint32, newTotal: real, ghost newFills: seq<Fill>)
      requires Valid()
      requires volumeExecuted == volumeRequested - remaining
      requires SumVolume(fills) == volumeExecuted && tradeTotalPrice == Notional(fills)
      requires bestQuote.id.Some? && bestQuote.id.value in quoteBook && quoteBook[bestQuote.id.value] == bestQuote
      modifies this
      ensures Valid()
      ensures newRemaining == remaining - Min(remaining, bestQuote.availableVolume)
      ensures newFills == fills + [Fill(bestQuote.id.value, bestQuote.price, Min(remaining, bestQuote.availableVolume))]
      ensures quoteBook == old(quoteBook)[bestQuote.id.value :=
                bestQuote.(availableVolume := bestQuote.availableVolume - Min(remaining, bestQuote.availableVolume))]
      ensures newExecuted == volumeRequested - newRemaining
      ensures SumVolume(newFills) == newExecuted && newTotal == Notional(newFills)
    {
      var quoteVolume := bestQuote.availableVolume;
      var step := Consume(remaining, quoteVolume);
      newRemaining := step.newRemaining;
      var updated := bestQuote.(availableVolume := step.newAvailable);
      assert updated.id.value == bestQuote.id.value;
      UpdateQuote(updated);
      newExecuted, newTotal, newFills :=
        RecordFill(volumeRequested, newRemaining, tradeTotalPrice, bestQuote.price, step.used, fills,
                   Fill(bestQuote.id.value, bestQuote.price, step.used));
    }

    /**
     * Returns a cheapest valid quote of symbol, or None when it has none. Invalid quotes
     * found at the front of the queue are evicted from both indices on the way, and a
     * queue that empties is dropped. The scan never runs longer than the queue's length
     * at entry: the iteration bound and the queue length go down together.
     */
    method GetBestQuoteWithAvailableVolume(symbol: Option<string>, now: DateTime)
      returns (result: Result<Option<Quote>, Error>)
      requires Valid()
      modifies this
      ensures Valid()
      ensures symbol.None? ==> result == Failure(NullSymbol) && quoteBook == old(quoteBook)
      ensures symbol.Some? ==> result.Success?
      ensures result.Success? ==>
                symbol.Some? && ScanResult(old(quoteBook), quoteBook, symbolsQuoteBook, symbol.value, now, result.value)
    {
      if symbol.None? {
        return Failure(NullSymbol);
      }
      var s := symbol.value;
      var quote: Option<Quote> := None;
      if s in symbolsQuoteBook {
        var book, index;
        book, index, quote := ScanQueue(quoteBook, symbolsQuoteBook, s, now);
        quoteBook, symbolsQuoteBook := book, index;
      } else {
        NoQueueNoLive(quoteBook, quoteBook, s, now);
      }
      return Success(quote);
    }

    /**
     * Removes every quote of symbol from both indices and drops its queue. A symbol
     * with no queue is an error, as it is in the code.
     */
    method RemoveAllQuotes(symbol: Option<string>) returns (outcome: Outcome<Error>)
      requires Valid()
      modifies this
      ensures Valid()
      ensures symbol.None? ==> outcome == Fail(NullSymbol)
      ensures symbol.Some? && symbol.value !in old(symbolsQuoteBook) ==> outcome == Fail(NoActiveQuote)
      ensures symbol.Some? && symbol.value in old(symbolsQuoteBook) ==> outcome.Pass?
      ensures outcome.Fail? ==> quoteBook == old(quoteBook) && symbolsQuoteBook == old(symbolsQuoteBook)
      ensures outcome.Pass? ==>
                symbol.Some? && symbol.value in old(symbolsQuoteBook) &&
                quoteBook == WithoutSymbol(old(quoteBook), symbol.value) &&
                symbolsQuoteBook == old(symbolsQuoteBook) - {symbol.value}
    {
      if symbol.None? {
        return Fail(NullSymbol);
      }
      var s := symbol.value;
      if s !in symbolsQuoteBook {
        return Fail(NoActiveQuote);
      }
      DrainSymbol(quoteBook, s);
      var book := DrainQueue(quoteBook, symbolsQuoteBook[s]);
      quoteBook := book;
      symbolsQuoteBook := symbolsQuoteBook - {s};
      return Pass;
    }

    /**
     * Removes the quote with Id id from both indices, dropping its symbol's queue when
     * it was the last quote there. An unknown Id is an error, as it is in the code.
     */
    method RemoveQuote(id: Guid) returns (outcome: Outcome<Error>)
      requires Valid()
      modifies this
      ensures Valid()
      ensures id == EmptyGuid ==> outcome == Fail(EmptyGuidId)
      ensures id != EmptyGuid && id !in old(quoteBook) ==> outcome == Fail(NoActiveQuote)
      ensures id != EmptyGuid && id in old(quoteBook) ==> outcome.Pass?
      ensures outcome.Fail? ==> quoteBook == old(quoteBook) && symbolsQuoteBook == old(symbolsQuoteBook)
      ensures outcome.Pass? ==> id in old(quoteBook) && quoteBook == old(quoteBook) - {id}
      ensures outcome.Pass? ==>
                var s := old(quoteBook)[id].symbol;
                var queue := old(symbolsQuoteBook)[s];
                symbolsQuoteBook == if queue.Keys == {id} then old(symbolsQuoteBook) - {s}
                                    else old(symbolsQuoteBook)[s := queue - {id}]
    {
      if id == EmptyGuid {
        return Fail(EmptyGuidId);
      }
      if id !in quoteBook {
        return Fail(NoActiveQuote);
      }
      var quote := quoteBook[id];
      RemoveFromIndex(quoteBook, id);
      var pricingPriorityQueue := symbolsQuoteBook[quote.symbol];
      pricingPriorityQueue := pricingPriorityQueue - {id};
      if |pricingPriorityQueue| == 0 {
        symbolsQuoteBook := symbolsQuoteBook - {quote.symbol};
      } else {
        symbolsQuoteBook := symbolsQuoteBook[quote.symbol := pricingPriorityQueue];
      }
      quoteBook := quoteBook - {id};
      return Pass;
    }

    /** Replaces a stored quote by removing it and adding the new one under the same Id. */
    method UpdateQuote(quote: Quote)
      requires Valid()
      requires quote.id.Some? && quote.id.value in quoteBook
      modifies this
      ensures Valid()
      ensures quoteBook == old(quoteBook)[quote.id.value := quote]
    {
      ghost var g, before := quote.id.value, quoteBook;
      var removed := RemoveQuote(quote.id.value);
      assert removed.Pass? && quoteBook == before - {g};
      AddQuote(quote);
      RemoveThenInsert(before, g, quote);
    }

    /** Enqueues a quote at its price in its symbol's queue, creating the queue if needed, and stores it by Id. */
    method AddQuote(quote: Quote)
      requires Valid()
      requires quote.id.Some? && quote.id.value != EmptyGuid && quote.id.value !in quoteBook
      modifies this
      ensures Valid()
      ensures quoteBook == old(quoteBook)[quote.id.value := quote]
      ensures var queue := if quote.symbol in old(symbolsQuoteBook) then old(symbolsQuoteBook)[quote.symbol] else map[];
              symbolsQuoteBook == old(symbolsQuoteBook)[quote.symbol := queue[quote.id.value := quote.price]]
    {
      InsertIntoIndex(quoteBook, quote.id.value, quote);
      var pricingPriorityQueue: PQ.Queue;
      if quote.symbol !in symbolsQuoteBook {
        pricingPriorityQueue := map[];
      } else {
        pricingPriorityQueue := symbolsQuoteBook[quote.symbol];
      }
      pricingPriorityQueue := pricingPriorityQueue[quote.id.value := quote.price];
      symbolsQuoteBook := symbolsQuoteBook[quote.symbol := pricingPriorityQueue];
      quoteBook := quoteBook[quote.id.value := quote];
    }

    /** Gives a quote the Id id and adds it. */
    method AddQuoteWithId(id: Guid, quote: Quote)
      requires Valid()
      requires id != EmptyGuid && id !in quoteBook
      modifies this
      ensures Valid()
      ensures quoteBook == old(quoteBook)[id := quote.(id := Some(id))]
    {
      AddQuote(quote.(id := Some(id)));
    }
  }
}
