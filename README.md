# Quote book and trade matching

This project models the quote manager of a small trading service, `Services/QuoteManager.cs`, and the `Quote` entity it stores, `Model/Quote.cs`.

The manager keeps two indices:

- `quoteBook` maps a quote's Id (a `Guid?`) to the quote.
- `symbolsQuoteBook` maps a stock symbol to a price-priority queue of that symbol's quotes.

It offers these operations:

- add or update a quote;
- remove one quote, or all quotes of a symbol;
- get the cheapest valid quote of a symbol;
- execute a buy.

A quote is valid when it has available volume and has not expired. Getting the cheapest quote evicts, lazily, the invalid quotes it finds at the front of the queue. Executing a buy takes the cheapest valid quote again and again. From each one it consumes as much as the rest of the request needs. It reports the volume executed and the volume-weighted average price.

The model has these files:

- `wrappers.dfy`: `Option` (a null reference), `Result` and `Outcome`. A thrown exception is a returned error.
- `quote.dfy` (module `Model`): the `Quote` and `TradeResult` records. Also Id-based equality and the hash code, with its unchecked 32-bit wrap-around.
- `quote_rules.dfy` (module `QuoteRules`): validity, expiry, volume, one step of the fill arithmetic, and the average price.
- `priority_queue.dfy` (module `PriorityQueue`): the per-symbol queue, seen as a map from queued Id to priority. Also `First` and `Dequeue`.
- `quote_book.dfy` (module `QuoteBook`): the index a book determines, `BySymbol(book)`. Also how that index changes under insertion and removal.
- `matching.dfy` (module `Matching`): the live quotes of a symbol and lazy eviction. The specification of a trade is a greedy run of fills, each from a cheapest live quote. This file also proves properties of that run: volume conservation, cheapest-first order, and the average price lying between the lowest and highest fill price.
- `eviction.dfy` (module `Eviction`): the eviction scan of `GetBestQuoteWithAvailableVolume`, one step at a time.
- `quote_manager.dfy` (module `Services`): the `QuoteManager` class. Its two fields are the two indices. Every method keeps `Valid()`, which says that `symbolsQuoteBook == BySymbol(quoteBook)` and that every stored quote carries its key as Id. Each method states its result and its new state. Where a contract leaves part of the new state open, a line under "## Left out" that starts with the member's name says which part.
- `scenarios.dfy` (module `Scenarios`):
  - the two-trade example in the comment on `ExecuteTrade` in `Services/IQuoteManager.cs`;
  - the add-then-get unit test in `Test/QuoteManagerTests.cs`;
  - a trade against an empty book.

`DateTime.Now` is the parameter `now`. A `DateTime` is its tick count. `Guid.NewGuid()` is also a parameter: for the new quote Id it is `freshId`, and for the trade Id it is `tradeId`.

Where `Services/IQuoteManager.cs` and the code disagree, the model follows the code:

- `AddOrUpdateQuote` with an Id that is not in the book throws `KeyNotFoundException` (`Services/QuoteManager.cs:55-60`). The interface comment says to add such a quote.
- `RemoveQuote` with an unknown Id throws (`Services/QuoteManager.cs:241-244`). The interface comment says to do nothing.

The code also:

- throws from `RemoveAllQuotes` on a symbol without a queue (`Services/QuoteManager.cs:205-208`);
- checks expiry in `AddOrUpdateQuote` before it looks at the Id, so an expired quote is refused for an update as well as for an addition (`Services/QuoteManager.cs:50-55`).

## Model

| member | source | states |
|---|---|---|
| Model.EqualsIffSameId | Model/Quote.cs:26-30 | two quotes are equal exactly when their nullable Ids are equal; no quote equals null |
| Model.EqualsIgnoresPayload | Model/Quote.cs:26-30 | equality does not depend on symbol, price, volume or expiration |
| Model.UnassignedIdsAreEqual | Model/Quote.cs:26-30 | two quotes that both lack an Id are equal, both ways round |
| Model.EqualsIsEquivalence | Model/Quote.cs:26-30 | equality is reflexive, symmetric and transitive |
| Model.EqualsObjectDelegates | Model/Quote.cs:21-30 | `Equals(object)` is false for null and for non-quotes, and agrees with `Equals(Quote)` on quotes |
| Model.WrapInt32 | Model/Quote.cs:32-35 | the wrapped value is congruent to its input modulo 2^32, and equals it when the input fits in `int` |
| Model.EqualQuotesHaveEqualHashCodes | Model/Quote.cs:26-35 | equal quotes have equal hash codes, whatever hash the runtime gives a Guid |
| Model.UnassignedIdHashCode | Model/Quote.cs:32-35 | a quote without an Id hashes to 2108858624 |
| QuoteRules.ExpiryBoundary | Services/QuoteManager.cs:278-281 | a quote is not expired at its own expiration date, and is expired at every later time, because the comparison is strict |
| QuoteRules.ExpiryMonotone | Services/QuoteManager.cs:268-281 | a quote expired at some time stays expired at every later time, and a quote valid at a later time was valid earlier |
| QuoteRules.Consume | Services/QuoteManager.cs:102-112 | a fill uses the smaller of the remaining request and the quote's volume, takes exactly that off both, and leaves at least one of them at zero; no unsigned subtraction underflows |
| QuoteRules.GetWeightedAveragePrice | Services/QuoteManager.cs:347-350 | with nothing executed the average is 0; otherwise the average times the volume executed is the total price |
| PriorityQueue.FirstExists | Services/QuoteManager.cs:159 | a non-empty queue has an element of least priority |
| PriorityQueue.First | Services/QuoteManager.cs:159 | `First` returns a queued element whose priority no other queued element undercuts |
| PriorityQueue.Dequeue | Services/QuoteManager.cs:173 | `Dequeue` returns a least-priority element and leaves the queue without exactly that element |
| PriorityQueue.CountAfterRemove | Services/QuoteManager.cs:173-174 | removing a queued element lowers `Count` by one |
| QuoteBook.IndexAgreement | Services/QuoteManager.cs:26-31 | in agreeing indices, an Id is stored with symbol s exactly when it is queued under s, and it is queued at its price |
| QuoteBook.NoEmptyQueues | Services/QuoteManager.cs:251-254 | an index that agrees with the book holds no empty queue |
| QuoteBook.EmptyBookHasEmptyIndex | Services/QuoteManager.cs:26-31 | the empty book agrees with the empty index |
| QuoteBook.RemoveFromIndex | Services/QuoteManager.cs:246-260 | removing a stored quote takes its Id out of its symbol's queue and drops the queue when it was the last; other queues are unchanged |
| QuoteBook.QueueAfterInsert | Services/QuoteManager.cs:328 | inserting a quote under a new Id adds it at its price to its own symbol's queue and to no other |
| QuoteBook.SymbolsAfterInsert | Services/QuoteManager.cs:319-329 | inserting a quote adds its symbol to the symbols that have quotes |
| QuoteBook.InsertIntoIndex | Services/QuoteManager.cs:313-332 | adding a quote under a new Id enqueues it at its price in its symbol's queue, created if missing; other queues are unchanged |
| QuoteBook.RemoveSymbolFromIndex | Services/QuoteManager.cs:211-221 | removing all quotes of a symbol drops exactly that symbol's queue |
| QuoteBook.DrainSymbol | Services/QuoteManager.cs:210-221 | removing the Ids queued under s removes exactly the quotes of s, and the index then lacks only s |
| Matching.LiveShrinksOverTime | Services/QuoteManager.cs:268-281 | for a fixed book, the live quotes of a symbol at a later time are among those at an earlier time, unchanged |
| Matching.EvictionKeepsLive | Services/QuoteManager.cs:169-177 | evicting invalid quotes of s changes no symbol's live quotes |
| Matching.AfterFill | Services/QuoteManager.cs:106-121 | a fill changes no quote's price and adds no quote |
| Matching.NothingLiveNoFills | Services/QuoteManager.cs:96-100 | with no live quote, the only greedy run is the empty one |
| Matching.SumsOfSnoc | Services/QuoteManager.cs:115-118 | one more fill adds its volume to the executed volume and its price times its volume to the total price |
| Matching.GreedyFillsSnoc | Services/QuoteManager.cs:94-122 | a greedy run followed by a greedy fill of its final state is a greedy run |
| Matching.AfterFillVolume | Services/QuoteManager.cs:106-112 | a fill takes exactly its volume off the total live volume |
| Matching.GreedyConservesVolume | Services/QuoteManager.cs:94-122 | a greedy run executes exactly what it takes off the request, and the live volume drops by the same amount |
| Matching.GreedyExecutesAllItCan | Services/QuoteManager.cs:94-122 | a complete run executes the smaller of the request and the total live volume |
| Matching.GreedyKeepsFloor | Services/QuoteManager.cs:94-122 | a price floor under the starting live quotes stays under every fill and every quote left |
| Matching.GreedyCheapestFirst | Services/QuoteManager.cs:94-122 | fill prices never decrease during a run, and no fill costs more than a live quote left behind |
| Matching.NotionalBetween | Services/QuoteManager.cs:118 | fill prices between lo and hi bound the total price by lo and hi times the volume executed |
| Matching.AverageBetween | Services/QuoteManager.cs:347-350 | a total price between lo and hi times the volume gives an average between lo and hi |
| Matching.VwapBetween | Services/QuoteManager.cs:118-130 | the reported average price lies between the lowest and the highest fill price |
| Matching.LiveAfterFill | Services/QuoteManager.cs:106-121 | lowering the volume of a live quote of s turns the live quotes of s into their state after that fill |
| Matching.TradeStart | Services/QuoteManager.cs:90-92 | a trade starts with no fills and the whole request remaining |
| Matching.TradeEvicted | Services/QuoteManager.cs:96 | the evictions done by a best-quote lookup inside the trade loop keep the trade's state |
| Matching.TradeFill | Services/QuoteManager.cs:102-121 | filling from a cheapest live quote and storing it back with lower volume extends the greedy run |
| Matching.TradedAfterFill | Services/QuoteManager.cs:106-121 | lowering a quote's volume changes nothing else about it and touches no other symbol |
| Eviction.ScanStart | Services/QuoteManager.cs:149-153 | the scan starts from agreeing indices with nothing evicted |
| Eviction.FrontIsStored | Services/QuoteManager.cs:159 | the front Id of a symbol's queue is a stored quote of that symbol carrying that Id |
| Eviction.EvictFirst | Services/QuoteManager.cs:167-178 | evicting an invalid front quote keeps the indices in agreement, dropping the queue once it empties, and keeps the scan's invariant |
| Eviction.FirstIsCheapest | Services/QuoteManager.cs:160-165 | a valid front quote is a cheapest live quote of the symbol, priced at least every evicted quote |
| Eviction.ScanExhausted | Services/QuoteManager.cs:157-184 | a scan that empties the queue leaves the symbol without queue or quotes, and it had no live quote |
| Eviction.NoQueueNoLive | Services/QuoteManager.cs:147-149 | a symbol with no queue has no quotes and no live quotes, and the lookup returns null |
| Services.ScanQueue | Services/QuoteManager.cs:149-184 | the scan keeps the indices in agreement, evicts only invalid quotes of s, and returns null exactly when s had no live quote, otherwise a cheapest live quote |
| Services.DrainQueue | Services/QuoteManager.cs:210-218 | draining a queue takes exactly its queued Ids out of the book |
| Services.RecordFill | Services/QuoteManager.cs:115-118 | the executed volume is the request minus what remains, and the total price stays the sum of price times volume over the fills |
| Services.QuoteManager.constructor | Services/QuoteManager.cs:26-31 | a new manager has two empty indices, which agree |
| Services.QuoteManager.AddOrUpdateQuote | Services/QuoteManager.cs:34-68 | null and expired quotes are refused; an Id not in the book is refused; otherwise the quote replaces the stored one with its Id, or is stored under the fresh Id; the indices keep agreeing |
| Services.QuoteManager.ExecuteTrade | Services/QuoteManager.cs:71-132 | refuses a null symbol and volume 0; otherwise executes a complete greedy cheapest-first run from the live quotes and reports its volume and volume-weighted average price; other symbols are untouched, and a quote that was invalid at the start is either evicted or left exactly as it was |
| Services.QuoteManager.FillRequest | Services/QuoteManager.cs:90-122 | the loop's fills are a greedy run from the live quotes at entry, stopped only when the request is met or no live quote is left; an invalid quote is never filled or changed, only evicted |
| Services.QuoteManager.AdvanceTrade | Services/QuoteManager.cs:102-121 | one pass of the loop, given a cheapest live quote, extends the greedy run from the trade's start by one fill and strictly lowers the remaining volume; quotes invalid at the trade's start stay untouched |
| Services.QuoteManager.FillBest | Services/QuoteManager.cs:102-121 | one fill from the best quote: the fill takes the smaller of the remaining request and the quote's volume at the quote's price, the new book is the old one with that quote's volume lowered by exactly that much, and the remaining volume, executed volume and total price move by that fill |
| Services.QuoteManager.GetBestQuoteWithAvailableVolume | Services/QuoteManager.cs:135-185 | refuses a null symbol; returns a cheapest live quote of s, or null exactly when s has none, evicting only invalid quotes of s |
| Services.QuoteManager.RemoveAllQuotes | Services/QuoteManager.cs:188-222 | refuses a null symbol and a symbol without a queue; succeeds for every symbol that has a queue, and then removes exactly the quotes of s and its queue |
| Services.QuoteManager.RemoveQuote | Services/QuoteManager.cs:225-261 | refuses `Guid.Empty` and an unknown Id; otherwise removes exactly that quote from both indices, dropping its queue if it empties |
| Services.QuoteManager.UpdateQuote | Services/QuoteManager.cs:298-307 | remove-then-add replaces the stored quote under its Id and keeps the indices agreeing |
| Services.QuoteManager.AddQuote | Services/QuoteManager.cs:313-332 | stores the quote under its Id and enqueues it at its price in its symbol's queue, created if missing |
| Services.QuoteManager.AddQuoteWithId | Services/QuoteManager.cs:335-339 | gives the quote the Id and stores it under that Id |
| Scenarios.StartIsLive | Services/IQuoteManager.cs:60-62 | both quotes of the worked example are live |
| Scenarios.FirstTrade | Services/IQuoteManager.cs:60-65 | the only complete greedy run for 500 takes 500 at 1.0, leaves 250 and 1,000, and averages 1.0 |
| Scenarios.SecondTrade | Services/IQuoteManager.cs:63-68 | the only complete greedy run for 500 more takes 250 at 1.0 and then 250 at 2.0, leaves 750 at 2.0, and averages 1.5 |
| Scenarios.InterfaceExample | Services/IQuoteManager.cs:57-68 | two quotes added through the manager and two trades of 500 execute 500 each, at average prices 1.0 and 1.5, leaving 750 live at 2.0 |
| Scenarios.TradeFirst | Services/IQuoteManager.cs:60-65 | the first trade of 500 on the two starting quotes executes 500 at an average of 1.0 and leaves 250 at 1.0 and 1,000 at 2.0 |
| Scenarios.TradeSecond | Services/IQuoteManager.cs:63-68 | the second trade of 500 executes 500 at an average of 1.5 and leaves 750 at 2.0 |
| Scenarios.AddThenBestQuote | Test/QuoteManagerTests.cs:22-31 | a valid quote added to an empty manager is then its symbol's best quote, and compares equal to the added quote |
| Scenarios.TradeOnEmptyBook | Services/QuoteManager.cs:94-131 | a trade on an empty manager executes nothing and reports an average price of 0 |

## Left out

- Concurrency. The source's comments describe locking it does not implement, and the model runs one operation at a time.
- Floating point. `double` prices and the running total price are exact reals, so rounding in the total and in the division is not modelled.
- The clock. The source reads `DateTime.Now` again at every validity check. The model uses one `now` per operation. Time moving on during an operation can only make fewer quotes valid (`QuoteRules.ExpiryMonotone`, `Matching.LiveShrinksOverTime`). So the model does not capture a quote that expires part-way through an operation.
- Id and trade Id generation. `Guid.NewGuid()` becomes the parameters `freshId` and `tradeId`. `AddOrUpdateQuote` requires that `freshId` is not `Guid.Empty` and not already a key, which is what a new Guid is taken to be.
- Null symbols inside a quote. A quote's `Symbol` is never null here; the source would throw from the dictionary. On the update path this throw is not clean. `UpdateQuote` first calls `RemoveQuote` (`Services/QuoteManager.cs:304`), and only then does `AddQuote` throw from `ContainsKey(null)` (`Services/QuoteManager.cs:319`). So the source loses the stored quote and changes both indices even though the call throws. The model does not capture this.
- Priority queue internals. The queue is modelled by its contents. `First` picks some least-priority element, so the model does not fix a tie-breaking order between quotes of equal price.
- `Model.GetHashCode`: the hash of a `Guid` belongs to the runtime and is a parameter.
- `Quote.ToString` (`Model/Quote.cs:41-44`): a formatting helper with no effect on the book.
- In-place mutation and aliasing. The source changes quote objects in place. It sets the Id on the caller's quote object (`Services/QuoteManager.cs:337`). It lowers the volume of the stored quote object before `UpdateQuote` (`Services/QuoteManager.cs:106`). A caller holding that object sees the change. The model passes the changed quote as a new value, so it does not capture caller-visible aliasing.
- Services.ScanQueue and Services.DrainQueue run the source's loops on the index values and store the result back into the manager. In the source the queue object is shared with the dictionary, so dequeuing changes `symbolsQuoteBook` directly.
- Services.QuoteManager.ExecuteTrade: the body is split into `FillRequest` (the loop), `AdvanceTrade` (one pass once the best quote is known), `FillBest` (the fill itself) and `RecordFill` (the bookkeeping) to keep the proofs small. Together they follow `Services/QuoteManager.cs:90-131` step by step.
- Services.QuoteManager.ExecuteTrade: the contract does not say which invalid quotes of the symbol were evicted. It also does not say that a quote used up by the last fill stays stored with zero volume until a later lookup evicts it. It pins down the live quotes exactly, and every invalid quote that is not evicted stays exactly as it was.
- Services.QuoteManager.FillRequest: the same gap as `ExecuteTrade`, whose loop it is. The contract does not say which invalid quotes of the symbol the loop evicts. It does not say that a quote used up by the last fill stays stored with zero volume. It pins down the live quotes exactly, and every invalid quote that is not evicted stays exactly as it was.
- Services.QuoteManager.AdvanceTrade: the contract states the loop's invariant after the pass rather than the exact new book. The exact new book is stated by `FillBest`, which it calls.
- Services.QuoteManager.GetBestQuoteWithAvailableVolume: the contract says only invalid quotes of the symbol priced at most the result are evicted. It does not say exactly which ones, because that depends on tie-breaking in the queue.
- `Client/Program.cs`: the console client is not part of this model.
