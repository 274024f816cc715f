/**
 * Worked examples of the quote manager: the two-quote trade example of its interface
 * documentation (Services/IQuoteManager.cs), the add-then-best-quote unit test
 * (Test/QuoteManagerTests.cs), and a trade against a book with nothing to fill.
 */
module Scenarios {
  import opened Wrappers
  import opened Model
  import opened QuoteRules
  import opened QuoteBook
  import opened Matching
  import opened Services

  const Symbol: string := "ABC"
  const Now: DateTime := 0
  const Expiry: DateTime := 1
  const A: Guid := 1
  const B: Guid := 2

  /** A quote of Symbol that is still valid at Now. */
  function Ask(id: Guid, price: real, volume: uint32): Quote
  {
    Quote(Some(id), Symbol, price, volume, Expiry)
  }

  /** The two quotes of the example: 750 available at 1.0 and 1,000 at 2.0. */
  function Start(): Book
  {
    map[A := Ask(A, 1.0, 750), B := Ask(B, 2.0, 1000)]
  }

  /** After buying 500: 250 left at 1.0, 1,000 at 2.0. */
  function AfterFirst(): Book
  {
    map[A := Ask(A, 1.0, 250), B := Ask(B, 2.0, 1000)]
  }

  /** After buying 500 more: the quote at 1.0 is used up, 750 left at 2.0. */
  function AfterSecond(): Book
  {
    map[B := Ask(B, 2.0, 750)]
  }

  lemma StartIsLive()
    ensures Live(Start(), Symbol, Now) == Start()
  {
    assert A in Live(Start(), Symbol, Now) && B in Live(Start(), Symbol, Now);
  }

  /** The first trade for 500: the only complete greedy run takes 500 from the quote at 1.0. */
  lemma FirstTrade(fills: seq<Fill>, live1: Book, rem1: nat)
    requires GreedyFills(Start(), 500, fills, live1, rem1) && Complete(live1, rem1)
    ensures fills == [Fill(A, 1.0, 500)] && live1 == AfterFirst() && rem1 == 0
    ensures GetWeightedAveragePrice(500, Notional(fills)) == 1.0
  {
    var live0 := Start();
    assert fills != [];
    var f := fills[0];
    assert IsGreedyFill(live0, 500, f);
    assert f.id == A by {
      assert live0[f.id].price <= live0[A].price;
    }
    assert f == Fill(A, 1.0, 500);
    assert AfterFill(live0, f) == AfterFirst();
    var rest := fills[1..];
    assert GreedyFills(AfterFirst(), 0, rest, live1, rem1);
    assert rest == [];
    assert fills == [f];
  }

  /**
   * The second trade for 500: the only complete greedy run takes the 250 left at 1.0,
   * then 250 at 2.0, for a volume-weighted average price of 1.5.
   */
  lemma SecondTrade(fills: seq<Fill>, live2: Book, rem2: nat)
    requires GreedyFills(AfterFirst(), 500, fills, live2, rem2) && Complete(live2, rem2)
    ensures fills == [Fill(A, 1.0, 250), Fill(B, 2.0, 250)] && live2 == AfterSecond() && rem2 == 0
    ensures GetWeightedAveragePrice(500, Notional(fills)) == 1.5
  {
    var live1 := AfterFirst();
    assert fills != [];
    var f := fills[0];
    assert IsGreedyFill(live1, 500, f);
    assert f.id == A by {
      assert live1[f.id].price <= live1[A].price;
    }
    assert f == Fill(A, 1.0, 250);
    var middle := map[B := Ask(B, 2.0, 1000)];
    assert AfterFill(live1, f) == middle;
    var rest := fills[1..];
    assert GreedyFills(middle, 250, rest, live2, rem2);
    assert B in middle;
    assert rest != [];
    var f' := rest[0];
    assert IsGreedyFill(middle, 250, f');
    assert f' == Fill(B, 2.0, 250);
    assert AfterFill(middle, f') == AfterSecond();
    assert GreedyFills(AfterSecond(), 0, rest[1..], live2, rem2);
    assert rest[1..] == [];
    assert fills == [f, f'] by {
      assert rest == [f'];
    }
    assert Notional(fills) == 750.0 by {
      assert fills[1..] == [f'];
      assert [f'][1..] == [];
      assert Notional([f']) == 500.0;
    }
  }

  /**
   * The example run through the manager: two quotes added without Ids, then two trades
   * for 500. The first executes 500 at 1.0, the second 500 at 1.5 on average, and the
   * live quotes left are 750 at 2.0.
   */
  method InterfaceExample() returns (first: TradeResult, second: TradeResult, ghost live: Book)
    ensures first.volumeRequested == 500 && first.volumeExecuted == 500
    ensures first.volumeWeightedAveragePrice == 1.0
    ensures second.volumeRequested == 500 && second.volumeExecuted == 500
    ensures second.volumeWeightedAveragePrice == 1.5
    ensures live == AfterSecond()
  {
    var manager := new QuoteManager();
    var added := manager.AddOrUpdateQuote(Some(Quote(None, Symbol, 1.0, 750, Expiry)), Now, A);
    added := manager.AddOrUpdateQuote(Some(Quote(None, Symbol, 2.0, 1000, Expiry)), Now, B);
    assert manager.quoteBook == Start();
    first := TradeFirst(manager);
    second := TradeSecond(manager);
    live := Live(manager.quoteBook, Symbol, Now);
  }

  /** The example's first trade, on a manager holding the two quotes it starts with. */
  method TradeFirst(manager: QuoteManager) returns (first: TradeResult)
    requires manager.Valid() && manager.quoteBook == Start()
    modifies manager
    ensures manager.Valid() && Live(manager.quoteBook, Symbol, Now) == AfterFirst()
    ensures first.volumeRequested == 500 && first.volumeExecuted == 500
    ensures first.volumeWeightedAveragePrice == 1.0
  {
    StartIsLive();
    var result, fills := manager.ExecuteTrade(Some(Symbol), 500, Now, 10);
    first := result.value;
    FirstTrade(fills, Live(manager.quoteBook, Symbol, Now), 500 - first.volumeExecuted);
  }

  /** The example's second trade, on a manager whose live quotes are those the first trade left. */
  method TradeSecond(manager: QuoteManager) returns (second: TradeResult)
    requires manager.Valid() && Live(manager.quoteBook, Symbol, Now) == AfterFirst()
    modifies manager
    ensures manager.Valid() && Live(manager.quoteBook, Symbol, Now) == AfterSecond()
    ensures second.volumeRequested == 500 && second.volumeExecuted == 500
    ensures second.volumeWeightedAveragePrice == 1.5
  {
    var result, fills := manager.ExecuteTrade(Some(Symbol), 500, Now, 11);
    second := result.value;
    SecondTrade(fills, Live(manager.quoteBook, Symbol, Now), 500 - second.volumeExecuted);
  }

  /**
   * The unit test: a quote added without an Id to an empty manager, valid at now, is
   * the best quote of its symbol, and compares equal to the quote with its new Id.
   */
  method AddThenBestQuote(quote: Quote, now: DateTime, freshId: Guid) returns (best: Option<Quote>)
    requires quote.id.None? && IsValidQuote(quote, now) && freshId != EmptyGuid
    ensures best == Some(quote.(id := Some(freshId)))
    ensures best.Some? && Equals(quote.(id := Some(freshId)), best)
  {
    var manager := new QuoteManager();
    var added := manager.AddOrUpdateQuote(Some(quote), now, freshId);
    ghost var stored := quote.(id := Some(freshId));
    assert manager.quoteBook == map[freshId := stored];
    assert freshId in Live(manager.quoteBook, quote.symbol, now);
    var result := manager.GetBestQuoteWithAvailableVolume(Some(quote.symbol), now);
    best := result.value;
  }

  /** A trade on a manager with no quotes executes nothing, at an average price of 0. */
  method TradeOnEmptyBook(symbol: string, volume: uint32, now: DateTime, tradeId: Guid) returns (t: TradeResult)
    requires volume != 0
    ensures t == TradeResult(tradeId, symbol, 0.0, volume, 0)
  {
    var manager := new QuoteManager();
    var result, fills := manager.ExecuteTrade(Some(symbol), volume, now, tradeId);
    t := result.value;
    NothingLiveNoFills(volume, fills, Live(manager.quoteBook, symbol, now), volume - t.volumeExecuted);
  }
}
