/**
 * The lazy eviction that `GetBestQuoteWithAvailableVolume` performs, one step at a
 * time: the front quote of a symbol's queue, when it is not valid, leaves both
 * indices, and the scan stops at the first valid one, which is then a cheapest
 * live quote of that symbol.
 */
module Eviction {
  import opened Wrappers
  import opened Model
  import opened QuoteRules
  import PQ = PriorityQueue
  import opened QuoteBook
  import opened Matching

  /** No priority in the queue is below p. */
  predicate AtMostAll(p: real, queue: PQ.Queue)
  {
    forall g | g in queue :: p <= queue[g]
  }

  /** Every quote evicted between before and after was priced at most every priority still queued. */
  ghost predicate EvictedBelow(before: Book, after: Book, queue: PQ.Queue)
  {
    forall e | e in before && e !in after :: AtMostAll(before[e].price, queue)
  }

  /**
   * The state of the scan over the queue of s that started from the book before:
   * book and index agree, queue is the index entry for s (empty once that entry
   * is gone), every quote taken out so far was an invalid quote of s, and none was
   * priced above anything still queued.
   */
  ghost predicate Scanning(before: Book, book: Book, index: map<string, PQ.Queue>, s: string,
                           queue: PQ.Queue, now: DateTime)
  {
    && WellKeyed(book) && index == BySymbol(book)
    && (s in index ==> index[s] == queue)
    && (s !in index ==> queue == map[])
    && Evicted(before, book, s, now)
    && EvictedBelow(before, book, queue)
  }

  /** The scan starts with nothing evicted. */
  lemma ScanStart(book: Book, s: string, now: DateTime)
    requires WellKeyed(book) && s in BySymbol(book)
    ensures Scanning(book, book, BySymbol(book), s, BySymbol(book)[s], now)
  {
  }

  /** The front quote of the queue is stored under its Id, with symbol s. */
  lemma FrontIsStored(before: Book, book: Book, index: map<string, PQ.Queue>, s: string,
                      queue: PQ.Queue, g: Guid, now: DateTime)
    requires Scanning(before, book, index, s, queue, now) && PQ.IsFirst(queue, g)
    ensures g in book && book[g].symbol == s && book[g].id == Some(g)
  {
    IndexAgreement(book, s, g);
  }

  /**
   * Evicting the invalid front quote g takes g out of the book and out of the queue,
   * and drops the index entry for s when the queue empties: the scan goes on.
   */
  lemma EvictFirst(before: Book, book: Book, index: map<string, PQ.Queue>, s: string,
                   queue: PQ.Queue, g: Guid, now: DateTime)
    requires Scanning(before, book, index, s, queue, now) && PQ.IsFirst(queue, g)
    requires g in book && !IsValidQuote(book[g], now)
    ensures var rest := queue - {g};
            Scanning(before, book - {g}, if |rest| == 0 then index - {s} else index[s := rest], s, rest, now)
  {
    var rest := queue - {g};
    var book' := book - {g};
    var index' := if |rest| == 0 then index - {s} else index[s := rest];
    IndexAgreement(book, s, g);
    RemoveFromIndex(book, g);
    assert (|rest| == 0) == (queue.Keys == {g}) by {
      assert rest.Keys == queue.Keys - {g};
    }
    assert index' == BySymbol(book');
    assert Evicted(before, book', s, now);
    forall e | e in before && e !in book' ensures AtMostAll(before[e].price, rest) {
      if e == g {
        assert before[g] == book[g];
      } else {
        assert AtMostAll(before[e].price, queue);
      }
    }
  }

  /**
   * What the scan of the queue of s returns: after is before with invalid quotes of s
   * evicted; best is None exactly when s had no live quote, and then s has neither a
   * queue nor a quote left; otherwise best is the stored front quote of the queue of
   * s, valid, a cheapest live quote of s, and priced at least every evicted quote.
   */
  ghost predicate ScanResult(before: Book, after: Book, index: map<string, PQ.Queue>, s: string,
                             now: DateTime, best: Option<Quote>)
  {
    && Evicted(before, after, s, now)
    && (best.None? <==> Live(before, s, now) == map[])
    && (best.None? ==> s !in index && s !in Symbols(after))
    && (best.Some? ==>
          var q := best.value;
          && q.id.Some? && q.id.value in after && after[q.id.value] == q
          && q.symbol == s && IsValidQuote(q, now)
          && s in index && PQ.IsFirst(index[s], q.id.value)
          && IsCheapest(Live(before, s, now), q.id.value)
          && forall e | e in before && e !in after :: before[e].price <= q.price)
  }

  /**
   * When the scan stops at a valid front quote g, g is a cheapest live quote of s in
   * the book the scan started from, and every quote evicted on the way was priced at
   * most g's price.
   */
  lemma FirstIsCheapest(before: Book, book: Book, index: map<string, PQ.Queue>, s: string,
                        queue: PQ.Queue, g: Guid, now: DateTime)
    requires Scanning(before, book, index, s, queue, now) && PQ.IsFirst(queue, g)
    requires g in book && IsValidQuote(book[g], now)
    ensures ScanResult(before, book, index, s, now, Some(book[g]))
  {
    IndexAgreement(book, s, g);
    EvictionKeepsLive(before, book, s, s, now);
    var live := Live(book, s, now);
    assert g in live;
    forall h | h in live ensures live[g].price <= live[h].price {
      IndexAgreement(book, s, h);
    }
    forall e | e in before && e !in book ensures before[e].price <= book[g].price {
      assert AtMostAll(before[e].price, queue);
    }
  }

  /** A scan that empties the queue leaves s without an entry and without quotes: s had no live quote. */
  lemma ScanExhausted(before: Book, book: Book, index: map<string, PQ.Queue>, s: string, now: DateTime)
    requires Scanning(before, book, index, s, map[], now)
    ensures ScanResult(before, book, index, s, now, None)
  {
    if s in index {
      NoEmptyQueues(book, s);
    }
    NoQueueNoLive(before, book, s, now);
  }

  /** A symbol without a queue has no quotes, and so had no live quotes before the eviction either. */
  lemma NoQueueNoLive(before: Book, book: Book, s: string, now: DateTime)
    requires s !in BySymbol(book) && Evicted(before, book, s, now)
    ensures s !in Symbols(book)
    ensures Live(before, s, now) == map[]
    ensures ScanResult(before, book, BySymbol(book), s, now, None)
  {
    EvictionKeepsLive(before, book, s, s, now);
    forall g | g in book ensures book[g].symbol != s {
      assert book[g].symbol in Symbols(book);
    }
    assert Live(book, s, now) == map[];
  }
}
