/**
 * The two indices of the quote manager and the agreement between them.
 * `quoteBook` maps an Id to its quote; `symbolsQuoteBook` maps a symbol to the
 * priority queue of that symbol's quotes, keyed by price. The by-symbol index
 * that a book determines is `BySymbol(book)`: the manager keeps its second
 * index equal to it.
 */
module QuoteBook {
  import opened Wrappers
  import opened Model
  import PQ = PriorityQueue

  type Book = map<Guid, Quote>

  /** Each stored quote carries its own key as Id, and no quote is stored under `Guid.Empty`. */
  predicate WellKeyed(book: Book)
  {
    EmptyGuid !in book && forall g | g in book :: book[g].id == Some(g)
  }

  /** The symbols that have at least one quote in the book. */
  function Symbols(book: Book): set<string>
  {
    set g | g in book :: book[g].symbol
  }

  /** The queue of one symbol: its quotes' Ids, each with its price as priority. */
  function SymbolQueue(book: Book, s: string): PQ.Queue
  {
    map g | g in book && book[g].symbol == s :: book[g].price
  }

  /** The by-symbol index a book determines: one queue per symbol that has quotes, and no other. */
  function BySymbol(book: Book): map<string, PQ.Queue>
  {
    map s | s in Symbols(book) :: SymbolQueue(book, s)
  }

  /** The book with every quote of one symbol taken out. */
  function WithoutSymbol(book: Book, s: string): Book
  {
    map g | g in book && book[g].symbol != s :: book[g]
  }

  /** An Id is in the book with symbol s exactly when it is in the queue of s, and it is queued at its price. */
  lemma IndexAgreement(book: Book, s: string, g: Guid)
    ensures (g in book && book[g].symbol == s) <==> (s in BySymbol(book) && g in BySymbol(book)[s])
    ensures g in book && book[g].symbol == s ==> BySymbol(book)[s][g] == book[g].price
  {
    if g in book && book[g].symbol == s {
      assert s in Symbols(book);
    }
  }

  /** The index has no empty queues. */
  lemma NoEmptyQueues(book: Book, s: string)
    requires s in BySymbol(book)
    ensures BySymbol(book)[s] != map[]
  {
    var g :| g in book && book[g].symbol == s;
    assert g in BySymbol(book)[s];
  }

  /** The empty book has the empty index. */
  lemma EmptyBookHasEmptyIndex()
    ensures BySymbol(map[]) == map[]
  {
    assert Symbols(map[]) == {};
  }

  /**
   * Removing one quote takes its Id out of its symbol's queue, and drops the queue
   * when that was its last quote; the other queues are unchanged.
   */
  lemma {:induction false} RemoveFromIndex(book: Book, g: Guid)
    requires g in book
    ensures var s := book[g].symbol;
            var index := BySymbol(book);
            s in index && g in index[s] &&
            BySymbol(book - {g}) ==
              if index[s].Keys == {g} then index - {s} else index[s := index[s] - {g}]
  {
    var s := book[g].symbol;
    var index := BySymbol(book);
    var book' := book - {g};
    IndexAgreement(book, s, g);
    forall t | t != s ensures SymbolQueue(book', t) == SymbolQueue(book, t) {
    }
    assert SymbolQueue(book', s) == index[s] - {g};
    if index[s].Keys == {g} {
      assert Symbols(book') == Symbols(book) - {s} by {
        forall t | t in Symbols(book') ensures t in Symbols(book) && t != s {
          var h :| h in book' && book'[h].symbol == t;
        }
        forall t | t in Symbols(book) && t != s ensures t in Symbols(book') {
          var h :| h in book && book[h].symbol == t;
          assert h in book';
        }
      }
      assert BySymbol(book') == index - {s};
    } else {
      assert Symbols(book') == Symbols(book) by {
        forall t | t in Symbols(book) ensures t in Symbols(book') {
          var h :| h in book && book[h].symbol == t;
          if h == g {
            var k :| k in index[s].Keys && k != g;
            assert k in book' && book'[k].symbol == t;
          } else {
            assert h in book';
          }
        }
      }
      assert BySymbol(book') == index[s := index[s] - {g}];
    }
  }

  /** Inserting a quote under a new Id queues it at its price in its symbol's queue and in no other. */
  lemma QueueAfterInsert(book: Book, g: Guid, q: Quote, t: string)
    requires g !in book
    ensures SymbolQueue(book[g := q], t) == if t == q.symbol then SymbolQueue(book, t)[g := q.price]
                                            else SymbolQueue(book, t)
  {
  }

  /** Inserting a quote under a new Id adds its symbol to the symbols of the book. */
  lemma SymbolsAfterInsert(book: Book, g: Guid, q: Quote)
    requires g !in book
    ensures Symbols(book[g := q]) == Symbols(book) + {q.symbol}
  {
    var book' := book[g := q];
    forall t | t in Symbols(book') ensures t in Symbols(book) + {q.symbol} {
      var h :| h in book' && book'[h].symbol == t;
      if h != g {
        assert h in book;
      }
    }
    forall t | t in Symbols(book) ensures t in Symbols(book') {
      var h :| h in book && book[h].symbol == t;
      assert h in book';
    }
    assert g in book';
  }

  /**
   * Adding a quote under a new Id enqueues it at its price in its symbol's queue,
   * creating that queue when the symbol had none; the other queues are unchanged.
   */
  lemma {:induction false} InsertIntoIndex(book: Book, g: Guid, q: Quote)
    requires g !in book
    ensures var index := BySymbol(book);
            var queue := if q.symbol in index then index[q.symbol] else map[];
            BySymbol(book[g := q]) == index[q.symbol := queue[g := q.price]]
  {
    var index := BySymbol(book);
    var queue := if q.symbol in index then index[q.symbol] else map[];
    var book' := book[g := q];
    var index': map<string, PQ.Queue> := index[q.symbol := queue[g := q.price]];
    SymbolsAfterInsert(book, g, q);
    forall t | t in Symbols(book') ensures SymbolQueue(book', t) == index'[t] {
      QueueAfterInsert(book, g, q, t);
      if t == q.symbol && q.symbol !in index {
        assert SymbolQueue(book, t) == map[];
      }
    }
  }

  /** Writing back the queue an index already holds for a symbol leaves the index as it is. */
  lemma StoreBack(index: map<string, PQ.Queue>, s: string, queue: PQ.Queue)
    requires s in index && index[s] == queue
    ensures index[s := queue] == index
  {
  }

  /** Taking a quote out and putting a new one in under the same Id replaces that entry. */
  lemma RemoveThenInsert(book: Book, g: Guid, q: Quote)
    ensures (book - {g})[g := q] == book[g := q]
  {
  }

  /** Taking Ids out of a book one after another is taking them out all at once. */
  lemma RemoveOneMore(book: Book, removed: set<Guid>, g: Guid)
    ensures (book - removed) - {g} == book - (removed + {g})
  {
  }

  /** Taking out every quote of a symbol drops exactly that symbol's queue. */
  lemma {:induction false} RemoveSymbolFromIndex(book: Book, s: string)
    ensures BySymbol(WithoutSymbol(book, s)) == BySymbol(book) - {s}
  {
    var book' := WithoutSymbol(book, s);
    assert Symbols(book') == Symbols(book) - {s} by {
      forall t | t in Symbols(book) && t != s ensures t in Symbols(book') {
        var h :| h in book && book[h].symbol == t;
        assert h in book';
      }
    }
    forall t | t != s ensures SymbolQueue(book', t) == SymbolQueue(book, t) {
    }
  }

  /** Taking a symbol's queued Ids out of the book takes out exactly that symbol's quotes. */
  lemma DrainSymbol(book: Book, s: string)
    requires WellKeyed(book) && s in BySymbol(book)
    ensures book - BySymbol(book)[s].Keys == WithoutSymbol(book, s)
    ensures WellKeyed(WithoutSymbol(book, s))
    ensures BySymbol(WithoutSymbol(book, s)) == BySymbol(book) - {s}
  {
    forall g ensures (g in book - BySymbol(book)[s].Keys) == (g in WithoutSymbol(book, s)) {
      IndexAgreement(book, s, g);
    }
    RemoveSymbolFromIndex(book, s);
  }
}
