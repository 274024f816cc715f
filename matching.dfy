/**
 * What the quote manager's reads and trades promise, stated on books.
 * A symbol's live quotes are its quotes that have volume and have not expired;
 * lazy eviction only ever takes out quotes that are not live, and a trade is a
 * sequence of greedy fills, each against a cheapest live quote.
 */
module Matching {
  import opened Model
  import opened QuoteRules
  import opened QuoteBook

  /** The quotes of symbol s that are valid at time now. */
  function Live(book: Book, s: string, now: DateTime): Book
  {
    map g | g in book && book[g].symbol == s && IsValidQuote(book[g], now) :: book[g]
  }

  /**
   * The live quotes at a later time are among the live quotes at an earlier one, unchanged:
   * with the book fixed, time only takes quotes out of the live set.
   */
  lemma {:induction false} LiveShrinksOverTime(book: Book, s: string, now: DateTime, later: DateTime)
    requires now <= later
    ensures forall g | g in Live(book, s, later) :: g in Live(book, s, now) && Live(book, s, later)[g] == Live(book, s, now)[g]
  {
    forall g | g in Live(book, s, later)
      ensures g in Live(book, s, now) && Live(book, s, later)[g] == Live(book, s, now)[g]
    {
      ExpiryMonotone(book[g], now, later);
    }
  }

  /** after is before with some quotes of symbol s taken out, none of them valid at now. */
  ghost predicate Evicted(before: Book, after: Book, s: string, now: DateTime)
  {
    && (forall g | g in after :: g in before && after[g] == before[g])
    && (forall g | g in before && g !in after :: before[g].symbol == s && !IsValidQuote(before[g], now))
  }

  /** Eviction changes no symbol's live quotes. */
  lemma EvictionKeepsLive(before: Book, after: Book, s: string, t: string, now: DateTime)
    requires Evicted(before, after, s, now)
    ensures Live(after, t, now) == Live(before, t, now)
  {
  }

  /**
   * after is before once a trade on symbol s has run: quotes of other symbols are
   * untouched, and a quote that remains differs only by a smaller or equal volume.
   */
  ghost predicate Traded(before: Book, after: Book, s: string)
  {
    && (forall g | g in after ::
          g in before && after[g].availableVolume <= before[g].availableVolume &&
          after[g] == before[g].(availableVolume := after[g].availableVolume))
    && (forall g | g in before && before[g].symbol != s :: g in after && after[g] == before[g])
  }

  /**
   * A trade running at time now leaves every quote that was invalid before it either
   * removed or exactly as it was: fills come only from valid quotes.
   */
  ghost predicate KeepsInvalid(before: Book, after: Book, now: DateTime)
  {
    forall g | g in after && g in before && !IsValidQuote(before[g], now) :: after[g] == before[g]
  }

  /** One fill of a trade: volume bought from quote id at its price. */
  datatype Fill = Fill(id: Guid, price: real, volume: nat)

  /** g is a live quote that no other live quote undercuts. */
  predicate IsCheapest(live: Book, g: Guid)
  {
    g in live && forall h | h in live :: live[g].price <= live[h].price
  }

  /** f is the greedy fill for a request with remaining volume: from a cheapest quote, as much as both allow. */
  predicate IsGreedyFill(live: Book, remaining: nat, f: Fill)
  {
    remaining > 0 && IsCheapest(live, f.id) && f.price == live[f.id].price &&
    f.volume == Min(remaining, live[f.id].availableVolume)
  }

  /** The live quotes after a fill: the quote's volume goes down, and it stops being live at zero. */
  function AfterFill(live: Book, f: Fill): (r: Book)
    requires f.id in live && f.volume <= live[f.id].availableVolume
    ensures forall h | h in r :: h in live && r[h].price == live[h].price
  {
    var q := live[f.id];
    if f.volume == q.availableVolume then live - {f.id}
    else live[f.id := q.(availableVolume := q.availableVolume - f.volume)]
  }

  /**
   * fills is a greedy run: starting from live0 with remaining volume rem0, each fill is a
   * greedy fill of the state left by the ones before it, and the run ends in live1 with
   * remaining volume rem1.
   */
  ghost predicate GreedyFills(live0: Book, rem0: nat, fills: seq<Fill>, live1: Book, rem1: nat)
    decreases |fills|
  {
    if fills == [] then live1 == live0 && rem1 == rem0
    else
      IsGreedyFill(live0, rem0, fills[0]) &&
      GreedyFills(AfterFill(live0, fills[0]), rem0 - fills[0].volume, fills[1..], live1, rem1)
  }

  /** With no live quote there is nothing to fill: the only run is the empty one. */
  lemma NothingLiveNoFills(rem0: nat, fills: seq<Fill>, live1: Book, rem1: nat)
    requires GreedyFills(map[], rem0, fills, live1, rem1)
    ensures fills == [] && live1 == map[] && rem1 == rem0
  {
  }

  /** A run is complete when the request is filled or no live quote is left. */
  predicate Complete(live1: Book, rem1: nat)
  {
    rem1 == 0 || live1 == map[]
  }

  function SumVolume(fills: seq<Fill>): nat
  {
    if fills == [] then 0 else fills[0].volume + SumVolume(fills[1..])
  }

  /** What taking volume units at price costs. */
  function Cost(price: real, volume: nat): real
  {
    price * volume as real
  }

  /** The notional of a run: the sum of the costs of its fills. */
  function Notional(fills: seq<Fill>): real
  {
    if fills == [] then 0.0 else Cost(fills[0].price, fills[0].volume) + Notional(fills[1..])
  }

  /** Appending a fill adds its volume to the run's volume and its price times its volume to the run's notional. */
  lemma {:induction false} SumsOfSnoc(fills: seq<Fill>, f: Fill, price: real, volume: nat)
    requires f.price == price && f.volume == volume
    ensures SumVolume(fills + [f]) == SumVolume(fills) + volume
    ensures Notional(fills + [f]) == Notional(fills) + Cost(price, volume)
    decreases |fills|
  {
    if fills == [] {
      assert fills + [f] == [f];
      assert [f][1..] == [];
    } else {
      assert (fills + [f])[1..] == fills[1..] + [f];
      SumsOfSnoc(fills[1..], f, price, volume);
    }
  }

  /** A greedy run extended by a greedy fill of its final state is a greedy run. */
  lemma {:induction false} GreedyFillsSnoc(live0: Book, rem0: nat, fills: seq<Fill>, live1: Book, rem1: nat, f: Fill)
    requires GreedyFills(live0, rem0, fills, live1, rem1)
    requires IsGreedyFill(live1, rem1, f)
    ensures GreedyFills(live0, rem0, fills + [f], AfterFill(live1, f), rem1 - f.volume)
    decreases |fills|
  {
    if fills == [] {
      assert fills + [f] == [f];
      assert [f][1..] == [];
    } else {
      var first := fills[0];
      GreedyFillsSnoc(AfterFill(live0, first), rem0 - first.volume, fills[1..], live1, rem1, f);
      assert (fills + [f])[1..] == fills[1..] + [f];
    }
  }

  // ---- total available volume of a set of live quotes

  ghost function VolumeOf(live: Book, ids: set<Guid>): nat
    requires ids <= live.Keys
    decreases ids
  {
    if ids == {} then 0
    else
      var g :| g in ids;
      live[g].availableVolume + VolumeOf(live, ids - {g})
  }

  /** The volume that is available across all quotes of live. */
  ghost function TotalVolume(live: Book): nat
  {
    VolumeOf(live, live.Keys)
  }

  /** The total does not depend on which element is taken out first. */
  lemma {:induction false} VolumeOfPick(live: Book, ids: set<Guid>, g: Guid)
    requires ids <= live.Keys && g in ids
    ensures VolumeOf(live, ids) == live[g].availableVolume + VolumeOf(live, ids - {g})
    decreases ids
  {
    var h :| h in ids && VolumeOf(live, ids) == live[h].availableVolume + VolumeOf(live, ids - {h});
    if h != g {
      VolumeOfPick(live, ids - {h}, g);
      VolumeOfPick(live, ids - {g}, h);
      assert ids - {h} - {g} == ids - {g} - {h};
    }
  }

  /** The total depends only on the volumes of the quotes counted. */
  lemma {:induction false} VolumeOfAgree(a: Book, b: Book, ids: set<Guid>)
    requires ids <= a.Keys && ids <= b.Keys
    requires forall g | g in ids :: a[g].availableVolume == b[g].availableVolume
    ensures VolumeOf(a, ids) == VolumeOf(b, ids)
    decreases ids
  {
    if ids != {} {
      var g :| g in ids;
      VolumeOfPick(a, ids, g);
      VolumeOfPick(b, ids, g);
      VolumeOfAgree(a, b, ids - {g});
    }
  }

  /** A fill takes exactly its volume off the available total. */
  lemma AfterFillVolume(live: Book, f: Fill)
    requires f.id in live && f.volume <= live[f.id].availableVolume
    ensures TotalVolume(AfterFill(live, f)) + f.volume == TotalVolume(live)
  {
    var g := f.id;
    var after := AfterFill(live, f);
    VolumeOfPick(live, live.Keys, g);
    if f.volume == live[g].availableVolume {
      assert after.Keys == live.Keys - {g};
      VolumeOfAgree(after, live, live.Keys - {g});
    } else {
      assert after.Keys == live.Keys;
      VolumeOfPick(after, after.Keys, g);
      VolumeOfAgree(after, live, live.Keys - {g});
    }
  }

  /**
   * A greedy run executes exactly what it takes off the request, and the live volume
   * goes down by the same amount: volume is neither created nor lost.
   */
  lemma {:induction false} GreedyConservesVolume(live0: Book, rem0: nat, fills: seq<Fill>, live1: Book, rem1: nat)
    requires GreedyFills(live0, rem0, fills, live1, rem1)
    ensures rem1 <= rem0 && SumVolume(fills) == rem0 - rem1
    ensures TotalVolume(live1) + SumVolume(fills) == TotalVolume(live0)
    decreases |fills|
  {
    if fills != [] {
      var f := fills[0];
      AfterFillVolume(live0, f);
      GreedyConservesVolume(AfterFill(live0, f), rem0 - f.volume, fills[1..], live1, rem1);
    }
  }

  /**
   * A complete greedy run executes the whole request when the live quotes hold enough
   * volume, and all of their volume otherwise.
   */
  lemma GreedyExecutesAllItCan(live0: Book, rem0: nat, fills: seq<Fill>, live1: Book, rem1: nat)
    requires GreedyFills(live0, rem0, fills, live1, rem1) && Complete(live1, rem1)
    ensures SumVolume(fills) == Min(rem0, TotalVolume(live0))
  {
    GreedyConservesVolume(live0, rem0, fills, live1, rem1);
    if rem1 != 0 {
      assert TotalVolume(live1) == 0;
    }
  }

  /** No fill of a run is cheaper than a floor under the starting quotes, and the floor stays under the rest. */
  lemma {:induction false} GreedyKeepsFloor(live0: Book, rem0: nat, fills: seq<Fill>, live1: Book, rem1: nat, p: real)
    requires GreedyFills(live0, rem0, fills, live1, rem1)
    requires forall h | h in live0 :: p <= live0[h].price
    ensures forall i | 0 <= i < |fills| :: p <= fills[i].price
    ensures forall h | h in live1 :: p <= live1[h].price
    decreases |fills|
  {
    if fills != [] {
      var f := fills[0];
      GreedyKeepsFloor(AfterFill(live0, f), rem0 - f.volume, fills[1..], live1, rem1, p);
      assert forall i | 1 <= i < |fills| :: fills[i] == fills[1..][i - 1];
    }
  }

  /**
   * Cheapest first: fill prices never go down during a run, and no fill costs more
   * than any live quote the run leaves behind.
   */
  lemma {:induction false} GreedyCheapestFirst(live0: Book, rem0: nat, fills: seq<Fill>, live1: Book, rem1: nat)
    requires GreedyFills(live0, rem0, fills, live1, rem1)
    ensures forall i, j | 0 <= i < j < |fills| :: fills[i].price <= fills[j].price
    ensures forall i, h | 0 <= i < |fills| && h in live1 :: fills[i].price <= live1[h].price
    decreases |fills|
  {
    if fills != [] {
      var f := fills[0];
      var rest := fills[1..];
      var mid := AfterFill(live0, f);
      GreedyKeepsFloor(mid, rem0 - f.volume, rest, live1, rem1, f.price);
      GreedyCheapestFirst(mid, rem0 - f.volume, rest, live1, rem1);
      assert forall i | 1 <= i < |fills| :: fills[i] == rest[i - 1];
    }
  }

  lemma ScaleMonotone(a: real, b: real, v: real)
    requires a <= b && 0.0 <= v
    ensures a * v <= b * v
  {
    assert b * v - a * v == (b - a) * v;
  }

  lemma Distribute(a: real, v: real, w: real)
    ensures a * (v + w) == a * v + a * w
  {
  }

  /** One more fill at a price between lo and hi keeps the notional between lo and hi times the volume. */
  lemma BoundsStep(lo: real, hi: real, p: real, v: real, w: real, n: real)
    requires lo <= p <= hi && 0.0 <= v
    requires lo * w <= n <= hi * w
    ensures lo * (v + w) <= p * v + n <= hi * (v + w)
  {
    ScaleMonotone(lo, p, v);
    ScaleMonotone(p, hi, v);
    Distribute(lo, v, w);
    Distribute(hi, v, w);
  }

  lemma ScaleCancel(a: real, b: real, v: real)
    requires 0.0 < v && a * v <= b * v
    ensures a <= b
  {
  }

  /** Fill prices between lo and hi bound the notional by lo and hi times the volume. */
  lemma {:induction false} NotionalBetween(fills: seq<Fill>, lo: real, hi: real)
    requires forall i | 0 <= i < |fills| :: lo <= fills[i].price <= hi
    ensures lo * SumVolume(fills) as real <= Notional(fills) <= hi * SumVolume(fills) as real
    decreases |fills|
  {
    if fills != [] {
      var f, rest := fills[0], fills[1..];
      assert forall i | 0 <= i < |rest| :: rest[i] == fills[i + 1];
      NotionalBetween(rest, lo, hi);
      var v, w := f.volume as real, SumVolume(rest) as real;
      assert SumVolume(fills) as real == v + w;
      assert Notional(fills) == f.price * v + Notional(rest);
      BoundsStep(lo, hi, f.price, v, w, Notional(rest));
    }
  }

  /** An average of prices, each between lo and hi, is between lo and hi. */
  lemma AverageBetween(volume: uint32, notional: real, lo: real, hi: real)
    requires 0 < volume
    requires lo * volume as real <= notional <= hi * volume as real
    ensures lo <= GetWeightedAveragePrice(volume, notional) <= hi
  {
    var r := GetWeightedAveragePrice(volume, notional);
    ScaleCancel(lo, r, volume as real);
    ScaleCancel(r, hi, volume as real);
  }

  /** The volume-weighted average price of a run lies between its lowest and highest fill price. */
  lemma {:induction false} VwapBetween(fills: seq<Fill>, lo: real, hi: real)
    requires forall i | 0 <= i < |fills| :: lo <= fills[i].price <= hi
    requires 0 < SumVolume(fills) < 0x1_0000_0000
    ensures lo <= GetWeightedAveragePrice(SumVolume(fills), Notional(fills)) <= hi
  {
    NotionalBetween(fills, lo, hi);
    AverageBetween(SumVolume(fills), Notional(fills), lo, hi);
  }

  /** Lowering the volume of a live quote of s turns the live quotes of s into their state after that fill. */
  lemma LiveAfterFill(book: Book, s: string, now: DateTime, g: Guid, newVolume: uint32)
    requires g in book && book[g].symbol == s && IsValidQuote(book[g], now)
    requires newVolume <= book[g].availableVolume
    ensures var live := Live(book, s, now);
            var f := Fill(g, book[g].price, book[g].availableVolume - newVolume);
            g in live && f.volume <= live[g].availableVolume &&
            Live(book[g := book[g].(availableVolume := newVolume)], s, now) == AfterFill(live, f)
  {
    var live: Book := Live(book, s, now);
    var f := Fill(g, book[g].price, book[g].availableVolume - newVolume);
    var book': Book := book[g := book[g].(availableVolume := newVolume)];
    if newVolume == 0 {
      assert Live(book', s, now) == live - {g};
    } else {
      assert Live(book', s, now) == live[g := live[g].(availableVolume := newVolume)];
    }
  }

  // ---- the trade loop, one iteration at a time

  /**
   * The state of a trade on s for requested volume that started from the book start:
   * the fills so far are a greedy run from the live quotes of start to the live quotes
   * of book, leaving remaining volume, and book is start as a trade on s leaves it.
   */
  ghost predicate Trading(start: Book, requested: nat, fills: seq<Fill>, book: Book, remaining: nat,
                          s: string, now: DateTime)
  {
    GreedyFills(Live(start, s, now), requested, fills, Live(book, s, now), remaining) && Traded(start, book, s)
  }

  /** A trade starts with no fills and the whole request remaining. */
  lemma TradeStart(book: Book, requested: nat, s: string, now: DateTime)
    ensures Trading(book, requested, [], book, requested, s, now)
  {
  }

  /** Lazy eviction of invalid quotes of s during a trade on s leaves the trade's state intact. */
  lemma TradeEvicted(start: Book, requested: nat, fills: seq<Fill>, book: Book, remaining: nat,
                     evicted: Book, s: string, now: DateTime)
    requires Trading(start, requested, fills, book, remaining, s, now)
    requires Evicted(book, evicted, s, now)
    ensures Trading(start, requested, fills, evicted, remaining, s, now)
  {
    EvictionKeepsLive(book, evicted, s, s, now);
  }

  /**
   * Filling f from a cheapest live quote q of s, stored under g, as much as both the
   * request and q allow, and storing q back with its volume lowered by that much, is
   * one more greedy fill: the trade goes on from after with newRemaining volume.
   */
  lemma TradeFill(start: Book, requested: nat, fills: seq<Fill>, book: Book, remaining: nat,
                  s: string, now: DateTime, g: Guid, q: Quote, f: Fill, newAvailable: uint32,
                  after: Book, newRemaining: nat)
    requires Trading(start, requested, fills, book, remaining, s, now)
    requires g in book && book[g] == q && IsCheapest(Live(book, s, now), g) && 0 < remaining
    requires f == Fill(g, q.price, Min(remaining, q.availableVolume))
    requires newAvailable == q.availableVolume - f.volume
    requires after == book[g := q.(availableVolume := newAvailable)]
    requires newRemaining == remaining - f.volume
    ensures Trading(start, requested, fills + [f], after, newRemaining, s, now)
  {
    var live := Live(book, s, now);
    LiveAfterFill(book, s, now, g, newAvailable);
    assert IsGreedyFill(live, remaining, f);
    GreedyFillsSnoc(Live(start, s, now), requested, fills, live, remaining, f);
    TradedAfterFill(start, book, s, g, newAvailable);
  }

  /** Lowering the volume of a quote of s keeps the book as a trade on s leaves it. */
  lemma TradedAfterFill(start: Book, book: Book, s: string, g: Guid, newAvailable: uint32)
    requires Traded(start, book, s)
    requires g in book && book[g].symbol == s && newAvailable <= book[g].availableVolume
    ensures Traded(start, book[g := book[g].(availableVolume := newAvailable)], s)
  {
    var q := book[g];
    assert q == start[g].(availableVolume := q.availableVolume);
    assert q.(availableVolume := newAvailable) == start[g].(availableVolume := newAvailable);
  }
}
