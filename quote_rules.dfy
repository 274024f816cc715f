/**
 * The pure helpers of the quote manager (Services/QuoteManager.cs): quote validity,
 * one step of the fill arithmetic, and the volume-weighted average price.
 * The wall clock `DateTime.Now` is the parameter `now`.
 */
module QuoteRules {
  import opened Model

  /** A quote has expired once the current time is past its expiration date. */
  predicate IsExpiredQuote(q: Quote, now: DateTime)
  {
    now > q.expirationDate
  }

  /** A quote has volume left to trade. */
  predicate HasAvailableVolume(q: Quote)
  {
    q.availableVolume > 0
  }

  /** A quote may be returned or traded: it has volume and has not expired. */
  predicate IsValidQuote(q: Quote, now: DateTime)
  {
    HasAvailableVolume(q) && !IsExpiredQuote(q, now)
  }

  /** A quote is still good at its expiration date itself, and expired from the next tick on. */
  lemma ExpiryBoundary(q: Quote)
    ensures !IsExpiredQuote(q, q.expirationDate)
    ensures forall now | now > q.expirationDate :: IsExpiredQuote(q, now)
  {
  }

  /**
   * Time only moves quotes towards expiry: a quote expired at now is expired at every later
   * time, and a quote valid at a later time was valid at now.
   */
  lemma ExpiryMonotone(q: Quote, now: DateTime, later: DateTime)
    requires now <= later
    ensures IsExpiredQuote(q, now) ==> IsExpiredQuote(q, later)
    ensures IsValidQuote(q, later) ==> IsValidQuote(q, now)
  {
  }

  function Min(a: int, b: int): int
  {
    if a <= b then a else b
  }

  /** The three values one iteration of the trade loop computes from the remaining request and a quote's volume. */
  datatype FillStep = FillStep(newAvailable: uint32, used: uint32, newRemaining: uint32)

  /**
   * One fill against one quote, with the unsigned guards the trade loop uses so that no
   * subtraction goes below zero. It consumes the smaller of the two volumes and takes
   * that amount off both.
   */
  function Consume(remaining: uint32, quoteVolume: uint32): (r: FillStep)
    ensures r.used == Min(remaining, quoteVolume)
    ensures r.newAvailable == quoteVolume - r.used
    ensures r.newRemaining == remaining - r.used
    ensures r.newAvailable == 0 || r.newRemaining == 0
  {
    var newAvailable: uint32 := if remaining < quoteVolume then quoteVolume - remaining else 0;
    var used: uint32 := if newAvailable == 0 then quoteVolume else remaining;
    var newRemaining: uint32 := if remaining < quoteVolume then 0 else remaining - quoteVolume;
    FillStep(newAvailable, used, newRemaining)
  }

  /** Total notional divided by executed volume, and 0 rather than a division by zero when nothing executed. */
  function GetWeightedAveragePrice(volumeExecuted: uint32, tradeTotalPrice: real): (r: real)
    ensures volumeExecuted == 0 ==> r == 0.0
    ensures volumeExecuted != 0 ==> r * volumeExecuted as real == tradeTotalPrice
  {
    if volumeExecuted != 0 then tradeTotalPrice / volumeExecuted as real else 0.0
  }
}
