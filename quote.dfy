/**
 * The Quote entity (Model/Quote.cs) and the TradeResult holder (Model/TradeResult.cs).
 * A quote is a value here; its identity is its Id, and the equality the runtime
 * uses for quotes compares Ids only.
 */
module Model {
  import opened Wrappers

  /** C# `uint`. Every volume is one, so an underflow is a verification error. */
  type uint32 = x: int | 0 <= x < 0x1_0000_0000

  /** C# `int`, the type of a hash code. */
  type int32 = x: int | -0x8000_0000 <= x < 0x8000_0000

  /** A Guid as its 128-bit value. */
  type Guid = x: int | 0 <= x < 0x1_0000_0000_0000_0000_0000_0000_0000_0000

  /** `Guid.Empty`, the all-zero Guid. */
  const EmptyGuid: Guid := 0

  /** A DateTime as its tick count, which is what DateTime comparison compares. */
  type DateTime = int

  /** One resting quote. The Id is `Guid?`: unassigned until the manager adds the quote. */
  datatype Quote = Quote(
    id: Option<Guid>,
    symbol: string,
    price: real,
    availableVolume: uint32,
    expirationDate: DateTime)

  /** The outcome of one trade execution. */
  datatype TradeResult = TradeResult(
    id: Guid,
    symbol: string,
    volumeWeightedAveragePrice: real,
    volumeRequested: uint32,
    volumeExecuted: uint32)

  /** What `Equals(object)` may be handed: null, a Quote, or an object of some other class. */
  datatype Object = Null | QuoteObject(quote: Quote) | OtherObject

  /** `obj as Quote`: the quote itself, or null when obj is null or not a Quote. */
  function AsQuote(obj: Object): Option<Quote>
  {
    match obj
    case QuoteObject(q) => Some(q)
    case _ => None
  }

  /** `Equals(Quote other)`: other is non-null and the nullable Ids are equal. */
  predicate Equals(q: Quote, other: Option<Quote>)
  {
    other.Some? && q.id == other.value.id
  }

  /** `Equals(object obj)`: delegates to `Equals(obj as Quote)`. */
  predicate EqualsObject(q: Quote, obj: Object)
  {
    Equals(q, AsQuote(obj))
  }

  /** Two's-complement wrap-around of an integer into C# `int` (unchecked arithmetic). */
  function WrapInt32(x: int): (r: int32)
    ensures (r - x) % 0x1_0000_0000 == 0
    ensures -0x8000_0000 <= x < 0x8000_0000 ==> r == x
  {
    var m := x % 0x1_0000_0000;
    if m < 0x8000_0000 then m else m - 0x1_0000_0000
  }

  /** `Nullable<Guid>.GetHashCode`: 0 without a value, otherwise the Guid's own hash. */
  function NullableHashCode(id: Option<Guid>, guidHash: Guid -> int32): int32
  {
    if id.Some? then guidHash(id.value) else 0
  }

  /**
   * `GetHashCode`: 2108858624 plus the hash of the Id, in unchecked 32-bit arithmetic.
   * `Guid.GetHashCode` belongs to the runtime and is a parameter.
   */
  function GetHashCode(q: Quote, guidHash: Guid -> int32): int32
  {
    WrapInt32(2108858624 + NullableHashCode(q.id, guidHash))
  }

  /** Equality is decided by the Id alone, in both directions. */
  lemma EqualsIffSameId(q: Quote, other: Quote)
    ensures Equals(q, Some(other)) <==> q.id == other.id
    ensures !Equals(q, None)
  {
  }

  /** Equality ignores Symbol, Price, AvailableVolume and ExpirationDate. */
  lemma EqualsIgnoresPayload(q: Quote, other: Quote, symbol: string, price: real, volume: uint32, expiration: DateTime)
    ensures Equals(q, Some(other)) ==
            Equals(q, Some(other.(symbol := symbol, price := price, availableVolume := volume, expirationDate := expiration)))
  {
  }

  /** Two quotes whose Ids are both unassigned are equal. */
  lemma UnassignedIdsAreEqual(q: Quote, other: Quote)
    requires q.id.None? && other.id.None?
    ensures Equals(q, Some(other)) && Equals(other, Some(q))
  {
  }

  /** Quote equality is an equivalence relation. */
  lemma EqualsIsEquivalence(a: Quote, b: Quote, c: Quote)
    ensures Equals(a, Some(a))
    ensures Equals(a, Some(b)) ==> Equals(b, Some(a))
    ensures Equals(a, Some(b)) && Equals(b, Some(c)) ==> Equals(a, Some(c))
  {
  }

  /** `Equals(object)` is false for null and for non-quotes, and agrees with `Equals(Quote)` otherwise. */
  lemma EqualsObjectDelegates(q: Quote, other: Quote)
    ensures !EqualsObject(q, Null)
    ensures !EqualsObject(q, OtherObject)
    ensures EqualsObject(q, QuoteObject(other)) == Equals(q, Some(other))
  {
  }

  /** Equal quotes have equal hash codes, whatever the Guid hash is. */
  lemma EqualQuotesHaveEqualHashCodes(a: Quote, b: Quote, guidHash: Guid -> int32)
    requires Equals(a, Some(b))
    ensures GetHashCode(a, guidHash) == GetHashCode(b, guidHash)
  {
  }

  /** The hash of a quote with no Id is the constant 2108858624, which fits in an `int`. */
  lemma UnassignedIdHashCode(q: Quote, guidHash: Guid -> int32)
    requires q.id.None?
    ensures GetHashCode(q, guidHash) == 2108858624
  {
  }
}
