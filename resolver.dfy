/**
 * The per-address resolver `GetSolBalance` of main.go: a cache-aside read.
 *
 * The cache lookup, the upstream provider's answer and the clock reading are inputs;
 * the result says what the resolver returns and which effects it triggers (whether it
 * asked the provider, and which cache write it queued fire-and-forget).
 */
module Resolver {
  import opened Wrappers

  /** A base58 wallet address, used as the cache and lock key suffix. */
  type Address = string

  /** A SOL balance. The source's float64, here an exact number that is only copied. */
  type Amount = real

  /** The balance reported for an address whose resolution failed. */
  const ZeroAmount: Amount := 0.0

  /** The cached value stored under `wallet:<address>` (the source's `Balance`). */
  datatype BalanceRecord = BalanceRecord(wallet: Address, amount: Amount, fetchedAt: int)

  /**
   * What `GetBalanceFromCache` reported: a record (no error, non-nil pointer), a miss
   * (no error, nil pointer) or an error (a Redis failure or a record that does not decode).
   */
  datatype CacheLookup = Hit(amount: Amount) | Miss | CacheError(message: string)

  /** What the upstream provider answered, already converted from lamports to SOL. */
  datatype ProviderResult = Fetched(amount: Amount) | ProviderError(message: string)

  /**
   * The resolver's outcome: the Go triple `(amount, fromCache, err)` together with the
   * effects it had — whether it called the provider and which cache write it queued.
   */
  datatype Resolution = Resolution(
    amount: Amount,
    fromCache: bool,
    err: Option<string>,
    providerCalled: bool,
    cacheWrite: Option<BalanceRecord>)

  /**
   * Resolve one address: a usable cache record is returned as is; anything else falls
   * through to the provider, whose failure yields `(0, false, err)` and whose success
   * queues a cache write of the fetched amount (stamped with the clock reading `now`).
   */
  function GetSolBalance(address: Address, cached: CacheLookup, provider: ProviderResult, now: int): (r: Resolution)
    // Served from cache exactly when the lookup found a record, and then the provider is not consulted.
    ensures r.fromCache <==> cached.Hit?
    ensures r.fromCache <==> !r.providerCalled
    ensures cached.Hit? ==> r.amount == cached.amount && r.err == None && r.cacheWrite == None
    // The resolution fails exactly when the cache had nothing usable and the provider failed.
    ensures r.err.Some? <==> !cached.Hit? && provider.ProviderError?
    ensures r.err.Some? ==> r.err == Some(provider.message) && r.amount == ZeroAmount && r.cacheWrite == None
    // A live fetch that succeeded returns the provider's amount and caches that same amount for this address.
    ensures r.providerCalled && r.err.None? ==> r.amount == provider.amount
    ensures r.cacheWrite.Some? <==> r.providerCalled && r.err.None?
    ensures r.cacheWrite.Some? ==> r.cacheWrite.value == BalanceRecord(address, r.amount, now)
  {
    match cached
    case Hit(amount) => Resolution(amount, true, None, false, None)
    case _ =>
      match provider
      case ProviderError(message) => Resolution(ZeroAmount, false, Some(message), true, None)
      case Fetched(amount) => Resolution(amount, false, None, true, Some(BalanceRecord(address, amount, now)))
  }

  /** On a cache hit the provider's answer cannot influence anything: it is never asked. */
  lemma HitIgnoresProvider(address: Address, amount: Amount, p1: ProviderResult, p2: ProviderResult, now: int)
    ensures GetSolBalance(address, Hit(amount), p1, now) == GetSolBalance(address, Hit(amount), p2, now)
    ensures !GetSolBalance(address, Hit(amount), p1, now).providerCalled
  {
  }

  /** A failing cache read is handled exactly like a miss: both fall through to the provider. */
  lemma CacheErrorActsAsMiss(address: Address, message: string, provider: ProviderResult, now: int)
    ensures GetSolBalance(address, CacheError(message), provider, now) == GetSolBalance(address, Miss, provider, now)
    ensures GetSolBalance(address, Miss, provider, now).providerCalled
  {
  }
}
