/**
 * Currency conversion (`get_exchange_rate`, `convert_amount`): a per-process
 * cache of rates keyed by the ordered currency pair, entries younger than
 * twelve hours reused, a remote lookup otherwise, and a rate of 1 whenever
 * no usable rate is found.
 *
 * The cache is passed in and returned; the clock reading and the outcome of
 * the remote lookup are parameters.
 */
module Exchange {
  import opened Decimals
  import opened Ledger

  /** Twelve hours in microseconds, the resolution of `timedelta`. */
  const CacheTimeout: int := 12 * 60 * 60 * 1_000_000

  datatype Entry = Entry(rate: Dec, stamp: int)

  type Cache = map<(string, string), Entry>

  /** What the remote lookup yields: nothing usable (a network error, a bad
      status, an unparsable body) or the number in its `result` field
      (a missing or null field reads as 0). */
  datatype FetchOutcome = Failed | Returned(result: Dec)

  const One: Dec := Dec(1, 0)

  predicate Positive(d: Dec) {
    d.coef > 0
  }

  /** An entry stored at `stamp` is still fresh at `now`. */
  predicate Fresh(e: Entry, now: int) {
    now - e.stamp < CacheTimeout
  }

  /** `get_exchange_rate(base, target)`: the rate and the cache afterwards. */
  function GetExchangeRate(base: string, target: string, cache: Cache, now: int, fetched: FetchOutcome): (r: (Dec, Cache))
    ensures NormalizeCurrency(base) == NormalizeCurrency(target) ==> r == (One, cache)
    ensures var key := (NormalizeCurrency(base), NormalizeCurrency(target));
      key.0 != key.1 && key in cache && Fresh(cache[key], now) ==> r == (cache[key].rate, cache)
    ensures r.1 == cache || r.1 == cache[(NormalizeCurrency(base), NormalizeCurrency(target)) := Entry(r.0, now)]
    ensures r.1 != cache ==> Positive(r.0) && fetched == Returned(r.0)
    ensures forall k :: k in r.1 && k !in cache ==> Positive(r.1[k].rate)
  {
    var b := NormalizeCurrency(base);
    var t := NormalizeCurrency(target);
    if b == t then (One, cache)
    else if (b, t) in cache && Fresh(cache[(b, t)], now) then (cache[(b, t)].rate, cache)
    else match fetched
      case Returned(rate) =>
        if Positive(rate) then (rate, cache[(b, t) := Entry(rate, now)]) else (One, cache)
      case Failed => (One, cache)
  }

  /** The rate returned is always either 1 or a rate some lookup produced, and
      a rate that comes from a fresh lookup is positive. */
  lemma RateSources(base: string, target: string, cache: Cache, now: int, fetched: FetchOutcome)
    ensures var (rate, _) := GetExchangeRate(base, target, cache, now, fetched);
      || rate == One
      || (fetched == Returned(rate) && Positive(rate))
      || (exists k :: k in cache && cache[k].rate == rate)
  {
  }

  /** The same pair in either spelling of case, or both blank, needs neither the
      cache nor the network. */
  lemma SameCurrencyNeedsNothing(base: string, target: string, c1: Cache, c2: Cache, n1: int, n2: int, f1: FetchOutcome, f2: FetchOutcome)
    requires NormalizeCurrency(base) == NormalizeCurrency(target)
    ensures GetExchangeRate(base, target, c1, n1, f1).0 == GetExchangeRate(base, target, c2, n2, f2).0 == One
  {
  }

  /** A fresh cache hit does not depend on the lookup. */
  lemma FreshHitNeedsNoLookup(base: string, target: string, cache: Cache, now: int, f1: FetchOutcome, f2: FetchOutcome)
    requires NormalizeCurrency(base) != NormalizeCurrency(target)
    requires (NormalizeCurrency(base), NormalizeCurrency(target)) in cache
    requires Fresh(cache[(NormalizeCurrency(base), NormalizeCurrency(target))], now)
    ensures GetExchangeRate(base, target, cache, now, f1) == GetExchangeRate(base, target, cache, now, f2)
  {
  }

  /** The cache only ever holds positive rates, and an entry is keyed by the
      ordered pair: storing USD→EUR says nothing about EUR→USD. */
  lemma CacheHoldsPositiveRates(base: string, target: string, cache: Cache, now: int, fetched: FetchOutcome)
    requires forall k :: k in cache ==> Positive(cache[k].rate)
    ensures var c := GetExchangeRate(base, target, cache, now, fetched).1;
      && (forall k :: k in c ==> Positive(c[k].rate))
      && (forall k :: k in c && k != (NormalizeCurrency(base), NormalizeCurrency(target)) ==> k in cache && c[k] == cache[k])
  {
  }

  /** A lookup that fails or yields a non-positive number gives 1 and leaves
      the cache alone. */
  lemma UnusableLookupFallsBack(base: string, target: string, cache: Cache, now: int, fetched: FetchOutcome)
    requires NormalizeCurrency(base) != NormalizeCurrency(target)
    requires var key := (NormalizeCurrency(base), NormalizeCurrency(target)); !(key in cache && Fresh(cache[key], now))
    requires fetched.Failed? || !Positive(fetched.result)
    ensures GetExchangeRate(base, target, cache, now, fetched) == (One, cache)
  {
  }

  /** `convert_amount(amount, base, target)`: the amount times the rate,
      rounded half-even to cents. When the product has at most two places it
      is exact; otherwise the result is the nearest cent count, and at an
      exact half cent the even one. */
  function ConvertAmount(amount: Dec, base: string, target: string, cache: Cache, now: int, fetched: FetchOutcome): (r: (Dec, Cache))
    ensures r.0.scale == 2
    ensures r.1 == GetExchangeRate(base, target, cache, now, fetched).1
    ensures var rate := GetExchangeRate(base, target, cache, now, fetched).0;
      rate.scale + amount.scale <= 2 ==>
        r.0.coef * Pow10(amount.scale) * Pow10(rate.scale) == amount.coef * rate.coef * 100
    ensures var rate := GetExchangeRate(base, target, cache, now, fetched).0;
      rate.scale + amount.scale > 2 ==>
        var p := Pow10(amount.scale + rate.scale - 2);
        var n := amount.coef * rate.coef;
        2 * Abs(n - r.0.coef * p) < p || (2 * Abs(n - r.0.coef * p) == p && r.0.coef % 2 == 0)
  {
    var (rate, cache1) := GetExchangeRate(base, target, cache, now, fetched);
    var product := Mul(amount, rate);
    (QuantizeCents(product), cache1)
  }

  /** Converting an amount in cents to its own currency gives it back. */
  lemma ConvertToSameCurrency(amount: Dec, c: string, cache: Cache, now: int, fetched: FetchOutcome)
    requires amount.scale == 2
    ensures ConvertAmount(amount, c, c, cache, now, fetched) == (amount, cache)
  {
    var product := Mul(amount, One);
    assert product == amount;
  }
}
