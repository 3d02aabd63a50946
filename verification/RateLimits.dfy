/** The leaky bucket arithmetic of RateLimits.java and the time-to-live of
    CosmosTokenRateLimiter.java, with `real` for double. */
module RateLimits {
  import Words

  // An instant is a count of nanoseconds.
  type Instant = int

  datatype Config = Config(bucketSize: nat, leakRateScalar: nat, leakRateSeconds: nat) {
    predicate Valid() { leakRateScalar > 0 && leakRateSeconds > 0 }
  }

  datatype Outcome = Accepted(amount: real) | Exceeded(retrySeconds: int)

  // Duration.between(...).toSeconds() rounds towards the past.
  function Seconds(from: Instant, to: Instant): int { (to - from) / 1_000_000_000 }

  function Max(a: real, b: real): real { if a > b then a else b }

  // What leaks in s seconds.
  function Leak(c: Config, s: real): real
    requires c.Valid()
  {
    s / c.leakRateSeconds as real * c.leakRateScalar as real
  }

  function Current(c: Config, lastUpdated: Instant, now: Instant, prior: real): real
    requires c.Valid()
  {
    Max(0.0, prior - Leak(c, Seconds(lastUpdated, now) as real))
  }

  // The wait reported for an overage: whole seconds, rounded up past it.
  function Retry(c: Config, overage: real): int
    requires c.Valid()
  {
    1 + (overage / c.leakRateScalar as real * c.leakRateSeconds as real).Floor
  }

  /** checkOverage */
  function CheckOverage(c: Config, amount: real): Outcome
    requires c.Valid()
  {
    var overage := amount - c.bucketSize as real;
    if overage > 0.0
    then Exceeded(Retry(c, overage))
    else Accepted(amount)
  }

  /** calculateBucketUtilization */
  function BucketUtilization(c: Config, lastUpdated: Instant, now: Instant, prior: real, delta: real): Outcome
    requires c.Valid()
  {
    CheckOverage(c, Current(c, lastUpdated, now, prior) + delta)
  }

  /** What is accepted never overfills the bucket, and accounts for everything: the charge is
      covered by the rise of the level plus what leaked. */
  lemma AcceptedBounds(c: Config, lastUpdated: Instant, now: Instant, prior: real, delta: real)
    requires c.Valid() && delta >= 0.0
    ensures match BucketUtilization(c, lastUpdated, now, prior, delta)
      case Accepted(a) =>
        && delta <= a <= c.bucketSize as real
        && delta <= a - prior + Leak(c, Seconds(lastUpdated, now) as real)
      case Exceeded(r) => r >= 1
  {
    hide Leak, Retry;
    var overage := Current(c, lastUpdated, now, prior) + delta - c.bucketSize as real;
    if overage > 0.0 { RetryCovers(c, overage); }
  }

  // Whole seconds from one instant to another.
  predicate WholeSeconds(from: Instant, to: Instant, s: int) {
    s * 1_000_000_000 <= to - from < (s + 1) * 1_000_000_000
  }

  /** The decision and the level in plain numbers.  While the bucket still holds something, the charge
      comes on top of what has not leaked; a bucket that has drained holds just the charge; and a
      charge is refused exactly if the level would be over the size. */
  lemma LevelExact(c: Config, lastUpdated: Instant, now: Instant, prior: real, delta: real, s: int)
    requires c.Valid() && WholeSeconds(lastUpdated, now, s)
    ensures var k, d, size := c.leakRateScalar as real, c.leakRateSeconds as real, c.bucketSize as real;
      match BucketUtilization(c, lastUpdated, now, prior, delta)
      case Accepted(a) =>
        && a <= size
        && (prior * d >= k * s as real ==> (a - delta) * d == prior * d - k * s as real)
        && (prior * d <= k * s as real ==> a == delta)
      case Exceeded(_) =>
        && (prior * d >= k * s as real ==> (size - delta) * d < prior * d - k * s as real)
        && (prior * d <= k * s as real ==> delta > size)
  {
    var k, d, x := c.leakRateScalar as real, c.leakRateSeconds as real, Leak(c, s as real);
    assert Seconds(lastUpdated, now) == s;
    LeakTimes(c, s as real);
    hide Leak, Retry;
    ScaleOrder(prior, x, d);
    ScaleOrder(c.bucketSize as real - delta, prior - x, d);
    assert (prior - x) * d == prior * d - x * d;
  }

  lemma LeakTimes(c: Config, s: real)
    requires c.Valid()
    ensures Leak(c, s) * c.leakRateSeconds as real == c.leakRateScalar as real * s
  {
    var d, k := c.leakRateSeconds as real, c.leakRateScalar as real;
    var q := s / d;
    assert q * d == s;
    assert (q * k) * d == k * (q * d);
  }

  lemma ScaleOrder(x: real, y: real, d: real)
    requires d > 0.0
    ensures x <= y <==> x * d <= y * d
  {
    if x <= y { RealMono(d, x, y); } else { ProductPositive(x - y, d); assert (x - y) * d == x * d - y * d; }
  }

  lemma LeakAdd(c: Config, s: real, t: real)
    requires c.Valid()
    ensures Leak(c, s + t) == Leak(c, s) + Leak(c, t)
  {
    LeakIs(c, s);
    LeakIs(c, t);
    LeakIs(c, s + t);
  }

  lemma LeakMono(c: Config, s: real, t: real)
    requires c.Valid() && s <= t
    ensures Leak(c, s) <= Leak(c, t)
  {
    var k, d := c.leakRateScalar as real, c.leakRateSeconds as real;
    LeakIs(c, s);
    LeakIs(c, t);
    QuotientPositive(k, d);
    RealMono(k / d, s, t);
  }

  lemma LeakOrder(c: Config, s: real, t: real)
    requires c.Valid()
    ensures Leak(c, s) <= Leak(c, t) <==> s <= t
  {
    if s <= t {
      LeakMono(c, s, t);
    } else {
      var r := c.leakRateScalar as real / c.leakRateSeconds as real;
      LeakIs(c, s);
      LeakIs(c, t);
      QuotientPositive(c.leakRateScalar as real, c.leakRateSeconds as real);
      ProductPositive(r, s - t);
      assert r * (s - t) == r * s - r * t;
    }
  }

  // Leak is linear in the time.
  lemma LeakIs(c: Config, s: real)
    requires c.Valid()
    ensures Leak(c, s) == c.leakRateScalar as real / c.leakRateSeconds as real * s
  {
    RealSwap(s, c.leakRateSeconds as real, c.leakRateScalar as real);
  }

  lemma RealSwap(s: real, d: real, k: real)
    requires d > 0.0
    ensures s / d * k == k / d * s
  {
    var a, b := s / d, k / d;
    assert a * d == s && b * d == k;
    assert a * k == a * (b * d) == (a * d) * b;
  }

  // The wait leaks at least the overage.
  lemma RetryCovers(c: Config, overage: real)
    requires c.Valid() && overage > 0.0
    ensures Retry(c, overage) >= 1 && Leak(c, Retry(c, overage) as real) >= overage
  {
    var d, k := c.leakRateSeconds as real, c.leakRateScalar as real;
    var x := overage / k * d;
    QuotientPositive(overage, k);
    ProductPositive(overage / k, d);
    assert Retry(c, overage) as real >= x;
    RetryLeaks(c, overage);
    LeakMono(c, x, Retry(c, overage) as real);
  }

  lemma CancelFactor(a: real, d: real)
    requires d > 0.0
    ensures a * d / d == a
  {
  }

  lemma QuotientPositive(a: real, b: real)
    requires a > 0.0 && b > 0.0
    ensures a / b > 0.0
  {
    var q := a / b;
    assert q * b == a;
    if q <= 0.0 { RealMono(b, q, 0.0); }
  }

  lemma ProductPositive(a: real, b: real)
    requires a > 0.0 && b > 0.0
    ensures a * b > 0.0
  {
  }

  lemma RealMono(k: real, x: real, y: real)
    requires k >= 0.0 && x <= y
    ensures k * x <= k * y
  {
  }

  /** The retry hint is exact advice: after waiting that long, with nothing else happening, the
      same charge is accepted if and only if it fits an empty bucket at all. */
  lemma RetryWorksIff(c: Config, lastUpdated: Instant, now: Instant, prior: real, delta: real)
    requires c.Valid() && BucketUtilization(c, lastUpdated, now, prior, delta).Exceeded?
    ensures var wait := BucketUtilization(c, lastUpdated, now, prior, delta).retrySeconds;
      var later := BucketUtilization(c, lastUpdated, now + wait * 1_000_000_000, prior, delta);
      later.Accepted? <==> delta <= c.bucketSize as real
  {
    hide Leak, Retry;
    var s, overage := Seconds(lastUpdated, now), Current(c, lastUpdated, now, prior) + delta - c.bucketSize as real;
    RetryCovers(c, overage);
    var wait := Retry(c, overage);
    assert Seconds(lastUpdated, now + wait * 1_000_000_000) == s + wait;
    LeakAdd(c, s as real, wait as real);
    RetryCore(prior, Leak(c, s as real), Leak(c, wait as real), delta, c.bucketSize as real);
  }

  /** And it is tight: no wait that is shorter by more than a second is enough. */
  lemma RetryTight(c: Config, lastUpdated: Instant, now: Instant, prior: real, delta: real, wait: int)
    requires c.Valid() && BucketUtilization(c, lastUpdated, now, prior, delta).Exceeded?
    requires wait < BucketUtilization(c, lastUpdated, now, prior, delta).retrySeconds - 1
    ensures BucketUtilization(c, lastUpdated, now + wait * 1_000_000_000, prior, delta).Exceeded?
  {
    var s, overage := Seconds(lastUpdated, now), Current(c, lastUpdated, now, prior) + delta - c.bucketSize as real;
    var d, k := c.leakRateSeconds as real, c.leakRateScalar as real;
    var x := overage / k * d;
    RetryLeaks(c, overage);
    LeakOrder(c, x, wait as real);
    assert Seconds(lastUpdated, now + wait * 1_000_000_000) == s + wait;
    LeakAdd(c, s as real, wait as real);
    hide Leak;
  }

  lemma RetryLeaks(c: Config, overage: real)
    requires c.Valid()
    ensures Leak(c, overage / c.leakRateScalar as real * c.leakRateSeconds as real) == overage
  {
    var d, k := c.leakRateSeconds as real, c.leakRateScalar as real;
    var a := overage / k;
    assert a * k == overage;
    CancelFactor(a, d);
  }

  lemma RetryCore(prior: real, leaked: real, more: real, delta: real, size: real)
    requires Max(0.0, prior - leaked) + delta - size > 0.0
    requires more >= Max(0.0, prior - leaked) + delta - size
    ensures Max(0.0, prior - (leaked + more)) + delta - size <= 0.0 <==> delta <= size
  {
  }

  // ----- time to live

  /** getTtl: the time a full bucket takes to drain, cut to an int. */
  function Ttl(c: Config): int
    requires c.Valid()
  {
    var secs := CeilDiv(c.bucketSize, c.leakRateScalar) * c.leakRateSeconds;
    if secs < Words.INT_MAX then secs else Words.INT_MAX
  }

  function CeilDiv(a: nat, b: nat): (q: nat)
    requires b > 0
    ensures a <= q * b < a + b
  {
    CeilCovers(a, b);
    (a + b - 1) / b
  }

  lemma CeilCovers(a: nat, b: nat)
    requires b > 0
    ensures (a + b - 1) / b >= 0 && a <= ((a + b - 1) / b) * b < a + b
  {
    Words.DivNonNeg(a + b - 1, b);
    Words.DivMulBounds(a + b - 1, b);
  }

  /** It is the least number of leak intervals that drain a full bucket, in seconds, but at most INT_MAX. */
  lemma TtlLeast(c: Config) returns (n: nat)
    requires c.Valid()
    ensures c.bucketSize <= n * c.leakRateScalar < c.bucketSize + c.leakRateScalar
    ensures Ttl(c) == if n * c.leakRateSeconds < 0x7FFF_FFFF then n * c.leakRateSeconds else 0x7FFF_FFFF
  {
    n := CeilDiv(c.bucketSize, c.leakRateScalar);
  }

  // A bucket untouched for `idle` seconds, at any level it may have, counts as empty.
  ghost predicate Drained(c: Config, idle: int)
    requires c.Valid()
  {
    forall prior: real, last: Instant, now: Instant ::
      prior <= c.bucketSize as real && Seconds(last, now) >= idle ==> Current(c, last, now, prior) == 0.0
  }

  /** Dropping a bucket after its time to live loses nothing exactly when that time leaks the
      whole bucket; which it does whenever the time to live was not cut to an int. */
  lemma DropAfterTtlIff(c: Config)
    requires c.Valid()
    ensures Drained(c, Ttl(c)) <==> c.bucketSize * c.leakRateSeconds <= c.leakRateScalar * Ttl(c)
    ensures CeilDiv(c.bucketSize, c.leakRateScalar) * c.leakRateSeconds <= Words.INT_MAX ==> Drained(c, Ttl(c))
  {
    var ttl := Ttl(c);
    LeakReaches(c, ttl);
    if CeilDiv(c.bucketSize, c.leakRateScalar) * c.leakRateSeconds <= Words.INT_MAX { TtlCovers(c); }
    hide Leak, Ttl, CeilDiv;
    if Leak(c, ttl as real) >= c.bucketSize as real {
      forall prior: real, last: Instant, now: Instant | prior <= c.bucketSize as real && Seconds(last, now) >= ttl
        ensures Current(c, last, now, prior) == 0.0
      {
        LeakMono(c, ttl as real, Seconds(last, now) as real);
      }
    } else {
      assert Seconds(0, ttl * 1_000_000_000) == ttl;
      assert Current(c, 0, ttl * 1_000_000_000, c.bucketSize as real) > 0.0;
    }
  }

  /** So replacing such a bucket by a new empty one changes no later decision. */
  lemma DropUnobservable(c: Config, prior: real, last: Instant, created: Instant, now: Instant, delta: real)
    requires c.Valid() && c.bucketSize * c.leakRateSeconds <= c.leakRateScalar * Ttl(c)
    requires prior <= c.bucketSize as real && Seconds(last, now) >= Ttl(c) && created <= now
    ensures BucketUtilization(c, last, now, prior, delta) == BucketUtilization(c, created, now, 0.0, delta)
  {
    DropAfterTtlIff(c);
    LeakAdd(c, 0.0, 0.0);
    LeakMono(c, 0.0, Seconds(created, now) as real);
    hide Leak, Ttl;
    assert Current(c, last, now, prior) == 0.0;
  }

  lemma TtlCovers(c: Config)
    requires c.Valid() && CeilDiv(c.bucketSize, c.leakRateScalar) * c.leakRateSeconds <= Words.INT_MAX
    ensures c.bucketSize * c.leakRateSeconds <= c.leakRateScalar * Ttl(c)
  {
    var q := CeilDiv(c.bucketSize, c.leakRateScalar);
    Words.MulMonotone(c.bucketSize, q * c.leakRateScalar, c.leakRateSeconds);
    assert (q * c.leakRateScalar) * c.leakRateSeconds == c.leakRateScalar * (q * c.leakRateSeconds);
  }

  lemma LeakReaches(c: Config, s: int)
    requires c.Valid()
    ensures Leak(c, s as real) >= c.bucketSize as real <==> c.bucketSize * c.leakRateSeconds <= c.leakRateScalar * s
  {
    var d, k, b := c.leakRateSeconds as real, c.leakRateScalar as real, c.bucketSize as real;
    LeakIs(c, s as real);
    DivideThrough(b, d, k, s as real);
    assert (c.bucketSize * c.leakRateSeconds) as real == b * d;
    assert (c.leakRateScalar * s) as real == k * s as real;
  }

  lemma DivideThrough(b: real, d: real, k: real, s: real)
    requires d > 0.0
    ensures b * d <= k * s <==> b <= k / d * s
  {
    var r := k / d;
    assert r * d == k;
    assert k * s == (r * s) * d;
    var x := r * s;
    if b <= x { RealMono(d, b, x); } else { ProductPositive(b - x, d); }
  }
}
