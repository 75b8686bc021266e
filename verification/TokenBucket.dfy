/**
 The transfer rate limiter of src/ftp_session.c (`rate_limit`): a token bucket in unsigned 64-bit
 arithmetic, refilled from a monotonic clock between sleeps.
 */
module TokenBucket {
  const WRAP: nat := 0x1_0000_0000_0000_0000
  const BILLION: nat := 1_000_000_000

  /** The two session fields; `last` is 0 before the first call. */
  datatype Bucket = Bucket(tokens: nat, last: nat)

  /** The configured rate in bytes per second, and the most the bucket holds. */
  datatype Limit = Limit(rate: nat, cap: nat)

  function LimitOf(rate: nat, burst: nat): Limit {
    Limit(rate, if burst != 0 then burst else rate)
  }

  /** The product, defined so that it is only multiplied out where that is needed. */
  function Times(a: nat, b: nat): nat {
    if a == 0 then 0 else b + Times(a - 1, b)
  }

  lemma {:induction false} TimesIs(a: nat, b: nat)
    ensures Times(a, b) == a * b
  {
    if a > 0 {
      TimesIs(a - 1, b);
    }
  }

  lemma TimesAdds(a: nat, b: nat, c: nat)
    ensures Times(a + b, c) == Times(a, c) + Times(b, c)
  {
    TimesIs(a + b, c);
    TimesIs(a, c);
    TimesIs(b, c);
  }

  /** The tokens `elapsed` nanoseconds bring; the product wraps at 64 bits. */
  function Added(l: Limit, elapsed: nat): nat {
    (Times(elapsed, l.rate) % WRAP) / BILLION
  }

  /** What a clock reading does to the bucket. */
  function Observe(l: Limit, b: Bucket, now: nat): Bucket {
    if b.last == 0 then Bucket(l.cap, now)
    else if now > b.last then
      var add := Added(l, now - b.last);
      var t := (b.tokens + add) % WRAP;
      Bucket(if add == 0 then b.tokens else if t > l.cap then l.cap else t, now)
    else b
  }

  /** The bucket after the first `k` readings of a call. */
  function After(l: Limit, b: Bucket, clock: nat -> nat, k: nat): Bucket {
    if k == 0 then b else Observe(l, After(l, b, clock, k - 1), clock(k - 1))
  }

  function Take(b: Bucket, n: nat): Bucket {
    b.(tokens := if b.tokens >= n then b.tokens - n else 0)
  }

  /** After `k` readings the loop is left: there are enough tokens, or the next reading does not advance. */
  predicate Leaves(l: Limit, b: Bucket, clock: nat -> nat, n: nat, k: nat) {
    After(l, b, clock, k).tokens >= n || clock(k) <= After(l, b, clock, k).last
  }

  /** After `k` readings there are tokens for `n` bytes. */
  predicate Enough(l: Limit, b: Bucket, clock: nat -> nat, n: nat, k: nat) {
    After(l, b, clock, k).tokens >= n
  }

  function Quotient(a: nat, b: nat): nat
    requires b > 0
  {
    a / b
  }

  predicate Short(l: Limit, b: Bucket, clock: nat -> nat, n: nat, k: nat) {
    After(l, b, clock, k).tokens < n
  }

  /** Before reading `k` there were never enough tokens. */
  predicate ShortBefore(l: Limit, b: Bucket, clock: nat -> nat, n: nat, k: nat) {
    forall j :: 1 <= j < k ==> Short(l, b, clock, n, j)
  }

  lemma ShortMore(l: Limit, b: Bucket, clock: nat -> nat, n: nat, k: nat)
    requires ShortBefore(l, b, clock, n, k) && Short(l, b, clock, n, k)
    ensures ShortBefore(l, b, clock, n, k + 1)
  {
  }

  /** How long the loop asks to sleep for `missing` tokens, in microseconds. */
  function Wait(l: Limit, missing: nat): (us: nat)
    requires l.rate > 0
    ensures us <= 500_000
  {
    var ns := Quotient((missing * BILLION + l.rate - 1) % WRAP, l.rate);
    var us := (ns + 999) / 1000;
    if us > 500_000 then 500_000 else us
  }

  class Limiter {
    const limit: Limit
    var bucket: Bucket

    constructor (rate: nat, burst: nat)
      ensures limit == LimitOf(rate, burst) && bucket == Bucket(0, 0)
    {
      limit := LimitOf(rate, burst);
      bucket := Bucket(0, 0);
    }

    /**
     `rate_limit` on `n` bytes; `clock(i)` is the i-th reading and `k` how many were taken. The call
     returns when some `stop` leaves the loop.
     */
    method RateLimit(n: nat, clock: nat -> nat, ghost stop: nat) returns (k: nat)
      requires bucket.tokens <= limit.cap < WRAP
      requires 1 <= stop && Leaves(limit, bucket, clock, n, stop)
      modifies this
      ensures k <= stop + 1 && bucket.tokens <= limit.cap
      ensures n == 0 || limit.rate == 0 || clock(0) == 0 ==> bucket == old(bucket)
      ensures n > 0 && limit.rate > 0 && clock(0) > 0 ==>
        && 1 <= k && bucket == Take(After(limit, old(bucket), clock, k), n)
        && (Enough(limit, old(bucket), clock, n, k) || (k >= 2 && !Later(limit, old(bucket), clock, k - 1)))
        && (Advances(limit, old(bucket), clock, k) ==> Granted(limit, old(bucket), Call(n, clock, k)))
        && ShortBefore(limit, old(bucket), clock, n, k)
      ensures n > 0 && limit.rate > 0 && clock(0) > 0 && old(bucket).last == 0 && n <= limit.cap ==>
        k == 1 && bucket == Bucket(limit.cap - n, clock(0))
      ensures n > 0 && limit.rate > 0 && 0 < clock(0) <= old(bucket).last && n <= old(bucket).tokens ==>
        k == 1 && bucket == Bucket(old(bucket).tokens - n, old(bucket).last)
    {
      k := 0;
      if n == 0 || limit.rate == 0 {
        return;
      }
      var now := clock(0);
      k := 1;
      if now == 0 {
        return;
      }
      var b := Observe(limit, bucket, now);
      ObserveCap(limit, bucket, now);
      assert b == After(limit, bucket, clock, 1);
      ghost var enough := b.tokens >= n;
      b, k := WaitForTokens(limit, bucket, b, n, clock, stop);
      assert k > 1 && enough ==> Short(limit, bucket, clock, n, 1);
      bucket := Take(b, n);
    }
  }

  lemma ObserveCap(l: Limit, b: Bucket, now: nat)
    requires b.tokens <= l.cap && now > 0
    ensures Observe(l, b, now).tokens <= l.cap && Observe(l, b, now).last > 0
  {
  }

  /** The sleeping loop, from the bucket `b1` after the first reading. */
  method WaitForTokens(l: Limit, ghost b0: Bucket, b1: Bucket, n: nat, clock: nat -> nat, ghost stop: nat)
    returns (b: Bucket, k: nat)
    requires b1 == After(l, b0, clock, 1) && 0 < b1.last && b1.tokens <= l.cap
    requires 1 <= stop && Leaves(l, b0, clock, n, stop)
    ensures 1 <= k <= stop + 1 && b == After(l, b0, clock, k) && b.tokens <= l.cap
    ensures b.tokens >= n || (k >= 2 && !Later(l, b0, clock, k - 1))
    ensures ShortBefore(l, b0, clock, n, k)
  {
    b, k := b1, 1;
    while b.tokens < n
      invariant 1 <= k <= stop && 0 < b.last && b.tokens <= l.cap && b == After(l, b0, clock, k)
      invariant ShortBefore(l, b0, clock, n, k)
      decreases stop - k
    {
      ShortMore(l, b0, clock, n, k);
      // sleeps Wait(l, n - b.tokens) microseconds
      var now := clock(k);
      k := k + 1;
      assert After(l, b0, clock, k) == Observe(l, b, now);
      if now == 0 || now <= b.last {
        assert !Later(l, b0, clock, k - 1);
        break;
      }
      ObserveCap(l, b, now);
      b := Observe(l, b, now);
    }
  }

  /** Two calls at one reading of the clock share the burst of a fresh limiter. */
  method Burst(limiter: Limiter, n: nat, m: nat, now: nat) returns (readings: nat)
    requires limiter.bucket == Bucket(0, 0) && limiter.limit.cap < WRAP && limiter.limit.rate > 0
    requires 0 < n && 0 < m && n + m <= limiter.limit.cap && 0 < now
    modifies limiter
    ensures readings == 2 && limiter.bucket == Bucket(limiter.limit.cap - n - m, now)
  {
    var first := limiter.RateLimit(n, _ => now, 1);
    var second := limiter.RateLimit(m, _ => now, 1);
    readings := first + second;
  }

  // ---- The rate is kept ---------------------------------------------------------------------------

  predicate Later(l: Limit, b: Bucket, clock: nat -> nat, j: nat) {
    clock(j) > After(l, b, clock, j).last
  }

  /** Every reading of the call is later than the one before it. */
  predicate Advances(l: Limit, b: Bucket, clock: nat -> nat, k: nat) {
    forall j :: 0 <= j < k ==> Later(l, b, clock, j)
  }

  /** From `b` on, the bucket has come to `c` and let `n` bytes through, no faster than the rate allows. */
  ghost predicate Within(l: Limit, b: Bucket, n: nat, c: Bucket) {
    && c.tokens <= l.cap && 0 < b.last <= c.last
    && (n + c.tokens) * BILLION <= b.tokens * BILLION + Times(c.last - b.last, l.rate)
  }

  lemma WithinChain(l: Limit, b: Bucket, n: nat, c: Bucket, m: nat, d: Bucket)
    requires Within(l, b, n, c) && Within(l, c, m, d)
    ensures Within(l, b, n + m, d)
  {
    TimesAdds(c.last - b.last, d.last - c.last, l.rate);
  }

  /** One reading brings no more than the rate allows, even when the product wraps. */
  lemma ObserveBound(l: Limit, b: Bucket, now: nat)
    requires 0 < b.last < now && b.tokens <= l.cap
    ensures Within(l, b, 0, Observe(l, b, now))
  {
    var p := Times(now - b.last, l.rate);
    assert p % WRAP <= p && (p % WRAP) / BILLION * BILLION <= p % WRAP;
    assert (b.tokens + Added(l, now - b.last)) % WRAP <= b.tokens + Added(l, now - b.last);
  }

  lemma ObserveKeeps(l: Limit, b: Bucket, c: Bucket, now: nat, d: Bucket)
    requires Within(l, b, 0, c) && c.last < now && d == Observe(l, c, now)
    ensures Within(l, b, 0, d)
  {
    ObserveBound(l, c, now);
    WithinChain(l, b, 0, c, 0, d);
  }

  lemma {:induction false} AfterBound(l: Limit, b: Bucket, clock: nat -> nat, k: nat)
    requires 0 < b.last && b.tokens <= l.cap && Advances(l, b, clock, k)
    ensures Within(l, b, 0, After(l, b, clock, k))
  {
    if k > 0 {
      assert Later(l, b, clock, k - 1);
      AfterBound(l, b, clock, k - 1);
      ObserveKeeps(l, b, After(l, b, clock, k - 1), clock(k - 1), After(l, b, clock, k));
    }
  }

  /** A call that was let through with enough tokens. */
  datatype Call = Call(n: nat, clock: nat -> nat, k: nat)

  predicate Granted(l: Limit, b: Bucket, c: Call) {
    Advances(l, b, c.clock, c.k) && After(l, b, c.clock, c.k).tokens >= c.n
  }

  function Final(l: Limit, b: Bucket, calls: seq<Call>): Bucket
    decreases |calls|
  {
    if calls == [] then b else Final(l, Take(After(l, b, calls[0].clock, calls[0].k), calls[0].n), calls[1..])
  }

  predicate AllGranted(l: Limit, b: Bucket, calls: seq<Call>)
    decreases |calls|
  {
    calls == [] ||
    (Granted(l, b, calls[0]) && AllGranted(l, Take(After(l, b, calls[0].clock, calls[0].k), calls[0].n), calls[1..]))
  }

  function Total(calls: seq<Call>): nat {
    if calls == [] then 0 else calls[0].n + Total(calls[1..])
  }

  lemma TakeWithin(l: Limit, b: Bucket, c: Bucket, n: nat)
    requires Within(l, b, 0, c) && n <= c.tokens
    ensures Within(l, b, n, Take(c, n))
  {
  }

  lemma {:induction false} RateBound(l: Limit, b: Bucket, calls: seq<Call>)
    requires 0 < b.last && b.tokens <= l.cap && AllGranted(l, b, calls)
    ensures Within(l, b, Total(calls), Final(l, b, calls))
    decreases |calls|
  {
    if calls != [] {
      var c := calls[0];
      AfterBound(l, b, c.clock, c.k);
      var a := After(l, b, c.clock, c.k);
      TakeWithin(l, b, a, c.n);
      RateBound(l, Take(a, c.n), calls[1..]);
      WithinChain(l, b, c.n, Take(a, c.n), Total(calls[1..]), Final(l, b, calls));
    }
  }

  lemma WithinMeans(l: Limit, b: Bucket, n: nat, c: Bucket)
    requires Within(l, b, n, c) && b.tokens <= l.cap
    ensures n <= l.cap + (l.rate * (c.last - b.last)) / BILLION
  {
    TimesIs(c.last - b.last, l.rate);
    assert n * BILLION <= l.cap * BILLION + l.rate * (c.last - b.last);
  }

  /** Between a refill at t0 and one at t1 no more than cap + rate * (t1 - t0) / 10^9 bytes are let through. */
  lemma NoMoreThanTheRate(l: Limit, b: Bucket, calls: seq<Call>)
    requires 0 < b.last && b.tokens <= l.cap && AllGranted(l, b, calls)
    ensures Total(calls) <= l.cap + (l.rate * (Final(l, b, calls).last - b.last)) / BILLION
  {
    RateBound(l, b, calls);
    WithinMeans(l, b, Total(calls), Final(l, b, calls));
  }

  /** No reading before the `k`-th makes the arithmetic wrap. */
  predicate NoWrap(l: Limit, b: Bucket, clock: nat -> nat, k: nat) {
    forall j :: 0 <= j < k ==> UnwrappedAt(l, b, clock, j)
  }

  predicate UnwrappedAt(l: Limit, b: Bucket, clock: nat -> nat, j: nat) {
    Unwrapped(l, After(l, b, clock, j), clock(j))
  }

  predicate Unwrapped(l: Limit, b: Bucket, now: nat) {
    b.last < now && Times(now - b.last, l.rate) < WRAP && b.tokens + Added(l, now - b.last) < WRAP
  }

  /** From `b` to `c`, in `k` readings, the bucket was filled up or got all the rate gives, less a token a reading. */
  ghost predicate Filled(l: Limit, b: Bucket, k: nat, c: Bucket) {
    && 0 < b.last <= c.last && c.tokens <= l.cap
    && (c.tokens == l.cap || (c.tokens + k) * BILLION >= b.tokens * BILLION + Times(c.last - b.last, l.rate))
  }

  lemma ObserveFills(l: Limit, b: Bucket, k: nat, c: Bucket, now: nat, d: Bucket)
    requires Filled(l, b, k, c) && Unwrapped(l, c, now) && d == Observe(l, c, now)
    ensures Filled(l, b, k + 1, d)
  {
    TimesAdds(c.last - b.last, now - c.last, l.rate);
    var p := Times(now - c.last, l.rate);
    var add := Added(l, now - c.last);
    assert p % WRAP == p && p < (add + 1) * BILLION;
    assert (c.tokens + add) % WRAP == c.tokens + add;
  }

  /** The other side of `RateBound`: while nothing wraps, readings lose less than a token each. */
  lemma {:induction false} NoLessThanTheRate(l: Limit, b: Bucket, clock: nat -> nat, k: nat)
    requires 0 < b.last && b.tokens <= l.cap && NoWrap(l, b, clock, k)
    ensures Filled(l, b, k, After(l, b, clock, k))
  {
    if k == 0 {
      FilledFirst(l, b);
    } else {
      assert UnwrappedAt(l, b, clock, k - 1);
      NoLessThanTheRate(l, b, clock, k - 1);
      ObserveFills(l, b, k - 1, After(l, b, clock, k - 1), clock(k - 1), After(l, b, clock, k));
    }
  }

  lemma FilledFirst(l: Limit, b: Bucket)
    requires 0 < b.last && b.tokens <= l.cap
    ensures Filled(l, b, 0, b)
  {
  }

  // ---- When a call returns ------------------------------------------------------------------------

  /** Each sleep lasts at least the time asked for, and no product or sum wraps. */
  predicate Honest(l: Limit, b: Bucket, clock: nat -> nat, n: nat, k: nat)
    requires l.rate > 0
  {
    var a := After(l, b, clock, k);
    a.tokens < n ==>
      && n * BILLION + l.rate < WRAP && clock(k) > a.last && clock(k) >= a.last + 1000 * Wait(l, n - a.tokens)
      && Times(clock(k) - a.last, l.rate) < WRAP && a.tokens + Added(l, clock(k) - a.last) < WRAP
  }

  lemma WaitIsEnough(rate: nat, missing: nat, elapsed: nat)
    requires rate > 0 && elapsed >= Quotient(missing * BILLION + rate - 1, rate)
    ensures Times(elapsed, rate) >= missing * BILLION
  {
    var ns := Quotient(missing * BILLION + rate - 1, rate);
    assert ns * rate >= missing * BILLION;
    assert elapsed * rate >= ns * rate;
    TimesIs(elapsed, rate);
  }

  lemma HalfSecondIsEnough(rate: nat, elapsed: nat)
    requires rate >= 2 && elapsed >= 500_000_000
    ensures Times(elapsed, rate) >= BILLION
  {
    assert elapsed * rate >= 500_000_000 * rate;
    TimesIs(elapsed, rate);
  }

  lemma WaitIs(l: Limit, missing: nat)
    requires l.rate > 0 && missing * BILLION + l.rate < WRAP
    ensures Wait(l, missing) == 500_000 || 1000 * Wait(l, missing) >= Quotient(missing * BILLION + l.rate - 1, l.rate)
  {
  }

  /** No shorter sleep would bring the missing tokens, and unless it is the longest there is, this one does. */
  lemma WaitIsLeast(l: Limit, missing: nat, us: nat)
    requires l.rate > 0 && missing * BILLION + l.rate < WRAP
    ensures us < Wait(l, missing) ==> Times(1000 * us, l.rate) < missing * BILLION
    ensures Wait(l, missing) < 500_000 ==> Times(1000 * Wait(l, missing), l.rate) >= missing * BILLION
  {
    WaitIs(l, missing);
    if us < Wait(l, missing) {
      TooShort(l.rate, missing, 1000 * us);
    }
    if Wait(l, missing) < 500_000 {
      WaitIsEnough(l.rate, missing, 1000 * Wait(l, missing));
    }
  }

  lemma TooShort(rate: nat, missing: nat, elapsed: nat)
    requires rate > 0 && elapsed < Quotient(missing * BILLION + rate - 1, rate)
    ensures Times(elapsed, rate) < missing * BILLION
  {
    var m := missing * BILLION;
    var ns := Quotient(m + rate - 1, rate);
    QuotientBound(m + rate - 1, rate, ns);
    TimesIs(ns, rate);
    OneMore(elapsed, ns, rate);
  }

  lemma QuotientBound(a: nat, b: nat, q: nat)
    requires b > 0 && q == Quotient(a, b)
    ensures q * b <= a
  {
  }

  lemma OneMore(a: nat, b: nat, c: nat)
    requires a < b
    ensures Times(a, c) + c <= Times(b, c)
  {
    TimesAdds(a + 1, b - a - 1, c);
  }

  /** A sleep brings every missing token, or at least one. */
  lemma SleepHelps(l: Limit, b: Bucket, n: nat, now: nat)
    requires l.rate >= 2 && b.tokens < n <= l.cap && 0 < b.last < now && n * BILLION + l.rate < WRAP
    requires now >= b.last + 1000 * Wait(l, n - b.tokens)
    requires Times(now - b.last, l.rate) < WRAP && b.tokens + Added(l, now - b.last) < WRAP
    ensures Observe(l, b, now).tokens > b.tokens
  {
    assert Times(now - b.last, l.rate) >= BILLION by {
      WaitIs(l, n - b.tokens);
      if Wait(l, n - b.tokens) == 500_000 {
        HalfSecondIsEnough(l.rate, now - b.last);
      } else {
        WaitIsEnough(l.rate, n - b.tokens, now - b.last);
      }
    }
  }

  /** With bytes within the cap, a rate of at least 2 and honest sleeps, enough tokens come within `n` readings. */
  lemma {:induction false} Returns(l: Limit, b: Bucket, clock: nat -> nat, n: nat, k: nat) returns (stop: nat)
    requires l.rate >= 2 && n <= l.cap && After(l, b, clock, k).last > 0
    requires forall j :: k <= j ==> Honest(l, b, clock, n, j)
    ensures k <= stop && After(l, b, clock, stop).tokens >= n
    decreases n - After(l, b, clock, k).tokens
  {
    var a := After(l, b, clock, k);
    if a.tokens >= n {
      stop := k;
    } else {
      assert Honest(l, b, clock, n, k);
      SleepHelps(l, a, n, clock(k));
      assert After(l, b, clock, k + 1) == Observe(l, a, clock(k));
      stop := Returns(l, b, clock, n, k + 1);
    }
  }

  /** A clock on which every sleep lasts exactly its longest, half a second. */
  function HalfSeconds(b: Bucket): nat -> nat {
    k => b.last + 500_000_000 * (k + 1)
  }

  /** With more bytes than the cap, or a rate of 1, the loop need not end although time goes on. */
  lemma {:induction false} NeverReturns(l: Limit, b: Bucket, n: nat, k: nat)
    requires b.tokens < n && b.tokens <= l.cap && 0 < b.last && (n > l.cap || l.rate == 1)
    ensures !Leaves(l, b, HalfSeconds(b), n, k)
    ensures After(l, b, HalfSeconds(b), k).last == b.last + 500_000_000 * k
    ensures l.rate == 1 ==> After(l, b, HalfSeconds(b), k).tokens == b.tokens
    ensures After(l, b, HalfSeconds(b), k).tokens <= l.cap
  {
    if k > 0 {
      NeverReturns(l, b, n, k - 1);
      TimesIs(500_000_000, 1);
    }
  }

  /** The 64-bit arithmetic of a wait for `n` bytes has room. */
  predicate Roomy(l: Limit, n: nat) {
    l.rate > 0 && n * BILLION + l.rate < WRAP && BILLION * l.rate < WRAP && l.cap + l.rate < WRAP
  }

  /** The clock of `NeverReturns` is an honest one: no sleep is cut short and nothing wraps. */
  lemma HalfSecondsHonest(l: Limit, b: Bucket, n: nat, k: nat)
    requires b.tokens < n && b.tokens <= l.cap && 0 < b.last && (n > l.cap || l.rate == 1) && Roomy(l, n)
    ensures Honest(l, b, HalfSeconds(b), n, k)
  {
    NeverReturns(l, b, n, k);
    TimesIs(500_000_000, l.rate);
    var p := 500_000_000 * l.rate;
    assert p % WRAP == p && p / BILLION <= l.rate;
  }

  ghost predicate AlwaysHonest(l: Limit, b: Bucket, clock: nat -> nat, n: nat)
    requires l.rate > 0
  {
    forall k: nat :: Honest(l, b, clock, n, k)
  }

  /** The loop, which sleeps before its first reading, finds the tokens if they are there or can come. */
  lemma ServedAt(l: Limit, b: Bucket, clock: nat -> nat, n: nat) returns (k: nat)
    requires l.rate > 0 && 0 < b.last && AlwaysHonest(l, b, clock, n)
    requires n <= b.tokens || (n <= l.cap && l.rate >= 2)
    ensures Enough(l, b, clock, n, k)
  {
    k := 0;
    if n > b.tokens {
      k := Returns(l, b, clock, n, 0);
    }
  }

  // ---- A whole call: its first reading comes without a sleep --------------------------------------

  /** The readings after the first. */
  function Rest(clock: nat -> nat): nat -> nat {
    (k: nat) => clock(k + 1)
  }

  lemma {:induction false} AfterFirst(l: Limit, b: Bucket, clock: nat -> nat, k: nat)
    ensures After(l, b, clock, k + 1) == After(l, Observe(l, b, clock(0)), Rest(clock), k)
  {
    if k == 0 {
      assert After(l, b, clock, 1) == Observe(l, After(l, b, clock, 0), clock(0));
    } else {
      AfterFirst(l, b, clock, k - 1);
    }
  }

  lemma {:induction false} AfterSame(l: Limit, b: Bucket, clock: nat -> nat, other: nat -> nat, k: nat)
    requires forall j: nat :: clock(j) == other(j)
    ensures After(l, b, clock, k) == After(l, b, other, k)
  {
    if k > 0 {
      AfterSame(l, b, clock, other, k - 1);
    }
  }

  /** The first reading is `now`, and every later one follows a sleep that was not cut short. */
  ghost predicate HonestCall(l: Limit, b: Bucket, clock: nat -> nat, n: nat, now: nat)
    requires l.rate > 0
  {
    clock(0) == now && forall k: nat :: 1 <= k ==> Honest(l, b, clock, n, k)
  }

  /** On every honest clock that starts at `now` the tokens for `n` bytes come at last. */
  ghost predicate CallServed(l: Limit, b: Bucket, n: nat, now: nat)
    requires l.rate > 0
  {
    forall clock: nat -> nat :: HonestCall(l, b, clock, n, now) ==> exists k: nat :: 1 <= k && Enough(l, b, clock, n, k)
  }

  /** The tokens are there at the first reading, or can come. */
  predicate Servable(l: Limit, b: Bucket, n: nat, now: nat) {
    n <= Observe(l, b, now).tokens || (n <= l.cap && l.rate >= 2)
  }

  /**
   A call for `n` bytes is sure to be served exactly when they are there, or within the cap at a rate of 2 or more.
   */
  lemma ServedIff(l: Limit, b: Bucket, n: nat, now: nat)
    requires b.tokens <= l.cap && 0 < now && Roomy(l, n)
    ensures CallServed(l, b, n, now) <==> Servable(l, b, n, now)
  {
    if Servable(l, b, n, now) {
      forall clock: nat -> nat | HonestCall(l, b, clock, n, now)
        ensures exists k: nat :: 1 <= k && Enough(l, b, clock, n, k)
      {
        var k := CallServedAt(l, b, clock, n, now);
        assert 1 <= k && Enough(l, b, clock, n, k);
      }
    } else {
      NotServed(l, b, n, now);
    }
  }

  lemma HonestRest(l: Limit, b: Bucket, clock: nat -> nat, n: nat, k: nat)
    requires l.rate > 0
    ensures Honest(l, b, clock, n, k + 1) <==> Honest(l, Observe(l, b, clock(0)), Rest(clock), n, k)
  {
    AfterFirst(l, b, clock, k);
  }

  lemma CallServedAt(l: Limit, b: Bucket, clock: nat -> nat, n: nat, now: nat) returns (k: nat)
    requires b.tokens <= l.cap && 0 < now && l.rate > 0 && Servable(l, b, n, now) && HonestCall(l, b, clock, n, now)
    ensures 1 <= k && Enough(l, b, clock, n, k)
  {
    var b1, rest := Observe(l, b, now), Rest(clock);
    ObserveCap(l, b, now);
    forall j: nat ensures Honest(l, b1, rest, n, j) {
      HonestRest(l, b, clock, n, j);
    }
    var j := ServedAt(l, b1, rest, n);
    AfterFirst(l, b, clock, j);
    k := j + 1;
  }

  /** The clock of `NeverReturns` after a first reading at `now`. */
  function From(b: Bucket, now: nat): nat -> nat {
    k => ReadingFrom(b, now, k)
  }

  function ReadingFrom(b: Bucket, now: nat, k: nat): nat {
    if k == 0 then now else HalfSeconds(b)(k - 1)
  }

  lemma NotServed(l: Limit, b: Bucket, n: nat, now: nat)
    requires b.tokens <= l.cap && 0 < now && Roomy(l, n) && !Servable(l, b, n, now)
    ensures !CallServed(l, b, n, now)
  {
    var b1 := Observe(l, b, now);
    var clock := From(b1, now);
    ObserveCap(l, b, now);
    forall k: nat | 1 <= k ensures Honest(l, b, clock, n, k) && !Enough(l, b, clock, n, k) {
      StarvedAt(l, b, n, now, k - 1);
    }
    assert HonestCall(l, b, clock, n, now);
  }

  lemma StarvedAt(l: Limit, b: Bucket, n: nat, now: nat, k: nat)
    requires b.tokens <= l.cap && 0 < now && Roomy(l, n) && !Servable(l, b, n, now)
    ensures var clock := From(Observe(l, b, now), now);
            Honest(l, b, clock, n, k + 1) && !Enough(l, b, clock, n, k + 1)
  {
    var b1 := Observe(l, b, now);
    var clock := From(b1, now);
    ObserveCap(l, b, now);
    HalfSecondsHonest(l, b1, n, k);
    NeverReturns(l, b1, n, k);
    AfterFirst(l, b, clock, k);
    AfterSame(l, b1, Rest(clock), HalfSeconds(b1), k);
  }

  /** `rate_limit` on an honest clock returns with the bytes granted whenever they can be. */
  method LimitServed(limiter: Limiter, n: nat, clock: nat -> nat) returns (k: nat)
    requires limiter.bucket.tokens <= limiter.limit.cap < WRAP && 0 < n && 0 < limiter.limit.rate && 0 < clock(0)
    requires HonestCall(limiter.limit, limiter.bucket, clock, n, clock(0))
    requires Servable(limiter.limit, limiter.bucket, n, clock(0))
    modifies limiter
    ensures 1 <= k && Enough(limiter.limit, old(limiter.bucket), clock, n, k)
    ensures limiter.bucket == Take(After(limiter.limit, old(limiter.bucket), clock, k), n)
  {
    ghost var l, b := limiter.limit, limiter.bucket;
    ghost var stop := CallServedAt(l, b, clock, n, clock(0));
    k := limiter.RateLimit(n, clock, stop);
    HonestIsLater(l, b, clock, n, clock(0), k);
  }

  /** On an honest clock a sleep that was needed is followed by a later reading. */
  lemma HonestIsLater(l: Limit, b: Bucket, clock: nat -> nat, n: nat, now: nat, k: nat)
    requires l.rate > 0 && HonestCall(l, b, clock, n, now) && ShortBefore(l, b, clock, n, k)
    ensures k >= 2 ==> Later(l, b, clock, k - 1)
  {
    if k >= 2 {
      assert Short(l, b, clock, n, k - 1) && Honest(l, b, clock, n, k - 1);
    }
  }
}
