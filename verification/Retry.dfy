/** executeResilientRPC and the exponential backoff between its attempts. */
module Retry {
  import opened Chain
  import opened Reals

  const MAX_I64: int := 0x7FFF_FFFF_FFFF_FFFF

  datatype Policy = Policy(maxAttempts: int, initialBackoff: int, maxBackoff: int, jitter: real) {
    /** RPCResilienceConfig.Validate, with durations in nanoseconds. */
    ghost predicate Valid() {
      maxAttempts > 0 && 0 < initialBackoff <= maxBackoff <= MAX_I64 && 0.0 <= jitter <= 1.0
    }
  }

  function Pow2(k: nat): nat {
    if k == 0 then 1 else 2 * Pow2(k - 1)
  }

  lemma {:induction false} Pow2Grows(j: nat, k: nat)
    requires j <= k
    ensures 1 <= Pow2(j) <= Pow2(k)
  {
    if j < k {
      Pow2Grows(j, k - 1);
    } else if k > 0 {
      Pow2Grows(j - 1, k - 1);
    }
  }

  lemma ScaledGrows(a: nat, p: nat, q: nat)
    requires p <= q
    ensures a * p <= a * q
  {
  }

  /** Once doubling has passed the cap it stays past it. */
  lemma PastTheCap(initial: nat, cap: nat, j: nat, k: nat)
    requires j <= k && initial * Pow2(j) >= cap
    ensures initial * Pow2(k) >= cap
  {
    Pow2Grows(j, k);
    ScaledGrows(initial, Pow2(j), Pow2(k));
  }

  function Capped(n: int, cap: int): int {
    if n <= cap then n else cap
  }

  /** The backoff before the jitter, after the k-th failed attempt. */
  function DelayOf(p: Policy, k: nat): int
    requires k >= 1
  {
    Capped(p.initialBackoff * Pow2(k - 1), p.maxBackoff)
  }

  /** The doubling loop: the closed form is reached without any int64 overflow. */
  method Backoff(p: Policy, failedAttempt: nat) returns (delay: int)
    requires p.Valid() && failedAttempt >= 1
    ensures delay == DelayOf(p, failedAttempt) && 0 < delay <= MAX_I64
    ensures failedAttempt == 1 ==> delay == p.initialBackoff
  {
    delay := p.initialBackoff;
    var exponent := 1;
    while exponent < failedAttempt && delay < p.maxBackoff
      invariant 1 <= exponent <= failedAttempt
      invariant 0 < delay <= p.maxBackoff && delay == p.initialBackoff * Pow2(exponent - 1)
    {
      if delay > p.maxBackoff / 2 {
        Doubled(p.initialBackoff, exponent);
        PastTheCap(p.initialBackoff, p.maxBackoff, exponent, failedAttempt - 1);
        delay := p.maxBackoff;
        return;
      }
      assert delay * 2 <= MAX_I64;
      Doubled(p.initialBackoff, exponent);
      delay := delay * 2;
      exponent := exponent + 1;
    }
    PastTheCapIfFull(p, exponent, failedAttempt, delay);
    if delay > p.maxBackoff {
      delay := p.maxBackoff;
    }
  }

  lemma Doubled(initial: int, exponent: nat)
    requires exponent >= 1
    ensures initial * Pow2(exponent) == (initial * Pow2(exponent - 1)) * 2
  {
    assert Pow2(exponent) == 2 * Pow2(exponent - 1);
  }

  lemma PastTheCapIfFull(p: Policy, exponent: nat, failedAttempt: nat, delay: int)
    requires p.Valid() && 1 <= exponent <= failedAttempt && delay <= p.maxBackoff
    requires delay == p.initialBackoff * Pow2(exponent - 1)
    requires exponent == failedAttempt || delay == p.maxBackoff
    ensures delay == Capped(p.initialBackoff * Pow2(failedAttempt - 1), p.maxBackoff)
  {
    if exponent < failedAttempt {
      PastTheCap(p.initialBackoff, p.maxBackoff, exponent - 1, failedAttempt - 1);
    }
  }

  /** The first delay is the initial one, and each next is twice the one before, up to the cap. */
  lemma DelaysDouble(p: Policy, k: nat)
    requires p.Valid() && k >= 1
    ensures DelayOf(p, 1) == p.initialBackoff
    ensures DelayOf(p, k + 1) == if 2 * DelayOf(p, k) <= p.maxBackoff then 2 * DelayOf(p, k) else p.maxBackoff
  {
    assert Pow2(0) == 1;
    Doubled(p.initialBackoff, k);
    Pow2Grows(0, k - 1);
    ScaledGrows(p.initialBackoff, 1, Pow2(k - 1));
  }

  // ----- jitter -----

  const TWO63: real := 9_223_372_036_854_775_808.0

  /** The jittered delay before its conversion, for a random draw in [0, 1). */
  function Spread(delay: int, jitter: real, random: real): real {
    delay as real * (1.0 + jitter * (2.0 * random - 1.0))
  }

  /** time.Duration of a non-negative float: truncation, or nothing the language defines from 2^63 on. */
  function ToDuration(x: real): Option<int> {
    if x < TWO63 then Some(x.Floor) else None
  }

  /** The conversion to a duration is defined. */
  predicate Fits(p: Policy, delay: int, random: real) {
    p.jitter == 0.0 || Spread(delay, p.jitter, random) < TWO63
  }

  /**
    The sleep after jitter, in whole nanoseconds; None where the conversion overflows. It stays
    within (1 - j) and (1 + j) times the delay, up to the truncation.
    */
  method Jittered(p: Policy, delay: int, random: real) returns (sleep: Option<int>)
    requires p.Valid() && 0 < delay <= MAX_I64 && 0.0 <= random < 1.0
    ensures sleep.Some? <==> Fits(p, delay, random)
    ensures sleep.Some? ==> 0 <= sleep.value <= MAX_I64
    ensures sleep.Some? ==> var d := delay as real;
      d - p.jitter * d - 1.0 < sleep.value as real <= d + p.jitter * d
    ensures sleep.Some? ==> if random < 0.5 then sleep.value <= delay else sleep.value >= delay
    ensures p.jitter == 0.0 || random == 0.5 ==> sleep == Some(delay)
    ensures sleep.Some? && p.jitter > 0.0 ==>
      sleep.value == (delay as real * (1.0 + p.jitter * (2.0 * random - 1.0))).Floor
    ensures random == 0.0 ==> sleep == Some((delay as real - p.jitter * delay as real).Floor)
  {
    sleep := Some(delay);
    if p.jitter > 0.0 {
      var multiplier := 1.0 + p.jitter * (2.0 * random - 1.0);
      MultiplierBounds(p.jitter, random, multiplier);
      var product := delay as real * multiplier;
      JitterBounds(delay as real, p.jitter, multiplier, product);
      assert product == Spread(delay, p.jitter, random);
      if product < 0.0 {
        product := 0.0;
      }
      DurationBounds(product, delay);
      sleep := ToDuration(product);
    }
  }

  lemma DurationBounds(x: real, d: int)
    requires x >= 0.0
    ensures ToDuration(x).Some? ==> var n := ToDuration(x).value;
      && 0 <= n <= MAX_I64 && x - 1.0 < n as real <= x
      && (x <= d as real ==> n <= d) && (x >= d as real ==> n >= d)
  {
  }

  lemma Expands(a: real, x: real)
    ensures a * (1.0 - x) == a - a * x && a * (1.0 + x) == a + a * x
  {
  }

  lemma ExpandsTwice(d: real, j: real, m: real)
    ensures d * (1.0 + j - m) == d + j * d - d * m && d * (m - (1.0 - j)) == d * m - (d - j * d)
  {
  }

  lemma MultiplierBounds(j: real, random: real, m: real)
    requires 0.0 <= j <= 1.0 && 0.0 <= random < 1.0 && m == 1.0 + j * (2.0 * random - 1.0)
    ensures 1.0 - j <= m <= 1.0 + j && (random == 0.5 ==> m == 1.0)
    ensures if random < 0.5 then m <= 1.0 else m >= 1.0
  {
    var x := 2.0 * random - 1.0;
    ProductNonNegative(j, 1.0 - x);
    ProductNonNegative(j, 1.0 + x);
    ProductNonNegative(j, if x < 0.0 then -x else x);
    Expands(j, x);
  }

  lemma JitterBounds(d: real, j: real, m: real, sleep: real)
    requires d >= 0.0 && 0.0 <= j <= 1.0 && 1.0 - j <= m <= 1.0 + j && sleep == d * m
    ensures d - j * d <= sleep <= d + j * d && 0.0 <= sleep
    ensures m <= 1.0 ==> sleep <= d
    ensures m >= 1.0 ==> sleep >= d
  {
    ProductNonNegative(d, if m < 1.0 then 1.0 - m else m - 1.0);
    ProductNonNegative(d, 1.0 + j - m);
    ProductNonNegative(d, m - (1.0 - j));
    ProductNonNegative(d, m);
    ExpandsTwice(d, j, m);
  }

  ghost predicate EveryDrawFits(p: Policy, delay: int) {
    forall random: real :: 0.0 <= random < 1.0 ==> Fits(p, delay, random)
  }

  /** The spread falls short of its upper end by `short`, in proportion to the draw's distance from one. */
  lemma SpreadFallsShort(delay: int, jitter: real, random: real, u: real, short: real)
    requires u == 2.0 * (delay as real * jitter) && short == u * (1.0 - random)
    ensures Spread(delay, jitter, random) == delay as real * (1.0 + jitter) - short
  {
    var d, j := delay as real, jitter;
    assert d * (1.0 + j * (2.0 * random - 1.0)) == d + (d * j) * (2.0 * random - 1.0);
    assert (d * j) * (2.0 * random - 1.0) == d * j - 2.0 * (d * j) * (1.0 - random);
    assert d * (1.0 + j) == d + d * j;
  }

  /** If the largest spread passes 2^63, some draw below one already reaches it. */
  lemma SomeDrawOverflows(delay: int, jitter: real) returns (random: real)
    requires 0 < delay <= MAX_I64 && 0.0 < jitter && delay as real * (1.0 + jitter) > TWO63
    ensures 0.0 <= random < 1.0 && Spread(delay, jitter, random) >= TWO63
  {
    var d := delay as real;
    var u := 2.0 * (d * jitter);
    var excess := d * (1.0 + jitter) - TWO63;
    assert d * (1.0 + jitter) == d + d * jitter;
    assert 0.0 < excess < u;
    var back := Quotient(excess, u);
    random := 1.0 - back;
    SpreadFallsShort(delay, jitter, random, u, excess);
  }

  lemma Quotient(a: real, b: real) returns (q: real)
    requires 0.0 < a < b
    ensures 0.0 < q < 1.0 && a == b * q
  {
    q := a / b;
    assert a == b * q;
    ScaledBy(q, b, a);
  }

  lemma ScaledBy(q: real, b: real, product: real)
    requires b > 0.0 && product == b * q
    ensures (q >= 1.0 ==> product >= b) && (q <= 0.0 ==> product <= 0.0)
  {
    if q >= 1.0 {
      ProductNonNegative(b, q - 1.0);
      assert b * (q - 1.0) == product - b;
    } else if q <= 0.0 {
      ProductNonNegative(b, 0.0 - q);
      assert b * (0.0 - q) == 0.0 - product;
    }
  }

  lemma DrawFits(delay: int, jitter: real, random: real)
    requires 0 < delay && 0.0 < jitter && delay as real * (1.0 + jitter) <= TWO63 && 0.0 <= random < 1.0
    ensures Spread(delay, jitter, random) < TWO63
  {
    var u := 2.0 * (delay as real * jitter);
    var short := u * (1.0 - random);
    PositiveProduct(delay as real, jitter);
    PositiveProduct(u, 1.0 - random);
    SpreadFallsShort(delay, jitter, random, u, short);
  }

  /** Every draw is converted without overflow exactly when there is no jitter or its upper end stays within 2^63. */
  lemma EveryDrawFitsIff(p: Policy, delay: int)
    requires p.Valid() && 0 < delay <= MAX_I64
    ensures EveryDrawFits(p, delay) <==> p.jitter == 0.0 || delay as real * (1.0 + p.jitter) <= TWO63
  {
    if p.jitter > 0.0 && delay as real * (1.0 + p.jitter) > TWO63 {
      var random := SomeDrawOverflows(delay, p.jitter);
      assert !Fits(p, delay, random);
    } else if p.jitter > 0.0 {
      forall random: real | 0.0 <= random < 1.0 ensures Fits(p, delay, random) {
        DrawFits(delay, p.jitter, random);
      }
    }
  }

  /** A validated policy whose sleep overflows: 2^63 - 1 nanoseconds, a fifth of jitter, a draw near one. */
  lemma JitterOverflows()
    ensures var p := Policy(2, MAX_I64, MAX_I64, 0.2);
      p.Valid() && DelayOf(p, 1) == MAX_I64 && !Fits(p, MAX_I64, 0.99)
  {
    assert Pow2(0) == 1;
  }

  /** No wait between two attempts can overflow. */
  ghost predicate EveryWaitFits(p: Policy) {
    forall k: nat :: 1 <= k < p.maxAttempts ==> EveryDrawFits(p, DelayOf(p, k))
  }

  lemma DelayGrows(p: Policy, j: nat, k: nat)
    requires p.Valid() && 1 <= j <= k
    ensures 0 < DelayOf(p, j) <= DelayOf(p, k) <= MAX_I64
  {
    Pow2Grows(j - 1, k - 1);
    ScaledGrows(p.initialBackoff, 1, Pow2(j - 1));
    ScaledGrows(p.initialBackoff, Pow2(j - 1), Pow2(k - 1));
  }

  lemma SmallerDelayFits(a: int, b: int, jitter: real)
    requires 0 < a <= b && jitter >= 0.0
    ensures a as real * (1.0 + jitter) <= b as real * (1.0 + jitter)
  {
    ProductNonNegative((b - a) as real, 1.0 + jitter);
  }

  lemma EarlierWaitFits(p: Policy, k: nat, last: nat)
    requires p.Valid() && 1 <= k <= last && EveryDrawFits(p, DelayOf(p, last))
    ensures EveryDrawFits(p, DelayOf(p, k))
  {
    DelayGrows(p, k, last);
    EveryDrawFitsIff(p, DelayOf(p, last));
    EveryDrawFitsIff(p, DelayOf(p, k));
    SmallerDelayFits(DelayOf(p, k), DelayOf(p, last), p.jitter);
  }

  /**
    Which configurations are safe: with a single attempt, without jitter, or when the last wait,
    the longest, stretched by the full jitter, stays within 2^63 nanoseconds.
    */
  lemma EveryWaitFitsIff(p: Policy)
    requires p.Valid()
    ensures EveryWaitFits(p) <==>
      p.maxAttempts == 1 || p.jitter == 0.0 || DelayOf(p, p.maxAttempts - 1) as real * (1.0 + p.jitter) <= TWO63
  {
    if p.maxAttempts > 1 {
      var last := p.maxAttempts - 1;
      DelayGrows(p, last, last);
      EveryDrawFitsIff(p, DelayOf(p, last));
      forall k: nat | 1 <= k < p.maxAttempts && EveryDrawFits(p, DelayOf(p, last))
        ensures EveryDrawFits(p, DelayOf(p, k))
      {
        EarlierWaitFits(p, k, last);
      }
    }
  }

  // ----- the retry loop -----

  datatype Reply<+T> = Value(value: T) | Retryable(cause: Cause) | Permanent(cause: Cause)

  /** What attempt k (from 1) meets: the limiter, the call, the context after it, and the backoff sleep. */
  datatype Script<!T> = Script(admitted: nat -> bool, reply: nat -> Reply<T>,
                               contextDone: nat -> bool, slept: nat -> bool)

  datatype Ending<+T> =
    | Done(value: T)
    | Interrupted                  // the context ended: at the limiter, after the call, or while sleeping
    | Failed(cause: Cause)
    | Exhausted(cause: Cause)
    | FellThrough                  // the return after the loop

  /** Attempt k fails in a way that leads to another attempt. */
  ghost predicate GoesOn<T>(s: Script<T>, maxAttempts: int, k: nat) {
    WouldRetry(s, maxAttempts, k) && s.slept(k)
  }

  /** Attempt k is counted as a retry, whether or not its sleep completes. */
  predicate WouldRetry<T>(s: Script<T>, maxAttempts: int, k: nat) {
    s.admitted(k) && s.reply(k).Retryable? && !s.contextDone(k) && k < maxAttempts
  }

  /** What the last attempt made returns. */
  ghost predicate Concludes<T>(s: Script<T>, maxAttempts: int, k: nat, r: Ending<T>) {
    if !s.admitted(k) then r == Interrupted
    else if s.reply(k).Value? then r == Done(s.reply(k).value)
    else if s.contextDone(k) then r == Interrupted
    else if s.reply(k).Permanent? then r == Failed(s.reply(k).cause)
    else if k == maxAttempts then r == Exhausted(s.reply(k).cause)
    else !s.slept(k) && r == Interrupted
  }

  /**
    The loop stops at the first attempt that does not lead to another one, within maxAttempts calls;
    the counters balance, one failure is recorded at most and exactly when an error other than the
    context's is returned, and the return after the loop is never reached.
    */
  method Execute<T>(p: Policy, s: Script<T>) returns (r: Ending<T>, requests: nat, retries: nat, failures: nat)
    requires p.Valid()
    ensures !r.FellThrough? && requests <= p.maxAttempts
    ensures forall j :: 1 <= j < requests ==>
      s.admitted(j) && s.reply(j).Retryable? && !s.contextDone(j) && s.slept(j)
    ensures match r
            case Done(v) => requests > 0 && s.admitted(requests) && s.reply(requests) == Value(v)
            case Failed(c) =>
              requests > 0 && s.admitted(requests) && s.reply(requests) == Permanent(c) && !s.contextDone(requests)
            case Exhausted(c) =>
              && requests == p.maxAttempts && s.admitted(requests)
              && s.reply(requests) == Retryable(c) && !s.contextDone(requests)
            case Interrupted =>
              || (!s.admitted(requests + 1) && (requests > 0 ==> s.reply(requests).Retryable? && s.slept(requests)))
              || (requests > 0 && !s.reply(requests).Value? && (s.contextDone(requests) || !s.slept(requests)))
            case FellThrough => false
    ensures 0 <= requests - retries <= 1 && failures == if r.Failed? || r.Exhausted? then 1 else 0
    ensures r.Exhausted? ==> requests == p.maxAttempts
    ensures exists k: nat :: 1 <= k <= p.maxAttempts && Concludes(s, p.maxAttempts, k, r)
                             && (forall j :: 1 <= j < k ==> GoesOn(s, p.maxAttempts, j))
                             && requests == (if s.admitted(k) then k else k - 1)
                             && retries == (if WouldRetry(s, p.maxAttempts, k) then k else k - 1)
  {
    requests, retries, failures := 0, 0, 0;
    var attempt: nat := 1;
    while attempt <= p.maxAttempts
      invariant 1 <= attempt <= p.maxAttempts && requests == retries == attempt - 1 && failures == 0
      invariant forall j :: 1 <= j < attempt ==> GoesOn(s, p.maxAttempts, j)
      invariant forall j :: 1 <= j < attempt ==>
        s.admitted(j) && s.reply(j).Retryable? && !s.contextDone(j) && s.slept(j)
      decreases p.maxAttempts - attempt
    {
      if !s.admitted(attempt) {
        assert Concludes(s, p.maxAttempts, attempt, Interrupted);
        return Interrupted, requests, retries, failures;
      }
      requests := requests + 1;
      var reply := s.reply(attempt);
      if reply.Value? {
        assert Concludes(s, p.maxAttempts, attempt, Done(reply.value));
        return Done(reply.value), requests, retries, failures;
      }
      if s.contextDone(attempt) {
        assert Concludes(s, p.maxAttempts, attempt, Interrupted);
        return Interrupted, requests, retries, failures;
      }
      if reply.Permanent? {
        failures := failures + 1;
        assert Concludes(s, p.maxAttempts, attempt, Failed(reply.cause));
        return Failed(reply.cause), requests, retries, failures;
      }
      if attempt == p.maxAttempts {
        failures := failures + 1;
        assert Concludes(s, p.maxAttempts, attempt, Exhausted(reply.cause));
        return Exhausted(reply.cause), requests, retries, failures;
      }
      retries := retries + 1;
      if !s.slept(attempt) {
        assert Concludes(s, p.maxAttempts, attempt, Interrupted);
        return Interrupted, requests, retries, failures;
      }
      attempt := attempt + 1;
    }
    r := FellThrough;
  }

  /** The method's description of the last attempt determines the result: there is one such attempt. */
  lemma ConclusionIsUnique<T>(s: Script<T>, maxAttempts: int, k: nat, r: Ending<T>, k': nat, r': Ending<T>)
    requires 1 <= k <= maxAttempts && Concludes(s, maxAttempts, k, r)
    requires forall j :: 1 <= j < k ==> GoesOn(s, maxAttempts, j)
    requires 1 <= k' <= maxAttempts && Concludes(s, maxAttempts, k', r')
    requires forall j :: 1 <= j < k' ==> GoesOn(s, maxAttempts, j)
    ensures k == k' && r == r'
  {
    ghost var first, second := GoesOn(s, maxAttempts, k), GoesOn(s, maxAttempts, k');
  }
}
