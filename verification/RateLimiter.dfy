/** rpcRateLimiter: a token bucket shared by all callers, in real arithmetic. */
module RateLimiter {
  import opened Reals

  /** The mutable part of the limiter; `last` is the limiter's own time in seconds. */
  datatype Bucket = Bucket(tokens: real, last: real)

  datatype Settings = Settings(rate: real, burst: real) {
    /** RPCResilienceConfig.Validate: both settings are at least one. */
    ghost predicate Valid() {
      rate >= 1.0 && burst >= 1.0
    }
  }

  function Min(a: real, b: real): real {
    if a <= b then a else b
  }

  /** What flows in between two limiter times. */
  function Inflow(cfg: Settings, from: real, to: real): real {
    (to - from) * cfg.rate
  }

  /** Time only moves the bucket when the clock reading is later than the last one used. */
  function Refill(cfg: Settings, b: Bucket, now: real): Bucket {
    if now > b.last then Bucket(Min(cfg.burst, b.tokens + Inflow(cfg, b.last, now)), now) else b
  }

  predicate Grants(cfg: Settings, b: Bucket, now: real) {
    Refill(cfg, b, now).tokens >= 1.0
  }

  /** One pass of the loop of Wait, under the mutex. */
  function Attempt(cfg: Settings, b: Bucket, now: real): Bucket {
    var r := Refill(cfg, b, now);
    if r.tokens >= 1.0 then r.(tokens := r.tokens - 1.0) else r
  }

  /** How long a refused caller sleeps. */
  function Delay(cfg: Settings, b: Bucket): real
    requires cfg.rate != 0.0
  {
    (1.0 - b.tokens) / cfg.rate
  }

  ghost predicate Sane(cfg: Settings, b: Bucket) {
    0.0 <= b.tokens <= cfg.burst
  }

  class Limiter {
    const cfg: Settings
    var tokens: real
    var last: real

    constructor (cfg: Settings, now: real)
      requires cfg.Valid()
      ensures this.cfg == cfg && State() == Bucket(cfg.burst, now) && Sane(cfg, State())
    {
      this.cfg, tokens, last := cfg, cfg.burst, now;
    }

    ghost function State(): (b: Bucket)
      reads this
    {
      Bucket(tokens, last)
    }

    /**
      The body of the loop between Lock and Unlock. The bucket is filled up for the time since the
      last reading used, if the clock has not stepped back; a grant takes one token, and a refusal
      takes none and says how long the missing part of a token takes to flow in.
      */
    method TryTake(now: real) returns (granted: bool, wait: real)
      requires cfg.Valid() && Sane(cfg, State())
      modifies this
      ensures State() == Attempt(cfg, old(State()), now) && Sane(cfg, State())
      ensures granted == Grants(cfg, old(State()), now)
      ensures var elapsed := if now > old(last) then now - old(last) else 0.0;
        var level := Min(cfg.burst, old(tokens) + elapsed * cfg.rate);
        && last == old(last) + elapsed
        && (granted <==> level >= 1.0)
        && tokens == if granted then level - 1.0 else level
      ensures if granted then wait == 0.0 else 0.0 < wait == (1.0 - tokens) / cfg.rate
    {
      RefillIsSane(cfg, State(), now);
      ghost var elapsed := if now > last then now - last else 0.0;
      RefillFills(cfg, State(), now, elapsed, elapsed * cfg.rate);
      RefillInPlace(now);
      if tokens >= 1.0 {
        tokens := tokens - 1.0;
        return true, 0.0;
      }
      DelayIsPositive(cfg, Bucket(tokens, last));
      return false, (1.0 - tokens) / cfg.rate;
    }

    /** The first part of the locked section. */
    method RefillInPlace(now: real)
      modifies this
      ensures State() == Refill(cfg, old(State()), now)
    {
      var passed := now - last;
      if passed > 0.0 {
        InflowIs(cfg, last, now, passed, passed * cfg.rate);
        tokens := Min(cfg.burst, tokens + passed * cfg.rate);
        last := now;
      }
    }

    /**
      Wait with the clock readings and the fate of each sleep given: it takes readings until one is
      granted or a sleep is cut short by the context.
      */
    method Wait(readings: seq<real>, cancelled: seq<bool>) returns (granted: bool, used: nat)
      requires cfg.Valid() && Sane(cfg, State()) && |cancelled| == |readings|
      modifies this
      ensures Sane(cfg, State()) && used <= |readings|
      ensures State() == AfterAll(cfg, old(State()), readings[..used])
      ensures Granted(cfg, old(State()), readings[..used]) == if granted then 1 else 0
      ensures granted ==> used > 0 && Grants(cfg, AfterAll(cfg, old(State()), readings[..used - 1]), readings[used - 1])
      ensures !granted ==> used == |readings| || (used > 0 && cancelled[used - 1])
      ensures forall i :: 0 <= i < used - 1 ==> !cancelled[i]
    {
      used := 0;
      granted := false;
      while used < |readings|
        invariant used <= |readings| && Sane(cfg, State())
        invariant State() == AfterAll(cfg, old(State()), readings[..used])
        invariant Granted(cfg, old(State()), readings[..used]) == 0 && !granted
        invariant forall i :: 0 <= i < used ==> !cancelled[i]
      {
        var wait;
        assert readings[..used + 1][..used] == readings[..used];
        granted, wait := TryTake(readings[used]);
        used := used + 1;
        if granted || cancelled[used - 1] {
          return;
        }
      }
    }
  }

  lemma InflowIsPositive(cfg: Settings, from: real, to: real)
    requires cfg.rate >= 0.0 && from <= to
    ensures Inflow(cfg, from, to) >= 0.0
  {
    ProductNonNegative(to - from, cfg.rate);
  }

  lemma NoTimeNoInflow(cfg: Settings, at: real)
    ensures Inflow(cfg, at, at) == 0.0
  {
  }

  lemma RefillIsSane(cfg: Settings, b: Bucket, now: real)
    requires cfg.Valid() && Sane(cfg, b)
    ensures Sane(cfg, Refill(cfg, b, now))
    ensures Refill(cfg, b, now).tokens <= b.tokens + Inflow(cfg, b.last, Refill(cfg, b, now).last)
    ensures b.last <= Refill(cfg, b, now).last
  {
    if now > b.last {
      InflowIsPositive(cfg, b.last, now);
    } else {
      NoTimeNoInflow(cfg, b.last);
    }
  }

  lemma InflowIs(cfg: Settings, from: real, to: real, elapsed: real, inflow: real)
    requires elapsed == to - from && inflow == elapsed * cfg.rate
    ensures inflow == Inflow(cfg, from, to)
  {
  }

  lemma RefillFills(cfg: Settings, b: Bucket, now: real, elapsed: real, inflow: real)
    requires Sane(cfg, b) && inflow == elapsed * cfg.rate
    requires elapsed == if now > b.last then now - b.last else 0.0
    ensures Refill(cfg, b, now).last == b.last + elapsed
    ensures Refill(cfg, b, now).tokens == Min(cfg.burst, b.tokens + inflow)
  {
    if now > b.last {
      InflowIs(cfg, b.last, now, elapsed, inflow);
    } else {
      assert inflow == 0.0;
    }
  }

  lemma DelayIsPositive(cfg: Settings, b: Bucket)
    requires cfg.Valid() && b.tokens < 1.0
    ensures Delay(cfg, b) > 0.0
  {
  }

  // ----- runs: the mutex puts the passes of all callers in one order -----

  function AfterAll(cfg: Settings, b: Bucket, readings: seq<real>): Bucket {
    if readings == [] then b
    else Attempt(cfg, AfterAll(cfg, b, readings[..|readings| - 1]), readings[|readings| - 1])
  }

  function Granted(cfg: Settings, b: Bucket, readings: seq<real>): nat {
    if readings == [] then 0
    else
      Granted(cfg, b, readings[..|readings| - 1])
      + if Grants(cfg, AfterAll(cfg, b, readings[..|readings| - 1]), readings[|readings| - 1]) then 1 else 0
  }

  lemma InflowAdds(cfg: Settings, x: real, y: real, z: real)
    ensures Inflow(cfg, x, y) + Inflow(cfg, y, z) == Inflow(cfg, x, z)
  {
    assert (y - x) * cfg.rate + (z - y) * cfg.rate == ((y - x) + (z - y)) * cfg.rate;
    assert (y - x) + (z - y) == z - x;
  }

  /** One pass, as an entry in the account. */
  lemma {:induction false} AttemptIsAccounted(cfg: Settings, b: Bucket, now: real, e: Bucket, inflow: real)
    requires cfg.Valid() && Sane(cfg, b) && e == Attempt(cfg, b, now) && inflow == Inflow(cfg, b.last, e.last)
    ensures Sane(cfg, e) && b.last <= e.last
    ensures e.tokens + (if Grants(cfg, b, now) then 1.0 else 0.0) <= b.tokens + inflow
  {
    RefillIsSane(cfg, b, now);
  }

  /** The bucket's account: what is left is at most what was there, plus the inflow, less the grants. */
  lemma {:induction false} TokensAreAccounted(cfg: Settings, b: Bucket, readings: seq<real>, inflow: real)
    requires cfg.Valid() && Sane(cfg, b) && inflow == Inflow(cfg, b.last, AfterAll(cfg, b, readings).last)
    ensures var e := AfterAll(cfg, b, readings);
      Sane(cfg, e) && b.last <= e.last && e.tokens + Granted(cfg, b, readings) as real <= b.tokens + inflow
  {
    if readings != [] {
      var init, now := readings[..|readings| - 1], readings[|readings| - 1];
      var mid, e := AfterAll(cfg, b, init), AfterAll(cfg, b, readings);
      TokensAreAccounted(cfg, b, init, Inflow(cfg, b.last, mid.last));
      AttemptIsAccounted(cfg, mid, now, e, Inflow(cfg, mid.last, e.last));
      InflowAdds(cfg, b.last, mid.last, e.last);
    }
  }

  /** How many of n requests get one of the tokens that are there. */
  function Served(n: nat, tokens: real): nat
    requires tokens >= 0.0
  {
    if n <= tokens.Floor then n else tokens.Floor
  }

  /** While no time passes, each grant takes exactly one token, and requests are granted as long as one is left. */
  lemma {:induction false} TokensAreServed(cfg: Settings, b: Bucket, readings: seq<real>)
    requires cfg.Valid() && Sane(cfg, b) && forall i :: 0 <= i < |readings| ==> readings[i] <= b.last
    ensures Granted(cfg, b, readings) == Served(|readings|, b.tokens)
    ensures AfterAll(cfg, b, readings) == Bucket(b.tokens - Granted(cfg, b, readings) as real, b.last)
  {
    if readings != [] {
      TokensAreServed(cfg, b, readings[..|readings| - 1]);
    }
  }

  /** A full bucket grants as many callers at once as its burst says, and then no more. */
  lemma FullBucketGrantsBurst(cfg: Settings, now: real, n: nat)
    requires cfg.Valid()
    ensures Granted(cfg, Bucket(cfg.burst, now), seq(n, i => now)) == Served(n, cfg.burst)
  {
    TokensAreServed(cfg, Bucket(cfg.burst, now), seq(n, i => now));
  }

  /** Whatever flows in by this reading fits into the bucket. */
  ghost predicate RoomAt(cfg: Settings, b: Bucket, readings: seq<real>, k: nat)
    requires k < |readings|
  {
    var mid := AfterAll(cfg, b, readings[..k]);
    readings[k] > mid.last ==> mid.tokens + Inflow(cfg, mid.last, readings[k]) <= cfg.burst
  }

  /** One pass with room for the inflow: nothing is lost, and a grant takes exactly one token. */
  lemma AttemptIsExact(cfg: Settings, b: Bucket, now: real, e: Bucket, inflow: real)
    requires cfg.Valid() && Sane(cfg, b) && e == Attempt(cfg, b, now) && inflow == Inflow(cfg, b.last, e.last)
    requires now > b.last ==> b.tokens + Inflow(cfg, b.last, now) <= cfg.burst
    ensures e.tokens + (if Grants(cfg, b, now) then 1.0 else 0.0) == b.tokens + inflow
  {
    NoTimeNoInflow(cfg, b.last);
  }

  /** Where the cap is not reached the account is exact: tokens left plus grants are tokens before plus the inflow. */
  lemma {:induction false} AccountIsExact(cfg: Settings, b: Bucket, readings: seq<real>, inflow: real)
    requires cfg.Valid() && Sane(cfg, b) && inflow == Inflow(cfg, b.last, AfterAll(cfg, b, readings).last)
    requires forall k :: 0 <= k < |readings| ==> RoomAt(cfg, b, readings, k)
    ensures AfterAll(cfg, b, readings).tokens + Granted(cfg, b, readings) as real == b.tokens + inflow
  {
    if readings == [] {
      NoTimeNoInflow(cfg, b.last);
    } else {
      var init, now := readings[..|readings| - 1], readings[|readings| - 1];
      var mid, e := AfterAll(cfg, b, init), AfterAll(cfg, b, readings);
      forall k | 0 <= k < |init| ensures RoomAt(cfg, b, init, k) {
        assert RoomAt(cfg, b, readings, k) && init[..k] == readings[..k];
      }
      AccountIsExact(cfg, b, init, Inflow(cfg, b.last, mid.last));
      TokensAreAccounted(cfg, b, init, Inflow(cfg, b.last, mid.last));
      assert RoomAt(cfg, b, readings, |readings| - 1);
      AttemptIsExact(cfg, mid, now, e, Inflow(cfg, mid.last, e.last));
      InflowAdds(cfg, b.last, mid.last, e.last);
    }
  }

  lemma GrantsFrom(cfg: Settings, b: Bucket, readings: seq<real>, inflow: real)
    requires cfg.Valid() && Sane(cfg, b) && inflow == Inflow(cfg, b.last, AfterAll(cfg, b, readings).last)
    ensures Sane(cfg, AfterAll(cfg, b, readings)) && b.last <= AfterAll(cfg, b, readings).last
    ensures Granted(cfg, b, readings) as real <= cfg.burst + inflow
  {
    TokensAreAccounted(cfg, b, readings, inflow);
  }

  /**
    In every run, with any number of callers and a clock that may step back: tokens stay within
    0..burst, and over any stretch of the run the number of grants is at most burst plus rate
    times the limiter time that passed.
    */
  lemma GrantsAreBounded(cfg: Settings, now: real, before: seq<real>, during: seq<real>)
    requires cfg.Valid()
    ensures var start := AfterAll(cfg, Bucket(cfg.burst, now), before);
      var end := AfterAll(cfg, start, during);
      && Sane(cfg, start) && Sane(cfg, end) && start.last <= end.last
      && Granted(cfg, start, during) as real <= cfg.burst + Inflow(cfg, start.last, end.last)
  {
    var full := Bucket(cfg.burst, now);
    var start := AfterAll(cfg, full, before);
    GrantsFrom(cfg, full, before, Inflow(cfg, now, start.last));
    GrantsFrom(cfg, start, during, Inflow(cfg, start.last, AfterAll(cfg, start, during).last));
  }

  /** The inflow makes up for what is missing exactly when the time is at least missing / rate. */
  lemma DelayIsExact(rate: real, missing: real, elapsed: real, inflow: real)
    requires rate > 0.0 && inflow == elapsed * rate
    ensures inflow >= missing <==> elapsed >= missing / rate
  {
    var gap := elapsed - missing / rate;
    assert missing / rate * rate == missing;
    assert gap * rate == inflow - missing;
    if gap >= 0.0 {
      ProductNonNegative(gap, rate);
    } else {
      PositiveProduct(0.0 - gap, rate);
      assert (0.0 - gap) * rate == missing - inflow;
    }
  }

  /**
    A refused caller that sleeps is granted next, unless another caller came first, exactly when it
    has slept the computed delay: the delay is long enough, and none shorter is.
    */
  lemma SleepingTheDelayGrantsIff(cfg: Settings, b: Bucket, now: real, later: real)
    requires cfg.Valid() && Sane(cfg, b) && !Grants(cfg, b, now)
    ensures var refused := Attempt(cfg, b, now);
      Grants(cfg, refused, later) <==> later >= refused.last + Delay(cfg, refused)
  {
    var refused := Attempt(cfg, b, now);
    RefillIsSane(cfg, b, now);
    DelayIsPositive(cfg, refused);
    DelayIsExact(cfg.rate, 1.0 - refused.tokens, later - refused.last, Inflow(cfg, refused.last, later));
  }

  const SECOND: real := 1_000_000_000.0

  /** The sleep as the timer takes it: whole nanoseconds. */
  function Truncated(delay: real): real {
    (delay * SECOND).Floor as real / SECOND
  }

  lemma TruncationIsSmall(delay: real)
    ensures delay - 1.0 / SECOND < Truncated(delay) <= delay
  {
    var n := (delay * SECOND).Floor as real;
    assert n <= delay * SECOND < n + 1.0;
    assert n / SECOND * SECOND == n;
  }

  lemma AlmostEnough(rate: real, missing: real, elapsed: real, inflow: real, slack: real)
    requires rate > 0.0 && elapsed > missing / rate - slack && inflow == elapsed * rate
    ensures (missing - inflow) / rate < slack
  {
    assert missing / rate * rate == missing;
    assert (missing - inflow) / rate == missing / rate - elapsed;
  }

  /** What a caller that is refused again still has to wait, after some limiter time without a grant. */
  lemma DelayShrinks(cfg: Settings, b: Bucket, later: real, elapsed: real, inflow: real)
    requires cfg.Valid() && Sane(cfg, b) && !Grants(cfg, b, later)
    requires elapsed == (if later > b.last then later - b.last else 0.0) && inflow == elapsed * cfg.rate
    ensures Delay(cfg, Attempt(cfg, b, later)) == ((1.0 - b.tokens) - inflow) / cfg.rate
  {
    if later > b.last {
      assert inflow == Inflow(cfg, b.last, later);
    } else {
      assert inflow == 0.0;
    }
  }

  /**
    The timer drops the fraction of a nanosecond, so one sleep need not suffice; but after it the
    caller is granted, or what it still has to wait is less than a nanosecond and not slept at all.
    */
  lemma TruncatedSleepAlmostGrants(cfg: Settings, b: Bucket, now: real, later: real)
    requires cfg.Valid() && Sane(cfg, b) && !Grants(cfg, b, now)
    requires later >= Attempt(cfg, b, now).last + Truncated(Delay(cfg, Attempt(cfg, b, now)))
    ensures var next := Attempt(cfg, Attempt(cfg, b, now), later);
      Grants(cfg, Attempt(cfg, b, now), later) || Delay(cfg, next) < 1.0 / SECOND
  {
    var refused := Attempt(cfg, b, now);
    var elapsed := if later > refused.last then later - refused.last else 0.0;
    RefillIsSane(cfg, b, now);
    TruncationIsSmall(Delay(cfg, refused));
    AlmostEnough(cfg.rate, 1.0 - refused.tokens, elapsed, elapsed * cfg.rate, 1.0 / SECOND);
    if !Grants(cfg, refused, later) {
      DelayShrinks(cfg, refused, later, elapsed, elapsed * cfg.rate);
    }
  }
}
