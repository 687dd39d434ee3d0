/** The token bucket (src/util/TokenBucket.cpp). Threads sample the clock before they take
    the mutex, so the samples reach the bucket in any order: every claim here is about
    arbitrary sequences of calls with arbitrary samples. Clock values are nanoseconds, the
    tick of std::chrono::steady_clock; tokens and rates are reals. */
module TokenBuckets {

  datatype Bucket = Bucket(rate: real, burst: real, tokens: real, lastRefill: int)

  predicate Sound(b: Bucket) {
    b.rate >= 0.0 && 0.0 <= b.tokens <= b.burst
  }

  // ------------------------------------------------------------ operations

  function Configured(rate: real, burst: real, now: int): (b: Bucket)
    ensures Sound(b) && (b.rate > 0.0 ==> b.burst > 0.0)
    ensures b.rate == (if rate > 0.0 then rate else 0.0) && b.lastRefill == now
    ensures b.burst == (if burst > 0.0 then burst else b.rate) && b.tokens == b.burst
  {
    var r := if rate > 0.0 then rate else 0.0;
    var cap := if burst <= 0.0 then r else burst;
    Bucket(r, cap, cap, now)
  }

  /** duration_cast to microseconds: truncation toward zero. */
  function Micros(nanos: int): int {
    if nanos >= 0 then nanos / 1000 else -(-nanos / 1000)
  }

  function Credit(b: Bucket, now: int): real {
    Micros(now - b.lastRefill) as real / 1000000.0 * b.rate
  }

  function Min(a: real, b: real): real { if b < a then b else a }

  function Refilled(b: Bucket, now: int): Bucket {
    if b.rate <= 0.0 || Micros(now - b.lastRefill) <= 0 then b
    else b.(tokens := Min(b.burst, b.tokens + Credit(b, now)), lastRefill := now)
  }

  predicate Free(b: Bucket, amount: real) { b.rate <= 0.0 || amount <= 0.0 }

  predicate Grants(b: Bucket, now: int, amount: real) {
    Free(b, amount) || Refilled(b, now).tokens >= amount
  }

  function Acquired(b: Bucket, now: int, amount: real): Bucket {
    if Free(b, amount) then b
    else
      var r := Refilled(b, now);
      if r.tokens >= amount then r.(tokens := r.tokens - amount) else r
  }

  function Available(b: Bucket, now: int): real {
    if b.rate <= 0.0 then 0.0
    else if Micros(now - b.lastRefill) > 0 then Min(b.burst, b.tokens + Credit(b, now))
    else b.tokens
  }

  class TokenBucket {
    var rate: real
    var burst: real
    var tokens: real
    var lastRefillTime: int

    function State(): Bucket reads this { Bucket(rate, burst, tokens, lastRefillTime) }

    constructor (rate: real, burst: real, now: int)
      ensures State() == Configured(rate, burst, now)
    {
      new;
      Configure(rate, burst, now);
    }

    method Configure(newRate: real, newBurst: real, now: int)
      modifies this
      ensures State() == Configured(newRate, newBurst, now)
    {
      rate := if newRate > 0.0 then newRate else 0.0;
      if newBurst <= 0.0 {
        burst := rate;
      } else {
        burst := newBurst;
      }
      tokens := burst;
      lastRefillTime := now;
    }

    method RefillLocked(now: int)
      modifies this
      ensures State() == Refilled(old(State()), now)
    {
      if rate <= 0.0 {
        return;
      }
      var elapsed := Micros(now - lastRefillTime);
      if elapsed <= 0 {
        return;
      }
      var deltaSeconds := elapsed as real / 1000000.0;
      assert deltaSeconds * rate == Credit(State(), now);
      tokens := Min(burst, tokens + deltaSeconds * rate);
      lastRefillTime := now;
    }

    method TryAcquire(now: int, amount: real) returns (ok: bool)
      modifies this
      ensures ok == Grants(old(State()), now, amount)
      ensures State() == Acquired(old(State()), now, amount)
    {
      if rate <= 0.0 || amount <= 0.0 {
        return true;
      }
      RefillLocked(now);
      if tokens >= amount {
        tokens := tokens - amount;
        return true;
      }
      return false;
    }

    method AvailableTokens(now: int) returns (n: real)
      ensures n == Available(State(), now)
    {
      if rate <= 0.0 {
        return 0.0;
      }
      var elapsed := Micros(now - lastRefillTime);
      if elapsed > 0 {
        var deltaSeconds := elapsed as real / 1000000.0;
        assert deltaSeconds * rate == Credit(State(), now);
        return Min(burst, tokens + deltaSeconds * rate);
      }
      return tokens;
    }

    method Reset(now: int)
      modifies this
      ensures State() == old(State()).(tokens := old(burst), lastRefill := now)
    {
      tokens := burst;
      lastRefillTime := now;
    }
  }

  // ------------------------------------------------------------------ runs

  datatype Call =
    | TryAcquire(now: int, amount: real)
    | Reset(at: int)
    | Configure(rate: real, burst: real, at: int)

  function After(b: Bucket, c: Call): Bucket {
    match c
    case TryAcquire(now, amount) => Acquired(b, now, amount)
    case Reset(at) => b.(tokens := b.burst, lastRefill := at)
    case Configure(rate, burst, at) => Configured(rate, burst, at)
  }

  function AfterAll(b: Bucket, calls: seq<Call>): Bucket
    decreases |calls|
  {
    if calls == [] then b else AfterAll(After(b, calls[0]), calls[1..])
  }

  /** The tokens one call lets through. */
  function Let(b: Bucket, c: Call): real {
    if c.TryAcquire? && c.amount > 0.0 && Grants(b, c.now, c.amount) then c.amount else 0.0
  }

  function Granted(b: Bucket, calls: seq<Call>): real
    decreases |calls|
  {
    if calls == [] then 0.0 else Let(b, calls[0]) + Granted(After(b, calls[0]), calls[1..])
  }

  predicate Requests(calls: seq<Call>) { forall i :: 0 <= i < |calls| ==> calls[i].TryAcquire? }

  /** What the configured rate is worth over so many nanoseconds. */
  function Worth(rate: real, nanos: int): real { rate * (nanos as real / 1000000000.0) }

  lemma WorthAdds(rate: real, a: int, b: int)
    ensures Worth(rate, a + b) == Worth(rate, a) + Worth(rate, b)
  {
    var x, y := a as real / 1000000000.0, b as real / 1000000000.0;
    assert (a + b) as real / 1000000000.0 == x + y;
    assert rate * (x + y) == rate * x + rate * y;
  }

  lemma WorthGrows(rate: real, a: int, b: int)
    requires rate >= 0.0 && a <= b
    ensures Worth(rate, a) <= Worth(rate, b)
  {
    ProductGrows(rate, a as real / 1000000000.0, b as real / 1000000000.0);
  }

  lemma ProductGrows(r: real, a: real, b: real)
    requires r >= 0.0 && a <= b
    ensures r * a <= r * b
  {
    assert r * (b - a) >= 0.0;
    assert r * (b - a) == r * b - r * a;
  }

  /** Truncating to whole microseconds never credits more than the time was worth, and never
      less than half of it. */
  lemma CreditIsFair(b: Bucket, now: int)
    requires b.rate >= 0.0 && Micros(now - b.lastRefill) > 0
    ensures Worth(b.rate, now - b.lastRefill) / 2.0 <= Credit(b, now) <= Worth(b.rate, now - b.lastRefill)
  {
    var d := now - b.lastRefill;
    var credited := Micros(d) as real / 1000000.0;
    var full := d as real / 1000000000.0;
    assert 1000 * Micros(d) <= d <= 2000 * Micros(d);
    assert full / 2.0 <= credited <= full;
    ProductGrows(b.rate, full / 2.0, credited);
    ProductGrows(b.rate, credited, full);
    HalfOfProduct(b.rate, full);
  }

  lemma HalfOfProduct(r: real, x: real)
    ensures r * (x / 2.0) == (r * x) / 2.0
  {}

  // ------------------------------------------------------------- the bounds

  /** Tokens stay between zero and the burst size in every run of any calls. */
  lemma {:induction false} TokensStayInRange(b: Bucket, calls: seq<Call>)
    requires Sound(b)
    ensures Sound(AfterAll(b, calls))
    decreases |calls|
  {
    if calls != [] {
      StepStaysInRange(b, calls[0]);
      TokensStayInRange(After(b, calls[0]), calls[1..]);
    }
  }

  lemma StepStaysInRange(b: Bucket, c: Call)
    requires Sound(b)
    ensures Sound(After(b, c))
  {
    if c.TryAcquire? { RefillIsBounded(b, c.now); }
  }

  lemma RefillIsBounded(b: Bucket, now: int)
    requires Sound(b)
    ensures var r := Refilled(b, now);
      && Sound(r) && r.rate == b.rate && r.burst == b.burst
      && b.tokens <= r.tokens <= b.tokens + Worth(b.rate, r.lastRefill - b.lastRefill)
      && b.lastRefill <= r.lastRefill <= (if now > b.lastRefill then now else b.lastRefill)
  {
    if b.rate > 0.0 && Micros(now - b.lastRefill) > 0 {
      WorthGrows(b.rate, 0, now - b.lastRefill);
      CreditIsFair(b, now);
    }
  }

  /** RATE BOUND. Over any run of requests, with the clock samples in any order, tokens left
      and tokens granted are paid for by the tokens there were and the refill time gone by. */
  lemma {:induction false} RateBound(b: Bucket, calls: seq<Call>)
    requires Sound(b) && b.rate > 0.0 && Requests(calls)
    ensures var end := AfterAll(b, calls);
      && end.rate == b.rate && end.burst == b.burst && b.lastRefill <= end.lastRefill
      && end.tokens + Granted(b, calls) <= b.tokens + Worth(b.rate, end.lastRefill - b.lastRefill)
    ensures var end := AfterAll(b, calls);
      Granted(b, calls) <= b.burst + Worth(b.rate, end.lastRefill - b.lastRefill)
    decreases |calls|
  {
    var end := AfterAll(b, calls);
    if calls != [] {
      var next := After(b, calls[0]);
      RefillIsBounded(b, calls[0].now);
      StepStaysInRange(b, calls[0]);
      RateBound(next, calls[1..]);
      WorthAdds(b.rate, next.lastRefill - b.lastRefill, end.lastRefill - next.lastRefill);
    }
    TokensStayInRange(b, calls);
  }

  predicate SampledWithin(calls: seq<Call>, from: int, to: int) {
    forall i :: 0 <= i < |calls| ==> calls[i].TryAcquire? && from <= calls[i].now <= to
  }

  lemma {:induction false} RefillsUpTo(b: Bucket, calls: seq<Call>, from: int, to: int)
    requires Sound(b) && b.rate > 0.0 && SampledWithin(calls, from, to)
    ensures AfterAll(b, calls).lastRefill <= (if b.lastRefill < to then to else b.lastRefill)
    decreases |calls|
  {
    if calls != [] {
      RefillIsBounded(b, calls[0].now);
      StepStaysInRange(b, calls[0]);
      RefillsUpTo(After(b, calls[0]), calls[1..], from, to);
    }
  }

  /** SLIDING WINDOW. Requests whose samples lie in a window of the clock together get no
      more than one burst and the rate over the window, a microsecond of truncation
      included - however long the bucket was idle before, and in whatever order they come. */
  lemma WindowBound(b: Bucket, calls: seq<Call>, from: int, to: int)
    requires Sound(b) && b.rate > 0.0 && SampledWithin(calls, from, to) && from <= to
    ensures Granted(b, calls) <= b.burst + Worth(b.rate, to - from + 999)
    decreases |calls|
  {
    WorthGrows(b.rate, 0, to - from + 999);
    if calls != [] && calls[0].amount <= 0.0 {
      WindowBound(b, calls[1..], from, to);
    } else if calls != [] {
      var start := Refilled(b, calls[0].now);
      var end := AfterAll(b, calls);
      RefillIsBounded(b, calls[0].now);
      SameFromRefill(b, calls);
      RateBound(start, calls);
      RefillsUpTo(start, calls, from, to);
      assert start.lastRefill >= from - 999;
      WorthGrows(b.rate, end.lastRefill - start.lastRefill, to - from + 999);
    }
  }

  /** A request sees the refilled bucket. */
  lemma SameFromRefill(b: Bucket, calls: seq<Call>)
    requires Sound(b) && b.rate > 0.0 && calls != [] && calls[0].TryAcquire? && calls[0].amount > 0.0
    ensures var start := Refilled(b, calls[0].now);
      Granted(b, calls) == Granted(start, calls) && AfterAll(b, calls) == AfterAll(start, calls)
  {
    hide Refilled;
    var c := calls[0];
    RefillIsBounded(b, c.now);
    RefillTwice(b, c.now);
    assert After(b, c) == After(Refilled(b, c.now), c) && Let(b, c) == Let(Refilled(b, c.now), c);
  }

  lemma RefillTwice(b: Bucket, now: int)
    ensures Refilled(Refilled(b, now), now) == Refilled(b, now)
  {}

  /** So a bucket keeps its limit whatever was called before the window opened, resets and
      reconfigurations included. */
  lemma LimitHoldsAfterAnyHistory(rate: real, burst: real, born: int, before: seq<Call>,
                                  calls: seq<Call>, from: int, to: int)
    requires SampledWithin(calls, from, to) && from <= to
    ensures var b := AfterAll(Configured(rate, burst, born), before);
      b.rate > 0.0 ==> Granted(b, calls) <= b.burst + Worth(b.rate, to - from + 999)
  {
    var b := AfterAll(Configured(rate, burst, born), before);
    TokensStayInRange(Configured(rate, burst, born), before);
    if b.rate > 0.0 { WindowBound(b, calls, from, to); }
  }

  predicate NoConfiguration(calls: seq<Call>) { forall i :: 0 <= i < |calls| ==> !calls[i].Configure? }

  lemma {:induction false} SettingsStay(b: Bucket, calls: seq<Call>)
    requires NoConfiguration(calls)
    ensures AfterAll(b, calls).rate == b.rate && AfterAll(b, calls).burst == b.burst
    decreases |calls|
  {
    if calls != [] { SettingsStay(After(b, calls[0]), calls[1..]); }
  }

  /** THE LIMIT THAT WAS ASKED FOR. A bucket made for `rate` tokens a second lets through, in any
      window, at most the rate over the window and one burst - the rate itself when no burst
      was given - whatever was called before, resets included. */
  lemma ConfiguredLimitHolds(rate: real, burst: real, born: int, before: seq<Call>,
                             calls: seq<Call>, from: int, to: int)
    requires rate > 0.0 && NoConfiguration(before) && SampledWithin(calls, from, to) && from <= to
    ensures Granted(AfterAll(Configured(rate, burst, born), before), calls)
         <= (if burst > 0.0 then burst else rate) + Worth(rate, to - from + 999)
  {
    SettingsStay(Configured(rate, burst, born), before);
    LimitHoldsAfterAnyHistory(rate, burst, born, before, calls, from, to);
  }

  /** A bucket that is new or was reset grants exactly the requests that fit its burst, at any
      clock sample; one without a positive rate limits nothing. */
  lemma FullBucketGrants(rate: real, burst: real, born: int, before: seq<Call>, at: int, now: int, amount: real)
    requires NoConfiguration(before)
    ensures var b := AfterAll(Configured(rate, burst, born), before);
      if rate > 0.0 then
        && (Grants(Configured(rate, burst, born), now, amount) <==> amount <= if burst > 0.0 then burst else rate)
        && (Grants(After(b, Reset(at)), now, amount) <==> amount <= if burst > 0.0 then burst else rate)
      else
        Grants(b, now, amount) && After(b, TryAcquire(now, amount)) == b
  {
    var start := Configured(rate, burst, born);
    SettingsStay(start, before);
    FullBucketStaysFull(start, now);
    FullBucketStaysFull(After(AfterAll(start, before), Reset(at)), now);
  }

  lemma FullBucketStaysFull(b: Bucket, now: int)
    requires b.rate >= 0.0 && b.tokens == b.burst
    ensures Refilled(b, now).tokens == b.burst
  {
    if b.rate > 0.0 && Micros(now - b.lastRefill) > 0 {
      ProductGrows(b.rate, 0.0, Micros(now - b.lastRefill) as real / 1000000.0);
    }
  }

  // ------------------------------------------------------ enough is credited

  predicate NeverCapped(b: Bucket, calls: seq<Call>)
    decreases |calls|
  {
    calls != [] ==>
      && (calls[0].TryAcquire? && !Free(b, calls[0].amount) && Micros(calls[0].now - b.lastRefill) > 0
          ==> b.tokens + Credit(b, calls[0].now) <= b.burst)
      && NeverCapped(After(b, calls[0]), calls[1..])
  }

  /** While the burst size never caps a refill, at least half of the rate is credited: the
      bound of RateBound, from below. */
  lemma {:induction false} HalfIsCredited(b: Bucket, calls: seq<Call>)
    requires Sound(b) && b.rate > 0.0 && Requests(calls) && NeverCapped(b, calls)
    ensures var end := AfterAll(b, calls);
      end.tokens + Granted(b, calls) >= b.tokens + Worth(b.rate, end.lastRefill - b.lastRefill) / 2.0
    decreases |calls|
  {
    if calls != [] {
      var end := AfterAll(b, calls);
      var next := After(b, calls[0]);
      var now := calls[0].now;
      RefillIsBounded(b, now);
      if Micros(now - b.lastRefill) > 0 { CreditIsFair(b, now); }
      StepStaysInRange(b, calls[0]);
      HalfIsCredited(next, calls[1..]);
      WorthAdds(b.rate, next.lastRefill - b.lastRefill, end.lastRefill - next.lastRefill);
    }
  }

  /** The snapshot of available tokens is exact: at the same sample a request is granted if
      and only if it asks for no more than that. */
  lemma AvailableIsWhatCanBeTaken(b: Bucket, now: int, amount: real)
    requires b.rate > 0.0 && amount > 0.0
    ensures Grants(b, now, amount) <==> amount <= Available(b, now)
  {}

  /** A request for more than the burst is never granted; one for no more is granted as soon
      as twice the time its tokens are worth has gone by. */
  lemma PatientRequestIsGranted(b: Bucket, now: int, amount: real)
    requires Sound(b) && b.rate > 0.0 && amount > 0.0
    ensures Grants(b, now, amount) ==> amount <= b.burst
    ensures (now - b.lastRefill >= 1000 && amount <= b.burst
             && Worth(b.rate, now - b.lastRefill) >= 2.0 * (amount - b.tokens)) ==> Grants(b, now, amount)
  {
    RefillIsBounded(b, now);
    if Micros(now - b.lastRefill) > 0 { CreditIsFair(b, now); }
  }
}
