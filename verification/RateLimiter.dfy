/** The token bucket that limits transfer rates, over a clock in nanoseconds. */
module RateLimiter {
  import opened Bytes

  const MS := 1_000_000
  const SECOND := 1_000_000_000
  const INTERVAL := 100 * MS
  const MIN_BURST := 64 * 1024

  datatype Bucket = Bucket(rate: nat, tokens: nat, last: nat)

  function New(rate: nat, now: nat): Bucket { Bucket(rate, rate, now) }

  function Capacity(b: Bucket): nat { Max(b.rate, MIN_BURST) }

  function Elapsed(b: Bucket, now: nat): nat { if now < b.last then 0 else now - b.last }

  /** What a refill adds: whole milliseconds, rounded down to whole tokens. */
  function Earned(rate: nat, elapsed: nat): nat { rate * (elapsed / MS) / 1000 }

  function Refilled(b: Bucket, now: nat): Bucket {
    if b.rate == 0 || Elapsed(b, now) < INTERVAL then b
    else Bucket(b.rate, Min(b.tokens + Earned(b.rate, Elapsed(b, now)), Capacity(b)), now)
  }

  /** The bucket after the attempt, and None when granted or the wait in milliseconds. */
  function Attempt(b: Bucket, n: nat, now: nat): (Bucket, Option<nat>) {
    var c := Refilled(b, now);
    if c.rate == 0 then (c, None)
    else if c.tokens >= n then (c.(tokens := c.tokens - n), None)
    else (c, Some(Max((n - c.tokens) * 1000 / c.rate, 1)))
  }

  function Rerated(b: Bucket, rate: nat, now: nat): Bucket {
    var c := Refilled(b, now).(rate := rate);
    c.(tokens := Min(c.tokens, Max(Capacity(c), 1)))
  }

  /** `RateLimiter` */
  class Limiter {
    var rate: nat
    var tokens: nat
    var last: nat

    function View(): Bucket
      reads this
    {
      Bucket(rate, tokens, last)
    }

    constructor (rate: nat, now: nat)
      ensures View() == New(rate, now)
    {
      this.rate, tokens, last := rate, rate, now;
    }

    method Refill(now: nat)
      modifies this
      ensures View() == Refilled(old(View()), now)
    {
      if rate == 0 {
        return;
      }
      var elapsed := if now < last then 0 else now - last;
      if elapsed < INTERVAL {
        return;
      }
      var earned := rate * (elapsed / MS) / 1000;
      tokens := Min(tokens + earned, Max(rate, MIN_BURST));
      last := now;
    }

    method TryConsume(n: nat, now: nat) returns (wait: Option<nat>)
      modifies this
      ensures (View(), wait) == Attempt(old(View()), n, now)
    {
      Refill(now);
      if rate == 0 {
        return None;
      }
      if tokens >= n {
        tokens := tokens - n;
        return None;
      }
      var deficit := n - tokens;
      var waitMs := deficit * 1000 / rate;
      wait := Some(Max(waitMs, 1));
    }

    method SetRate(rate: nat, now: nat)
      modifies this
      ensures View() == Rerated(old(View()), rate, now)
      ensures this.rate == rate && tokens <= Max(rate, MIN_BURST)
    {
      Refill(now);
      this.rate := rate;
      tokens := Min(tokens, Max(Max(rate, MIN_BURST), 1));
    }

    /**
     The retry loop of a download or an upload. From 10 bytes a second on it ends however long
     the sleeps turn out, as long as each lasts the time asked for.
     */
    method Acquire(n: nat, start: nat) returns (now: nat)
      requires 10 <= rate && n <= Capacity(View()) && last <= start
      modifies this
      ensures start <= now && last <= now && rate == old(rate)
      ensures exists b :: Attempt(b, n, now) == (View(), None)
    {
      hide Attempt, Refilled;
      now := start;
      while true
        invariant start <= now && last <= now && rate == old(rate) && n <= Capacity(View())
        decreases ToGo(View(), n, now)
      {
        ghost var before := View();
        AttemptFields(before, n, now);
        var wait := TryConsume(n, now);
        if wait.None? {
          return;
        }
        var slept: nat :| slept >= Min(wait.value, 500) * MS;
        Closer(before, n, now, slept);
        now := now + slept;
      }
    }
  }

  // Never too much --------------------------------------------------------------------------------

  datatype Call = Consume(n: nat, at: nat) | SetRate(rate: nat, at: nat)

  function Apply(b: Bucket, c: Call): Bucket {
    match c
    case Consume(n, at) => Attempt(b, n, at).0
    case SetRate(rate, at) => Rerated(b, rate, at)
  }

  function Run(b: Bucket, calls: seq<Call>): Bucket
    decreases |calls|
  {
    if calls == [] then b else Run(Apply(b, calls[0]), calls[1..])
  }

  /** The bucket never holds more than its capacity, whatever the calls and changes of rate. */
  lemma {:induction false} NeverOverfull(b: Bucket, calls: seq<Call>)
    requires b.tokens <= Capacity(b)
    ensures Run(b, calls).tokens <= Capacity(Run(b, calls))
    decreases |calls|
  {
    if calls != [] {
      ApplyKeepsCapacity(b, calls[0]);
      NeverOverfull(Apply(b, calls[0]), calls[1..]);
    }
  }

  lemma ApplyKeepsCapacity(b: Bucket, c: Call)
    requires b.tokens <= Capacity(b)
    ensures Apply(b, c).tokens <= Capacity(Apply(b, c))
  {
    hide Earned;
  }

  /** Requests in order of time: a byte count and when it is asked for. */
  function Granted(b: Bucket, asks: seq<(nat, nat)>): nat
    decreases |asks|
  {
    if asks == [] then 0
    else
      var (c, wait) := Attempt(b, asks[0].0, asks[0].1);
      (if wait.None? then asks[0].0 else 0) + Granted(c, asks[1..])
  }

  predicate InTime(asks: seq<(nat, nat)>, from: nat, to: nat)
    decreases |asks|
  {
    if asks == [] then from <= to else from <= asks[0].1 && InTime(asks[1..], asks[0].1, to)
  }

  lemma EarnedBound(rate: nat, elapsed: nat)
    ensures SECOND * Earned(rate, elapsed) <= rate * elapsed
  {
    var ms := elapsed / MS;
    assert 1000 * (rate * ms / 1000) <= rate * ms;
    MulLe(ms * MS, elapsed, rate);
    assert rate * ms * MS == ms * MS * rate;
  }

  /** A bucket created at `t0` with a fixed rate has not given more than time earned. */
  ghost predicate Earnings(b: Bucket, rate: nat, t0: nat, given: nat) {
    b.rate == rate && t0 <= b.last && SECOND * (given + b.tokens) <= SECOND * rate + rate * (b.last - t0)
  }

  lemma RefillEarns(b: Bucket, rate: nat, t0: nat, given: nat, now: nat)
    requires Earnings(b, rate, t0, given) && b.last <= now
    ensures Earnings(Refilled(b, now), rate, t0, given) && Refilled(b, now).last <= now
  {
    var e := Elapsed(b, now);
    if rate > 0 && e >= INTERVAL {
      EarnedBound(rate, e);
      assert rate * (now - t0) == rate * (b.last - t0) + rate * e;
    }
  }

  lemma AttemptEarns(b: Bucket, rate: nat, t0: nat, given: nat, n: nat, now: nat)
    requires rate > 0 && Earnings(b, rate, t0, given) && b.last <= now
    ensures var (c, wait) := Attempt(b, n, now);
            c.last <= now && Earnings(c, rate, t0, given + (if wait.None? then n else 0))
  {
    hide Refilled;
    RefillEarns(b, rate, t0, given, now);
  }

  lemma {:induction false} RunEarns(b: Bucket, rate: nat, t0: nat, given: nat, asks: seq<(nat, nat)>, from: nat, to: nat)
    requires rate > 0 && Earnings(b, rate, t0, given) && b.last <= from && InTime(asks, from, to)
    ensures SECOND * (given + Granted(b, asks)) <= SECOND * rate + rate * (to - t0)
    decreases |asks|
  {
    hide Attempt;
    if asks == [] {
      MulLe(b.last - t0, to - t0, rate);
    } else {
      var (c, wait) := Attempt(b, asks[0].0, asks[0].1);
      AttemptEarns(b, rate, t0, given, asks[0].0, asks[0].1);
      RunEarns(c, rate, t0, given + (if wait.None? then asks[0].0 else 0), asks[1..], asks[0].1, to);
    }
  }

  /** Over any run of requests from creation, the bytes granted stay within one second's burst plus rate times time. */
  lemma RateIsRespected(rate: nat, t0: nat, asks: seq<(nat, nat)>, to: nat)
    requires rate > 0 && InTime(asks, t0, to)
    ensures SECOND * Granted(New(rate, t0), asks) <= SECOND * rate + rate * (to - t0)
  {
    RunEarns(New(rate, t0), rate, t0, 0, asks, t0, to);
  }

  // Changes of rate --------------------------------------------------------------------------------

  /**
   After a change the rate is the one asked for. The tokens are those found, refilled at the old rate
   first, cut down to what the new rate may hold; the clock is only reset by that refill.
   */
  lemma ReratedIs(b: Bucket, rate: nat, now: nat)
    ensures var c, d := Rerated(b, rate, now), Refilled(b, now);
            && c.rate == rate && c.last == d.last && c.tokens <= d.tokens && c.tokens <= Capacity(c)
            && (c.tokens < d.tokens ==> c.tokens == Capacity(c))
  {
    hide Refilled;
  }

  function CallTime(c: Call): nat { c.at }

  predicate CallsInTime(calls: seq<Call>, from: nat, to: nat)
    decreases |calls|
  {
    if calls == [] then from <= to else from <= CallTime(calls[0]) && CallsInTime(calls[1..], CallTime(calls[0]), to)
  }

  /** Bytes granted by the calls that ask for some. */
  function GrantedBy(b: Bucket, calls: seq<Call>): nat
    decreases |calls|
  {
    if calls == [] then 0
    else
      var c := calls[0];
      (if c.Consume? && Attempt(b, c.n, c.at).1.None? then c.n else 0) + GrantedBy(Apply(b, c), calls[1..])
  }

  /** A limited bucket that never had a rate above `top` has not given more than that earned. */
  ghost predicate EarningsUpTo(b: Bucket, top: nat, burst: nat, t0: nat, given: nat) {
    0 < b.rate <= top && t0 <= b.last && SECOND * (given + b.tokens) <= SECOND * burst + top * (b.last - t0)
  }

  lemma RefillEarnsUpTo(b: Bucket, top: nat, burst: nat, t0: nat, given: nat, now: nat)
    requires EarningsUpTo(b, top, burst, t0, given) && b.last <= now
    ensures EarningsUpTo(Refilled(b, now), top, burst, t0, given) && Refilled(b, now).last <= now
  {
    var e := Elapsed(b, now);
    if e >= INTERVAL {
      EarnedBound(b.rate, e);
      MulLe(b.rate, top, e);
      assert top * (now - t0) == top * (b.last - t0) + top * e;
    }
  }

  lemma CallEarns(b: Bucket, top: nat, burst: nat, t0: nat, given: nat, c: Call)
    requires EarningsUpTo(b, top, burst, t0, given) && b.last <= CallTime(c) && (c.SetRate? ==> 0 < c.rate <= top)
    ensures var b' := Apply(b, c);
            && b'.last <= CallTime(c)
            && EarningsUpTo(b', top, burst, t0, given + (if c.Consume? && Attempt(b, c.n, c.at).1.None? then c.n else 0))
  {
    hide Refilled;
    RefillEarnsUpTo(b, top, burst, t0, given, CallTime(c));
  }

  /**
   Over any run of requests and changes of rate, none of them unlimited, the bytes granted stay within
   the first second's burst plus the highest rate times time.
   */
  lemma {:induction false} RatesAreRespected(b: Bucket, top: nat, burst: nat, t0: nat, given: nat, calls: seq<Call>, from: nat, to: nat)
    requires EarningsUpTo(b, top, burst, t0, given) && b.last <= from && CallsInTime(calls, from, to)
    requires forall k :: 0 <= k < |calls| && calls[k].SetRate? ==> 0 < calls[k].rate <= top
    ensures SECOND * (given + GrantedBy(b, calls)) <= SECOND * burst + top * (to - t0)
    decreases |calls|
  {
    hide Attempt, Apply;
    if calls == [] {
      MulLe(b.last - t0, to - t0, top);
    } else {
      var c := calls[0];
      CallEarns(b, top, burst, t0, given, c);
      RatesAreRespected(Apply(b, c), top, burst, t0, given + (if c.Consume? && Attempt(b, c.n, c.at).1.None? then c.n else 0),
                        calls[1..], CallTime(c), to);
    }
  }

  /** From creation on. */
  lemma HighestRateIsRespected(rate: nat, top: nat, t0: nat, calls: seq<Call>, to: nat)
    requires 0 < rate <= top && CallsInTime(calls, t0, to)
    requires forall k :: 0 <= k < |calls| && calls[k].SetRate? ==> 0 < calls[k].rate <= top
    ensures SECOND * GrantedBy(New(rate, t0), calls) <= SECOND * rate + top * (to - t0)
  {
    RatesAreRespected(New(rate, t0), top, rate, t0, 0, calls, t0, to);
  }

  /** A new bucket is full: a burst of one second's worth is granted at once, and no more. */
  lemma FirstBurst(rate: nat, n: nat, now: nat)
    ensures Attempt(New(rate, now), n, now).1.None? <==> rate == 0 || n <= rate
  {
  }

  /** An idle limited bucket fills up to one second's worth or 64 KiB, whichever is more. */
  lemma FullWhenIdle(b: Bucket, now: nat)
    requires b.rate > 0 && b.tokens <= Capacity(b) && Elapsed(b, now) >= INTERVAL && Earned(b.rate, Elapsed(b, now)) >= Capacity(b)
    ensures Refilled(b, now).tokens == if b.rate > 65536 then b.rate else 65536
  {
    hide Earned;
  }

  /** What whole milliseconds earn is rounded down by less than one token. */
  lemma EarnedExactly(rate: nat, elapsed: nat)
    ensures 1000 * Earned(rate, elapsed) <= rate * (elapsed / MS) < 1000 * (Earned(rate, elapsed) + 1)
  {
  }

  /** An unlimited bucket grants everything; a limited one exactly what its tokens cover after the refill, and takes them. */
  lemma AttemptMeans(b: Bucket, n: nat, now: nat)
    ensures var (c, wait) := Attempt(b, n, now);
            var d := Refilled(b, now);
            && c.rate == b.rate && (wait.None? <==> b.rate == 0 || n <= d.tokens)
            && c.tokens == (if b.rate > 0 && n <= d.tokens then d.tokens - n else d.tokens) && c.last == d.last
            && (wait.Some? ==> wait.value >= 1 && b.rate * (wait.value - 1) <= (n - d.tokens) * 1000
                               && (wait.value > 1 ==> b.rate * wait.value <= (n - d.tokens) * 1000)
                               && (n - d.tokens) * 1000 < b.rate * (wait.value + 1))
  {
    hide Earned;
    var d := Refilled(b, now);
    if b.rate > 0 && n > d.tokens {
      var x := (n - d.tokens) * 1000;
      var q := x / b.rate;
      assert q * b.rate <= x < q * b.rate + b.rate;
      assert (q + 1) * b.rate == q * b.rate + b.rate && (q - 1) * b.rate == q * b.rate - b.rate;
    }
  }

  // Eventually enough ------------------------------------------------------------------------------

  /** How many more attempts a request can need at most: a hundred for each missing token. */
  function ToGo(b: Bucket, n: nat, now: nat): nat {
    if b.tokens >= n then 0 else 100 * (n - b.tokens) - Min(Elapsed(b, now) / MS, 100)
  }

  lemma EarnsOne(rate: nat, elapsed: nat)
    requires rate >= 10 && elapsed >= INTERVAL
    ensures Earned(rate, elapsed) >= 1
  {
    var ms := elapsed / MS;
    MulLe(10, rate, ms);
    assert rate * ms >= 1000;
  }

  /** After a refusal and a sleep of at least a millisecond the next attempt is closer. */
  lemma Closer(b: Bucket, n: nat, now: nat, slept: nat)
    requires b.rate >= 10 && n <= Capacity(b) && b.last <= now
    requires Attempt(b, n, now).1.Some? && slept >= Min(Attempt(b, n, now).1.value, 500) * MS
    ensures ToGo(Attempt(b, n, now).0, n, now + slept) < ToGo(b, n, now)
  {
    hide Earned;
    assert slept >= MS;
    if Elapsed(b, now) >= INTERVAL {
      EarnsOne(b.rate, Elapsed(b, now));
    }
  }

  /** Attempts with sleeps in between, as long as `pace` makes the asked milliseconds last. */
  predicate Served(b: Bucket, n: nat, now: nat, pace: (nat, nat) -> nat, tries: nat)
    decreases tries
  {
    var (c, wait) := Attempt(b, n, now);
    wait.None? || (tries > 0 && Served(c, n, now + pace(tries, Min(wait.value, 500)), pace, tries - 1))
  }

  /** From 10 bytes a second on, a lone consumer is served within a hundred tries for each missing byte. */
  lemma {:induction false} FastEnough(b: Bucket, n: nat, now: nat, pace: (nat, nat) -> nat, tries: nat)
    requires b.rate >= 10 && n <= Capacity(b) && b.last <= now
    requires forall k: nat, ms: nat :: pace(k, ms) >= ms * MS
    requires tries >= ToGo(b, n, now)
    ensures Served(b, n, now, pace, tries)
    decreases tries
  {
    hide ToGo, Attempt;
    var (c, wait) := Attempt(b, n, now);
    if wait.Some? {
      var slept := pace(tries, Min(wait.value, 500));
      Closer(b, n, now, slept);
      AttemptFields(b, n, now);
      FastEnough(c, n, now + slept, pace, tries - 1);
    }
  }

  lemma AttemptFields(b: Bucket, n: nat, now: nat)
    requires b.last <= now
    ensures Attempt(b, n, now).0.rate == b.rate && b.last <= Attempt(b, n, now).0.last <= now
  {
  }

  // Exactly when ---------------------------------------------------------------------------------------

  /** Sleeping exactly as long as asked. */
  function Exact(k: nat, ms: nat): nat { ms * MS }

  /** What one exact sleep earns when `deficit` tokens are missing. */
  function Gain(rate: nat, deficit: nat): nat
    requires rate > 0
  {
    rate * Min(Max(deficit * 1000 / rate, 1), 500) / 1000
  }

  /** The rates, or rates and deficits, that exact sleeps can serve. */
  predicate Servable(rate: nat, deficit: nat) {
    rate >= 10 || rate in {2, 4, 5, 8} || (rate == 6 && deficit % 3 == 0)
  }

  lemma SlowGain(rate: nat, deficit: nat)
    requires 0 < rate < 10 && deficit > 0
    ensures Min(Max(deficit * 1000 / rate, 1), 500) >= 100 && Gain(rate, deficit) <= deficit
    ensures Servable(rate, deficit) ==>
              Gain(rate, deficit) > 0 && (Gain(rate, deficit) < deficit ==> Servable(rate, deficit - Gain(rate, deficit)))
    ensures !Servable(rate, deficit) ==>
              Gain(rate, deficit) < deficit && !Servable(rate, deficit - Gain(rate, deficit))
  {
    if rate == 1 {} else if rate == 2 {} else if rate == 3 {} else if rate == 4 {} else if rate == 5 {}
    else if rate == 6 {} else if rate == 7 {} else if rate == 8 {} else {}
  }

  /** The attempt after an exact sleep, for a rate below 10 and a bucket just refilled. */
  lemma SlowStep(b: Bucket, n: nat, now: nat, tries: nat)
    requires 0 < b.rate < 10 && b.last == now && b.tokens < n <= MIN_BURST
    ensures var d := n - b.tokens;
            var later := now + Min(Max(d * 1000 / b.rate, 1), 500) * MS;
            var c := Bucket(b.rate, b.tokens + Gain(b.rate, d), later);
            && Gain(b.rate, d) <= d
            && (tries == 0 ==> !Served(b, n, now, Exact, tries))
            && (tries > 0 ==> Served(b, n, now, Exact, tries) == Served(c, n, later, Exact, tries - 1))
  {
    hide Gain, Servable, Served;
    var d := n - b.tokens;
    SlowGain(b.rate, d);
    var w := Min(Max(d * 1000 / b.rate, 1), 500);
    var later := now + w * MS;
    assert Attempt(b, n, now) == (b, Some(Max(d * 1000 / b.rate, 1)));
    ServedStep(b, n, now, tries);
    GainIsEarned(b.rate, d);
    var c := Bucket(b.rate, b.tokens + Gain(b.rate, d), later);
    assert Refilled(b, later) == c == Refilled(c, later);
    SameAttempt(b, c, n, later, if tries > 0 then tries - 1 else 0);
  }

  lemma GainIsEarned(rate: nat, deficit: nat)
    requires rate > 0
    ensures Gain(rate, deficit) == Earned(rate, Min(Max(deficit * 1000 / rate, 1), 500) * MS)
  {
    var w := Min(Max(deficit * 1000 / rate, 1), 500);
    assert w * MS / MS == w;
  }

  lemma ServedStep(b: Bucket, n: nat, now: nat, tries: nat)
    ensures var (c, wait) := Attempt(b, n, now);
            Served(b, n, now, Exact, tries) ==
              (wait.None? || (tries > 0 && Served(c, n, now + Min(wait.value, 500) * MS, Exact, tries - 1)))
  {
    hide Attempt;
  }

  lemma SameAttempt(b: Bucket, c: Bucket, n: nat, now: nat, tries: nat)
    requires Refilled(b, now) == Refilled(c, now)
    ensures Served(b, n, now, Exact, tries) == Served(c, n, now, Exact, tries)
  {
    hide Refilled;
  }

  lemma ServedAtOnce(b: Bucket, n: nat, tries: nat)
    requires b.tokens >= n && b.rate > 0
    ensures Served(b, n, b.last, Exact, tries)
  {
  }

  lemma {:induction false} SlowServed(b: Bucket, n: nat, now: nat, tries: nat)
    requires 0 < b.rate < 10 && b.last == now && b.tokens < n <= MIN_BURST
    ensures Servable(b.rate, n - b.tokens) && tries >= n - b.tokens ==> Served(b, n, now, Exact, tries)
    ensures !Servable(b.rate, n - b.tokens) ==> !Served(b, n, now, Exact, tries)
    decreases tries
  {
    hide Gain, Servable, Served;
    var d := n - b.tokens;
    SlowGain(b.rate, d);
    SlowStep(b, n, now, tries);
    if tries > 0 {
      var later := now + Min(Max(d * 1000 / b.rate, 1), 500) * MS;
      var c := Bucket(b.rate, b.tokens + Gain(b.rate, d), later);
      if c.tokens < n {
        SlowServed(c, n, later, tries - 1);
      } else {
        ServedAtOnce(c, n, tries - 1);
      }
    }
  }

  /** A request beyond the bucket's capacity is refused for ever, however long the sleeps. */
  lemma {:induction false} TooBigNeverServed(b: Bucket, n: nat, now: nat, pace: (nat, nat) -> nat, tries: nat)
    requires b.rate > 0 && b.tokens <= Capacity(b) < n
    ensures !Served(b, n, now, pace, tries)
    decreases tries
  {
    hide Earned;
    var (c, wait) := Attempt(b, n, now);
    assert c.rate == b.rate && c.tokens <= Capacity(b);
    if tries > 0 {
      TooBigNeverServed(c, n, now + pace(tries, Min(wait.value, 500)), pace, tries - 1);
    }
  }

  // From any refusal -------------------------------------------------------------------------------

  /** The sleep after a refusal, in milliseconds. */
  function Sleep(rate: nat, deficit: nat): nat
    requires rate > 0
  {
    Min(Max(deficit * 1000 / rate, 1), 500)
  }

  /**
   Whether exact sleeps ever serve a consumer refused `idle` nanoseconds after the last refill:
   below 10 bytes a second the first sleep always ends in a refill, which also counts the idle
   time, and what is missing then must be servable.
   */
  predicate EverServed(rate: nat, deficit: nat, idle: nat)
    requires rate > 0
  {
    || rate >= 10
    || (var earned := Earned(rate, idle + Sleep(rate, deficit) * MS);
        earned >= deficit || Servable(rate, deficit - earned))
  }

  lemma FirstRefill(b: Bucket, n: nat, now: nat, tries: nat)
    requires 0 < b.rate < 10 && b.last <= now && Refilled(b, now) == b && b.tokens < n <= MIN_BURST
    ensures var d := n - b.tokens;
            var later := now + Sleep(b.rate, d) * MS;
            var c := Bucket(b.rate, Min(b.tokens + Earned(b.rate, later - b.last), MIN_BURST), later);
            && later >= b.last
            && (tries == 0 ==> !Served(b, n, now, Exact, tries))
            && (tries > 0 ==> Served(b, n, now, Exact, tries) == Served(c, n, later, Exact, tries - 1))
  {
    hide Served, Servable, Gain;
    var d := n - b.tokens;
    SlowGain(b.rate, d);
    var later := now + Sleep(b.rate, d) * MS;
    assert Attempt(b, n, now) == (b, Some(Max(d * 1000 / b.rate, 1)));
    ServedStep(b, n, now, tries);
    var c := Bucket(b.rate, Min(b.tokens + Earned(b.rate, later - b.last), MIN_BURST), later);
    assert Refilled(b, later) == c == Refilled(c, later);
    SameAttempt(b, c, n, later, if tries > 0 then tries - 1 else 0);
  }

  lemma SlowFromAnywhere(b: Bucket, n: nat, now: nat, tries: nat)
    requires 0 < b.rate < 10 && b.last <= now && Refilled(b, now) == b && b.tokens < n <= MIN_BURST
    ensures EverServed(b.rate, n - b.tokens, now - b.last) && tries > n - b.tokens ==> Served(b, n, now, Exact, tries)
    ensures !EverServed(b.rate, n - b.tokens, now - b.last) ==> !Served(b, n, now, Exact, tries)
  {
    hide Served, Servable, Gain, Earned, Refilled, Sleep;
    var d := n - b.tokens;
    FirstRefill(b, n, now, tries);
    if tries > 0 {
      var later := now + Sleep(b.rate, d) * MS;
      var earned := Earned(b.rate, later - b.last);
      var c := Bucket(b.rate, Min(b.tokens + earned, MIN_BURST), later);
      assert later - b.last == (now - b.last) + Sleep(b.rate, d) * MS;
      if earned >= d {
        ServedAtOnce(c, n, tries - 1);
      } else {
        SlowServed(c, n, later, tries - 1);
      }
    }
  }

  lemma RefusedFields(b: Bucket, n: nat, now: nat)
    requires b.last <= now && b.tokens <= Capacity(b) && Attempt(b, n, now).1.Some?
    ensures var c := Refilled(b, now);
            && c.rate == b.rate > 0 && b.last <= c.last <= now && c.tokens < n && c.tokens <= Capacity(b)
            && Refilled(c, now) == c
  {
    hide Earned;
  }

  /**
   With exact sleeps, a consumer refused in any state is ever served exactly when its request fits
   the bucket and the rate is at least 10, or what the time since the last refill and the first
   sleep earn covers the deficit or leaves a servable one.
   */
  lemma ServedIff(b: Bucket, n: nat, now: nat)
    requires b.last <= now && b.tokens <= Capacity(b) && Attempt(b, n, now).1.Some?
    ensures Refilled(b, now).rate > 0 && Refilled(b, now).last <= now && Refilled(b, now).tokens <= n
    ensures (exists tries: nat :: Served(b, n, now, Exact, tries)) <==>
            (var c := Refilled(b, now);
             n <= Capacity(b) && EverServed(c.rate, n - c.tokens, now - c.last))
  {
    hide Served, Servable, Gain, Earned, Refilled, Attempt, Sleep, ToGo;
    RefusedFields(b, n, now);
    var c := Refilled(b, now);
    forall tries: nat ensures Served(b, n, now, Exact, tries) == Served(c, n, now, Exact, tries) {
      SameAttempt(b, c, n, now, tries);
    }
    if n > Capacity(b) {
      forall tries: nat ensures !Served(b, n, now, Exact, tries) {
        TooBigNeverServed(b, n, now, Exact, tries);
      }
    } else if b.rate >= 10 {
      FastEnough(b, n, now, Exact, ToGo(b, n, now));
      assert Served(b, n, now, Exact, ToGo(b, n, now));
    } else {
      forall tries: nat ensures !EverServed(c.rate, n - c.tokens, now - c.last) ==> !Served(b, n, now, Exact, tries) {
        SlowFromAnywhere(c, n, now, tries);
      }
      SlowFromAnywhere(c, n, now, n - c.tokens + 1);
      assert Served(b, n, now, Exact, n - c.tokens + 1) == Served(c, n, now, Exact, n - c.tokens + 1);
    }
  }

  /** Just refilled: the rate is at least 10, or 2, 4, 5 or 8, or it is 6 and a multiple of 3 is missing. */
  lemma ServedIffFresh(b: Bucket, n: nat, now: nat)
    requires b.rate > 0 && b.last == now && b.tokens < n <= MIN_BURST && b.tokens <= Capacity(b)
    ensures (exists tries: nat :: Served(b, n, now, Exact, tries)) <==> Servable(b.rate, n - b.tokens)
  {
    hide Served;
    if b.rate >= 10 {
      FastEnough(b, n, now, Exact, ToGo(b, n, now));
      assert Served(b, n, now, Exact, ToGo(b, n, now));
    } else {
      forall tries: nat ensures !Servable(b.rate, n - b.tokens) ==> !Served(b, n, now, Exact, tries) {
        SlowServed(b, n, now, tries);
      }
      SlowServed(b, n, now, n - b.tokens);
    }
  }
}
