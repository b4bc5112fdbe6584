/** Token buckets, and the pool that keeps one for each user or address. Doubles are modelled as reals;
    the clock is an input, in milliseconds. */
module RateLimiters {

  datatype Bucket = Bucket(rate: real, burst: real, tokens: real, lastRefill: real)

  function MaxR(a: real, b: real): real { if a < b then b else a }

  function MinR(a: real, b: real): real { if b < a then b else a }

  function Full(rate: real, burst: real, now: real): Bucket {
    Bucket(rate, MaxR(1.0, burst), MaxR(1.0, burst), now)
  }

  /** The tokens a rate per second brings in some milliseconds. */
  function Earned(ms: real, rate: real): real { ms * (rate / 1000.0) }

  function Refill(b: Bucket, now: real): Bucket {
    var delta := now - b.lastRefill;
    if delta <= 0.0 || b.rate <= 0.0 then b.(lastRefill := now)
    else b.(tokens := MinR(b.burst, b.tokens + Earned(delta, b.rate)), lastRefill := now)
  }

  predicate Grants(b: Bucket, now: real, tokens: real) { Refill(b, now).tokens >= tokens }

  function Allow(b: Bucket, now: real, tokens: real): Bucket {
    var r := Refill(b, now);
    if r.tokens < tokens then r else r.(tokens := r.tokens - tokens)
  }

  class TokenBucketRateLimiter {
    var rate: real
    var burst: real
    var tokens: real
    var lastRefillMs: real

    function Value(): Bucket
      reads this
    {
      Bucket(rate, burst, tokens, lastRefillMs)
    }

    constructor (rate: real, burst: real, now: real)
      ensures Value() == Full(rate, burst, now)
    {
      this.rate, this.burst, this.tokens, this.lastRefillMs := rate, MaxR(1.0, burst), MaxR(1.0, burst), now;
    }

    method Take(wanted: real, now: real) returns (ok: bool)
      modifies this`tokens, this`lastRefillMs
      ensures Value() == Allow(old(Value()), now, wanted) && ok == Grants(old(Value()), now, wanted)
    {
      RefillNow(now);
      if tokens < wanted {
        return false;
      }
      tokens := tokens - wanted;
      ok := true;
    }

    method Reset(rate: real, burst: real, now: real)
      modifies this
      ensures Value() == Full(rate, burst, now)
    {
      this.rate := rate;
      this.burst := MaxR(1.0, burst);
      tokens := this.burst;
      lastRefillMs := now;
    }

    method RefillNow(now: real)
      modifies this`tokens, this`lastRefillMs
      ensures Value() == Refill(old(Value()), now)
    {
      var delta := now - lastRefillMs;
      if delta <= 0.0 || rate <= 0.0 {
        lastRefillMs := now;
        return;
      }
      var refillTokens := delta * (rate / 1000.0);
      tokens := MinR(burst, tokens + refillTokens);
      lastRefillMs := now;
    }
  }

  // ---------------------------------------------------------------- the bound

  datatype Call = Call(at: real, tokens: real)

  function After(b: Bucket, calls: seq<Call>): Bucket
    decreases |calls|
  {
    if calls == [] then b else After(Allow(b, calls[0].at, calls[0].tokens), calls[1..])
  }

  /** The tokens granted to a list of calls. */
  function Granted(b: Bucket, calls: seq<Call>): real
    decreases |calls|
  {
    if calls == [] then 0.0
    else
      (if Grants(b, calls[0].at, calls[0].tokens) then calls[0].tokens else 0.0) +
      Granted(Allow(b, calls[0].at, calls[0].tokens), calls[1..])
  }

  predicate InRange(b: Bucket) { 0.0 <= b.tokens <= b.burst }

  ghost predicate NonNegative(calls: seq<Call>) { forall i :: 0 <= i < |calls| ==> calls[i].tokens >= 0.0 }

  /** Calls in clock order, between two times. */
  ghost predicate Within(calls: seq<Call>, s: real, t: real) {
    && (forall i :: 0 <= i < |calls| ==> s <= calls[i].at <= t)
    && (forall i, j :: 0 <= i < j < |calls| ==> calls[i].at <= calls[j].at)
  }

  /** What a bucket gains over a time, if nothing is lost at the brim. */
  function Gain(b: Bucket, ms: real): real { Earned(ms, MaxR(0.0, b.rate)) }

  lemma GainAdds(b: Bucket, x: real, y: real)
    ensures Gain(b, x) + Gain(b, y) == Gain(b, x + y)
  {
  }

  lemma GainGrows(b: Bucket, x: real, y: real)
    requires x <= y
    ensures Gain(b, x) <= Gain(b, y)
  {
    GainAdds(b, x, y - x);
    GainNonNegative(b, y - x);
  }

  lemma GainNonNegative(b: Bucket, x: real)
    requires 0.0 <= x
    ensures 0.0 <= Gain(b, x)
  {
    var r := MaxR(0.0, b.rate) / 1000.0;
    assert 0.0 <= r;
    assert 0.0 <= x * r;
  }

  /** Refilling stays below the brim and adds at most the gain. */
  lemma RefillGains(b: Bucket, now: real)
    requires InRange(b)
    ensures InRange(Refill(b, now)) && Refill(b, now).burst == b.burst && Refill(b, now).rate == b.rate
    ensures b.lastRefill <= now ==> Refill(b, now).tokens <= b.tokens + Gain(b, now - b.lastRefill)
  {
    hide Earned;
    if b.lastRefill <= now {
      GainNonNegative(b, now - b.lastRefill);
    }
  }

  /** Tokens stay in [0, burst] through any calls, with any clock. */
  lemma {:induction false} StaysInRange(b: Bucket, calls: seq<Call>)
    requires InRange(b) && NonNegative(calls)
    ensures InRange(After(b, calls)) && After(b, calls).burst == b.burst && After(b, calls).rate == b.rate
    decreases |calls|
  {
    hide Refill;
    if calls != [] {
      RefillGains(b, calls[0].at);
      StaysInRange(Allow(b, calls[0].at, calls[0].tokens), calls[1..]);
    }
  }

  /** Which requests are safe: runs of calls that each ask for `n` tokens keep every bucket in range, exactly
      if n is not negative. */
  lemma InRangeExactlyIf(n: real)
    ensures (forall b, calls :: InRange(b) && AllAsk(calls, n) ==> InRange(After(b, calls))) <==> n >= 0.0
  {
    if n >= 0.0 {
      forall b, calls | InRange(b) && AllAsk(calls, n) ensures InRange(After(b, calls)) {
        StaysInRange(b, calls);
      }
    } else {
      var b, calls := Bucket(0.0, 1.0, 1.0, 0.0), [Call(0.0, n)];
      assert After(b, calls) == Allow(b, 0.0, n);
      assert InRange(b) && AllAsk(calls, n) && !InRange(After(b, calls));
    }
  }

  ghost predicate AllAsk(calls: seq<Call>, n: real) { forall i :: 0 <= i < |calls| ==> calls[i].tokens == n }

  lemma {:induction false} GrantedFrom(b: Bucket, calls: seq<Call>, t: real)
    requires InRange(b) && NonNegative(calls) && Within(calls, b.lastRefill, t) && b.lastRefill <= t
    ensures Granted(b, calls) <= b.tokens + Gain(b, t - b.lastRefill)
    decreases |calls|
  {
    hide Refill, Gain;
    GainNonNegative(b, t - b.lastRefill);
    if calls != [] {
      var at := calls[0].at;
      var next := Allow(b, at, calls[0].tokens);
      RefillGains(b, at);
      RefillSetsTime(b, at);
      GrantedFrom(next, calls[1..], t);
      GainAdds(b, at - b.lastRefill, t - at);
      SameRateSameGain(b, next, t - at);
    }
  }

  lemma RefillSetsTime(b: Bucket, now: real)
    ensures Refill(b, now).lastRefill == now
  {
  }

  lemma SameRateSameGain(b: Bucket, c: Bucket, x: real)
    requires b.rate == c.rate
    ensures Gain(b, x) == Gain(c, x)
  {
  }

  /** After any earlier calls, what is granted in a window from s to t is at most
      burst + max(rate, 0) (t - s) / 1000. */
  lemma WindowBound(b: Bucket, before: seq<Call>, window: seq<Call>, s: real, t: real)
    requires InRange(b) && NonNegative(before) && NonNegative(window) && Within(window, s, t) && s <= t
    ensures Granted(After(b, before), window) <= b.burst + (t - s) * (MaxR(0.0, b.rate) / 1000.0)
  {
    hide Refill, Granted, After;
    StaysInRange(b, before);
    var c := After(b, before);
    WindowFrom(c, window, s, t);
    SameRateSameGain(b, c, t - s);
  }

  lemma WindowFrom(c: Bucket, window: seq<Call>, s: real, t: real)
    requires InRange(c) && NonNegative(window) && Within(window, s, t) && s <= t
    ensures Granted(c, window) <= c.burst + Gain(c, t - s)
  {
    hide Refill, Gain;
    GainNonNegative(c, t - s);
    if window != [] {
      var at := window[0].at;
      var next := Allow(c, at, window[0].tokens);
      RefillGains(c, at);
      RefillSetsTime(c, at);
      GrantedFrom(next, window[1..], t);
      SameRateSameGain(c, next, t - at);
      GainGrows(c, t - at, t - s);
    }
  }

  /** Calls that ask for no more than the burst, and each for no more than was earned since the last. */
  ghost predicate Steady(b: Bucket, calls: seq<Call>)
    decreases |calls|
  {
    calls == [] ||
    (&& b.lastRefill < calls[0].at && calls[0].tokens <= b.burst
     && calls[0].tokens <= (calls[0].at - b.lastRefill) * (b.rate / 1000.0)
     && Steady(Allow(b, calls[0].at, calls[0].tokens), calls[1..]))
  }

  function Total(calls: seq<Call>): real {
    if calls == [] then 0.0 else calls[0].tokens + Total(calls[1..])
  }

  /** The other direction: steady calls within the rate are all granted. */
  lemma {:induction false} SteadyIsGranted(b: Bucket, calls: seq<Call>)
    requires InRange(b) && b.rate > 0.0 && NonNegative(calls) && Steady(b, calls)
    ensures Granted(b, calls) == Total(calls)
    decreases |calls|
  {
    if calls != [] {
      assert calls[0].tokens <= Earned(calls[0].at - b.lastRefill, b.rate);
      hide Earned;
      RefillGains(b, calls[0].at);
      SteadyIsGranted(Allow(b, calls[0].at, calls[0].tokens), calls[1..]);
    }
  }

  /** The law for a limiter as it is made or reset: through any calls its tokens stay in [0, burst], and in
      any window they grant at most burst + max(rate, 0) (t - s) / 1000. */
  lemma LimiterBound(rate: real, burst: real, now: real, before: seq<Call>, window: seq<Call>, s: real, t: real)
    requires NonNegative(before) && NonNegative(window) && Within(window, s, t) && s <= t
    ensures var b := After(Full(rate, burst, now), before);
            && 0.0 <= b.tokens <= MaxR(1.0, burst)
            && Granted(b, window) <= MaxR(1.0, burst) + (t - s) * (MaxR(0.0, rate) / 1000.0)
  {
    hide Refill, Granted, After;
    StaysInRange(Full(rate, burst, now), before);
    WindowBound(Full(rate, burst, now), before, window, s, t);
  }

  // ---------------------------------------------------------------- the exact account

  /** How far the clock has moved forward in all, over calls made in any clock. */
  function Advances(last: real, calls: seq<Call>): real
    decreases |calls|
  {
    if calls == [] then 0.0 else MaxR(0.0, calls[0].at - last) + Advances(calls[0].at, calls[1..])
  }

  lemma {:induction false} AdvancesAppend(last: real, calls: seq<Call>, call: Call)
    ensures Advances(last, calls) >= 0.0
    ensures Advances(last, calls + [call]) >= Advances(last, calls)
    decreases |calls|
  {
    if calls == [] {
      assert (calls + [call])[1..] == [];
    } else {
      assert (calls + [call])[1..] == calls[1..] + [call];
      AdvancesAppend(calls[0].at, calls[1..], call);
    }
  }

  /** A refill below the brim adds what the clock's advance brings, and nothing else. */
  lemma RefillExactly(b: Bucket, now: real)
    requires b.tokens + Gain(b, MaxR(0.0, now - b.lastRefill)) <= b.burst
    ensures Refill(b, now) == b.(lastRefill := now, tokens := b.tokens + Gain(b, MaxR(0.0, now - b.lastRefill)))
  {
    if now - b.lastRefill <= 0.0 || b.rate <= 0.0 {
      assert Gain(b, MaxR(0.0, now - b.lastRefill)) == 0.0;
    }
  }

  lemma {:induction false} AccountOf(b: Bucket, calls: seq<Call>)
    requires InRange(b) && NonNegative(calls) && b.tokens + Gain(b, Advances(b.lastRefill, calls)) <= b.burst
    ensures After(b, calls).tokens == b.tokens + Gain(b, Advances(b.lastRefill, calls)) - Granted(b, calls)
    decreases |calls|
  {
    hide Refill, Gain;
    if calls == [] {
      GainAdds(b, 0.0, 0.0);
    } else {
      var d, rest := MaxR(0.0, calls[0].at - b.lastRefill), Advances(calls[0].at, calls[1..]);
      var next := Allow(b, calls[0].at, calls[0].tokens);
      AdvancesAppend(calls[0].at, calls[1..], calls[0]);
      GainAdds(b, d, rest);
      GainNonNegative(b, d);
      GainNonNegative(b, rest);
      RefillExactly(b, calls[0].at);
      SameRateSameGain(b, next, rest);
      AccountOf(next, calls[1..]);
    }
  }

  /** The account of a bucket that does not reach its brim, in any clock: the tokens left are those there were,
      plus max(rate, 0) / 1000 for each millisecond the clock advanced, minus those granted. The next call is
      granted iff what was granted before it and its own tokens do not exceed what there was and was earned. */
  lemma ExactAccount(b: Bucket, calls: seq<Call>, call: Call)
    requires InRange(b) && NonNegative(calls) && call.tokens >= 0.0
    requires b.tokens + Advances(b.lastRefill, calls + [call]) * (MaxR(0.0, b.rate) / 1000.0) <= b.burst
    ensures After(b, calls).tokens
            == b.tokens + Advances(b.lastRefill, calls) * (MaxR(0.0, b.rate) / 1000.0) - Granted(b, calls)
    ensures Grants(After(b, calls), call.at, call.tokens) <==>
            Granted(b, calls) + call.tokens
            <= b.tokens + Advances(b.lastRefill, calls + [call]) * (MaxR(0.0, b.rate) / 1000.0)
  {
    hide After, Granted, Advances, Grants, InRange, NonNegative;
    assert Gain(b, Advances(b.lastRefill, calls)) == Advances(b.lastRefill, calls) * (MaxR(0.0, b.rate) / 1000.0);
    var all := Advances(b.lastRefill, calls + [call]);
    assert Gain(b, all) == all * (MaxR(0.0, b.rate) / 1000.0);
    AccountInGains(b, calls, call);
  }

  lemma AccountInGains(b: Bucket, calls: seq<Call>, call: Call)
    requires InRange(b) && NonNegative(calls) && call.tokens >= 0.0
    requires b.tokens + Gain(b, Advances(b.lastRefill, calls + [call])) <= b.burst
    ensures After(b, calls).tokens == b.tokens + Gain(b, Advances(b.lastRefill, calls)) - Granted(b, calls)
    ensures Grants(After(b, calls), call.at, call.tokens) <==>
            Granted(b, calls) + call.tokens <= b.tokens + Gain(b, Advances(b.lastRefill, calls + [call]))
  {
    hide Gain, Refill, Advances, Granted, After;
    AdvancesAppend(b.lastRefill, calls, call);
    GainGrows(b, Advances(b.lastRefill, calls), Advances(b.lastRefill, calls + [call]));
    AccountOf(b, calls);
    NextRefill(b, calls, call);
  }

  /** One more call. */
  lemma {:induction false} AppendCall(b: Bucket, calls: seq<Call>, call: Call)
    ensures var n := After(b, calls);
            && After(b, calls + [call]) == Allow(n, call.at, call.tokens)
            && Granted(b, calls + [call]) ==
               Granted(b, calls) + if Grants(n, call.at, call.tokens) then call.tokens else 0.0
    decreases |calls|
  {
    hide Refill;
    if calls == [] {
      assert (calls + [call])[1..] == [];
    } else {
      assert (calls + [call])[1..] == calls[1..] + [call];
      AppendCall(Allow(b, calls[0].at, calls[0].tokens), calls[1..], call);
    }
  }

  /** A refusal takes nothing, so what a call finds is what there was and was earned, less what was granted. */
  lemma NextRefill(b: Bucket, calls: seq<Call>, call: Call)
    requires InRange(b) && NonNegative(calls) && call.tokens >= 0.0
    requires b.tokens + Gain(b, Advances(b.lastRefill, calls + [call])) <= b.burst
    ensures Refill(After(b, calls), call.at).tokens
            == b.tokens + Gain(b, Advances(b.lastRefill, calls + [call])) - Granted(b, calls)
  {
    hide Gain, Refill;
    var n := After(b, calls);
    var free := Call(call.at, 0.0);
    assert Advances(b.lastRefill, calls + [free]) == Advances(b.lastRefill, calls + [call]) by {
      AdvancesByTime(b.lastRefill, calls, call, free);
    }
    AccountOf(b, calls + [free]);
    AppendCall(b, calls, free);
    StaysInRange(b, calls);
    RefillGains(n, call.at);
  }

  lemma {:induction false} AdvancesByTime(last: real, calls: seq<Call>, x: Call, y: Call)
    requires x.at == y.at
    ensures Advances(last, calls + [x]) == Advances(last, calls + [y])
    decreases |calls|
  {
    if calls == [] {
      assert (calls + [x])[1..] == [] && (calls + [y])[1..] == [];
    } else {
      assert (calls + [x])[1..] == calls[1..] + [x] && (calls + [y])[1..] == calls[1..] + [y];
      AdvancesByTime(calls[0].at, calls[1..], x, y);
    }
  }

  function Ones(n: nat, now: real): (calls: seq<Call>)
    ensures |calls| == n && forall i :: 0 <= i < n ==> calls[i] == Call(now, 1.0)
  {
    if n == 0 then [] else [Call(now, 1.0)] + Ones(n - 1, now)
  }

  lemma {:induction false} OnesGranted(b: Bucket, n: nat)
    requires InRange(b)
    ensures n as real <= b.tokens ==> Granted(b, Ones(n, b.lastRefill)) == n as real
    ensures Granted(b, Ones(n, b.lastRefill)) <= b.tokens
    decreases n
  {
    if n > 0 {
      var next := Allow(b, b.lastRefill, 1.0);
      assert Ones(n, b.lastRefill)[1..] == Ones(n - 1, b.lastRefill);
      OnesGranted(next, n - 1);
    }
  }

  /** A new limiter grants its whole burst at once, and not one token more. */
  lemma WholeBurstAtOnce(rate: real, burst: real, now: real, n: nat)
    ensures Granted(Full(rate, burst, now), Ones(n, now)) == n as real <==>
            n as real <= if burst < 1.0 then 1.0 else burst
  {
    OnesGranted(Full(rate, burst, now), n);
  }

  // ---------------------------------------------------------------- the pool

  /** A call on the pool is two critical sections: find or create the key's bucket, then take from it. */
  datatype Step = Find(key: string, now: real) | Take(key: string, now: real)

  predicate Enabled(pool: map<string, Bucket>, step: Step) { step.Take? ==> step.key in pool }

  function Next(rate: real, pool: map<string, Bucket>, step: Step): map<string, Bucket>
    requires Enabled(pool, step)
  {
    match step
    case Find(key, now) => if key in pool then pool else pool[key := Full(rate, rate, now)]
    case Take(key, now) => pool[key := Allow(pool[key], now, 1.0)]
  }

  ghost predicate IsRun(rate: real, pool: map<string, Bucket>, steps: seq<Step>)
    decreases |steps|
  {
    steps == [] || (Enabled(pool, steps[0]) && IsRun(rate, Next(rate, pool, steps[0]), steps[1..]))
  }

  /** The verdicts that calls for `key` get, whatever else goes on. */
  ghost function Verdicts(rate: real, pool: map<string, Bucket>, steps: seq<Step>, key: string): seq<bool>
    requires IsRun(rate, pool, steps)
    decreases |steps|
  {
    if steps == [] then []
    else
      var rest := Verdicts(rate, Next(rate, pool, steps[0]), steps[1..], key);
      if steps[0].Take? && steps[0].key == key then [Grants(pool[key], steps[0].now, 1.0)] + rest else rest
  }

  /** When `key` was asked for. */
  function TimesOf(steps: seq<Step>, key: string): seq<real> {
    if steps == [] then []
    else if steps[0].Take? && steps[0].key == key then [steps[0].now] + TimesOf(steps[1..], key)
    else TimesOf(steps[1..], key)
  }

  /** A bucket on its own. */
  function Alone(b: Bucket, times: seq<real>): seq<bool>
    decreases |times|
  {
    if times == [] then [] else [Grants(b, times[0], 1.0)] + Alone(Allow(b, times[0], 1.0), times[1..])
  }

  /** Buckets that cannot be told apart: equal, or both full, when the last refill does not matter. */
  predicate Alike(a: Bucket, b: Bucket) {
    a == b || (a.rate == b.rate && a.burst == b.burst && a.tokens == a.burst && b.tokens == b.burst)
  }

  lemma AlikeRefillSame(a: Bucket, b: Bucket, now: real)
    requires Alike(a, b)
    ensures Refill(a, now) == Refill(b, now)
  {
    FullStaysFull(a, now);
    FullStaysFull(b, now);
  }

  lemma FullStaysFull(b: Bucket, now: real)
    ensures b.tokens == b.burst ==> Refill(b, now) == b.(lastRefill := now)
  {
    hide Earned;
    if now - b.lastRefill > 0.0 && b.rate > 0.0 {
      GainNonNegative(b, now - b.lastRefill);
    }
  }

  lemma {:induction false} RunAlike(rate: real, pool: map<string, Bucket>, steps: seq<Step>, key: string, b: Bucket)
    requires IsRun(rate, pool, steps)
    requires if key in pool then Alike(pool[key], b) else Alike(Full(rate, rate, 0.0), b)
    ensures Verdicts(rate, pool, steps, key) == Alone(b, TimesOf(steps, key))
    decreases |steps|
  {
    hide Refill;
    if steps != [] {
      var step := steps[0];
      if step.Take? && step.key == key {
        AlikeRefillSame(pool[key], b, step.now);
        RunAlike(rate, Next(rate, pool, step), steps[1..], key, Allow(b, step.now, 1.0));
        assert ([step.now] + TimesOf(steps[1..], key))[1..] == TimesOf(steps[1..], key);
      } else {
        RunAlike(rate, Next(rate, pool, step), steps[1..], key, b);
      }
    }
  }

  /** In every interleaving each key is treated as by a bucket of its own that sees only that key's calls,
      whenever that bucket was made. */
  lemma Isolation(rate: real, steps: seq<Step>, key: string, born: real)
    requires IsRun(rate, map[], steps)
    ensures Verdicts(rate, map[], steps, key) == Alone(Full(rate, rate, born), TimesOf(steps, key))
  {
    RunAlike(rate, map[], steps, key, Full(rate, rate, born));
  }

  // ---------------------------------------------------------------- the service

  /** What the limiters of a pool hold. */
  ghost function Values(pool: map<string, TokenBucketRateLimiter>): map<string, Bucket>
    reads pool.Values
  {
    map key | key in pool :: pool[key].Value()
  }

  /** No two keys share a limiter. */
  ghost predicate Separate(pool: map<string, TokenBucketRateLimiter>) {
    forall k, l :: k in pool && l in pool && k != l ==> pool[k] != pool[l]
  }

  class OverloadProtectService {
    var maxConnections: nat
    var currentConnections: nat
    var rateLimitEnabled: bool
    var ipConnectRate: real
    var userSendRate: real
    var ipLimiters: map<string, TokenBucketRateLimiter>
    var userLimiters: map<string, TokenBucketRateLimiter>

    ghost predicate Valid()
      reads this
    {
      Separate(ipLimiters) && Separate(userLimiters) && ipLimiters.Values !! userLimiters.Values
    }

    constructor (maxConnections: nat, ipRate: real, userRate: real)
      ensures Valid()
      ensures this.maxConnections == maxConnections && currentConnections == 0 && !rateLimitEnabled
      ensures ipConnectRate == ipRate && userSendRate == userRate && ipLimiters == userLimiters == map[]
    {
      this.maxConnections, currentConnections, rateLimitEnabled := maxConnections, 0, false;
      ipConnectRate, userSendRate, ipLimiters, userLimiters := ipRate, userRate, map[], map[];
    }

    /** Finds the key's limiter or makes a full one; the other limiters stay the objects they are. */
    static method GetOrCreateLimiter(pool: map<string, TokenBucketRateLimiter>, key: string, rate: real, now: real)
      returns (grown: map<string, TokenBucketRateLimiter>, limiter: TokenBucketRateLimiter)
      requires Separate(pool)
      ensures key in grown && limiter == grown[key] && Separate(grown)
      ensures grown == pool[key := limiter] && (if key in pool then limiter == pool[key] else fresh(limiter))
      ensures Values(grown) == Next(rate, Values(pool), Find(key, now))
    {
      grown := pool;
      if key in pool {
        limiter := pool[key];
        return;
      }
      limiter := new TokenBucketRateLimiter(rate, rate, now);
      grown := pool[key := limiter];
    }

    /** One call: find the limiter, then take from it. Only this key's limiter changes. */
    static method Charge(pool: map<string, TokenBucketRateLimiter>, key: string, rate: real, found: real, now: real)
      returns (grown: map<string, TokenBucketRateLimiter>, ok: bool)
      requires Separate(pool)
      modifies if key in pool then {pool[key]} else {}
      ensures Separate(grown) && key in grown && grown == pool[key := grown[key]]
      ensures if key in pool then grown == pool else fresh(grown[key])
      ensures var run := [Find(key, found), Take(key, now)];
              && IsRun(rate, old(Values(pool)), run)
              && Verdicts(rate, old(Values(pool)), run, key) == [ok]
              && Values(grown) == Next(rate, Next(rate, old(Values(pool)), run[0]), run[1])
    {
      hide Allow, Grants, Verdicts, IsRun;
      var limiter: TokenBucketRateLimiter;
      grown, limiter := GetOrCreateLimiter(pool, key, rate, found);
      ghost var middle := Values(grown);
      ok := limiter.Take(1.0, now);
      assert Values(grown) == middle[key := limiter.Value()];
      TwoSteps(rate, old(Values(pool)), key, found, now);
    }

    /** Unlimited users pass and leave the limiters alone; any other call is a find and a take for its key. */
    method CanSendMessage(userId: string, found: real, now: real) returns (ok: bool)
      requires Valid()
      modifies this`userLimiters, if userId in userLimiters then {userLimiters[userId]} else {}
      ensures Valid() && Values(ipLimiters) == old(Values(ipLimiters))
      ensures !rateLimitEnabled || userSendRate <= 0.0 || userId == "" ==>
                ok && Values(userLimiters) == old(Values(userLimiters))
      ensures rateLimitEnabled && userSendRate > 0.0 && userId != "" ==>
                var run := [Find(userId, found), Take(userId, now)];
                && IsRun(userSendRate, old(Values(userLimiters)), run)
                && Verdicts(userSendRate, old(Values(userLimiters)), run, userId) == [ok]
                && Values(userLimiters)
                   == Next(userSendRate, Next(userSendRate, old(Values(userLimiters)), run[0]), run[1])
    {
      if !rateLimitEnabled || userSendRate <= 0.0 || userId == "" {
        return true;
      }
      userLimiters, ok := Charge(userLimiters, userId, userSendRate, found, now);
    }

    /** The same for addresses, after the limit on connections. */
    method CanAcceptConnection(ip: string, found: real, now: real) returns (ok: bool)
      requires Valid()
      modifies this`ipLimiters, if ip in ipLimiters then {ipLimiters[ip]} else {}
      ensures Valid() && Values(userLimiters) == old(Values(userLimiters))
      ensures currentConnections >= maxConnections ==> !ok && Values(ipLimiters) == old(Values(ipLimiters))
      ensures currentConnections < maxConnections && (!rateLimitEnabled || ipConnectRate <= 0.0 || ip == "") ==>
                ok && Values(ipLimiters) == old(Values(ipLimiters))
      ensures currentConnections < maxConnections && rateLimitEnabled && ipConnectRate > 0.0 && ip != "" ==>
                var run := [Find(ip, found), Take(ip, now)];
                && IsRun(ipConnectRate, old(Values(ipLimiters)), run)
                && Verdicts(ipConnectRate, old(Values(ipLimiters)), run, ip) == [ok]
                && Values(ipLimiters)
                   == Next(ipConnectRate, Next(ipConnectRate, old(Values(ipLimiters)), run[0]), run[1])
    {
      if currentConnections >= maxConnections {
        return false;
      }
      if !rateLimitEnabled || ipConnectRate <= 0.0 || ip == "" {
        return true;
      }
      ipLimiters, ok := Charge(ipLimiters, ip, ipConnectRate, found, now);
    }
  }

  lemma TwoSteps(rate: real, pool: map<string, Bucket>, key: string, found: real, now: real)
    ensures var run, middle := [Find(key, found), Take(key, now)], Next(rate, pool, Find(key, found));
            && IsRun(rate, pool, run)
            && Verdicts(rate, pool, run, key) == [Grants(middle[key], now, 1.0)]
  {
    var run, middle := [Find(key, found), Take(key, now)], Next(rate, pool, Find(key, found));
    var last := Next(rate, middle, Take(key, now));
    assert run[1..] == [Take(key, now)] && [Take(key, now)][1..] == [];
    assert IsRun(rate, last, []) && Verdicts(rate, last, [], key) == [];
    assert IsRun(rate, middle, [Take(key, now)]);
    assert Verdicts(rate, middle, [Take(key, now)], key) == [Grants(middle[key], now, 1.0)] + [];
  }
}
