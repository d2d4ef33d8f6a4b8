/**
 The token bucket of the rate limiter: the Lua script over one hash per key, and its bounds over whole
 request sequences.
 */
module TokenBucket {
  import opened Wrappers
  import opened Keys

  /** refillToken tokens arrive every refill seconds, up to capacity. */
  datatype Params = Params(capacity: int, refillToken: int, refill: real)

  const SHIPPED := Params(60, 10, 30.0)

  predicate Positive(p: Params) { p.capacity > 0 && p.refillToken > 0 && p.refill > 0.0 }

  datatype Bucket = Bucket(ts: int, tokens: int)

  /** A stored hash and the millisecond at which it expires. */
  datatype Entry<B> = Entry(bucket: B, expireAt: int)

  /** How many whole refill periods fit into d seconds. */
  function Periods(p: Params, d: int): int
    requires Positive(p)
  {
    (d as real / p.refill).Floor
  }

  function Min(a: int, b: int): int { if a < b then a else b }

  function Refilled(p: Params, b: Option<Bucket>, ts: int): int
    requires Positive(p)
  {
    if b.None? then p.capacity else Min(p.capacity, b.value.tokens + Periods(p, ts - b.value.ts) * p.refillToken)
  }

  /** One request takes a token, and may go one below zero. */
  function Take(tokens: int): int { if tokens >= 0 then tokens - 1 else tokens }

  function Request(p: Params, b: Option<Bucket>, ts: int): Bucket
    requires Positive(p)
  {
    Bucket(ts, Take(Refilled(p, b, ts)))
  }

  /** ceil(capacity / refill) seconds, in milliseconds. */
  function Lifetime(p: Params): int
    requires Positive(p)
  {
    1000 * -((-(p.capacity as real / p.refill)).Floor)
  }

  function Live<B>(e: Option<Entry<B>>, now: int): Option<B> {
    if e.Some? && now < e.value.expireAt then Some(e.value.bucket) else None
  }

  /** Unix time in whole seconds. */
  function Seconds(ms: int): (s: int)
    ensures 1000 * s <= ms < 1000 * (s + 1)
  {
    ms / 1000
  }

  lemma FloorIs(q: real, n: int)
    ensures q.Floor == n <==> n as real <= q < n as real + 1.0
  {
  }

  lemma Scaled(a: real, q: real, r: real, d: real)
    requires r > 0.0 && q * r == d
    ensures a <= q <==> a * r <= d
  {
    assert q * r - a * r == (q - a) * r;
  }

  lemma Fits(q: real, d: real, r: real, n: int)
    requires r > 0.0 && q * r == d
    ensures q.Floor == n <==> n as real * r <= d < (n as real + 1.0) * r
  {
    FloorIs(q, n);
    Scaled(n as real, q, r, d);
    var m := n as real + 1.0;
    Scaled(m, q, r, d);
    assert (q < m) == (d < m * r);
    assert (n as real <= q) == (n as real * r <= d);
  }

  /** n periods fit exactly if n are no longer than d and one more is. */
  lemma PeriodsMeaning(p: Params, d: int, n: int)
    requires Positive(p)
    ensures Periods(p, d) == n <==> n as real * p.refill <= d as real < (n as real + 1.0) * p.refill
  {
    var q := d as real / p.refill;
    assert q * p.refill == d as real;
    Fits(q, d as real, p.refill, n);
  }

  /** The key lives for the fewest seconds of which a refill period each adds up to the capacity. */
  lemma LifetimeMeaning(p: Params, seconds: int)
    requires Positive(p)
    ensures Lifetime(p) == 1000 * seconds <==>
      (seconds as real - 1.0) * p.refill < p.capacity as real <= seconds as real * p.refill
  {
    var c, r := p.capacity as real, p.refill;
    Negated(c, r);
    Fits(-(c / r), -c, r, -seconds);
    assert (-seconds) as real == -(seconds as real);
    assert (-(seconds as real)) * r == -(seconds as real * r);
    assert (-(seconds as real) + 1.0) * r == -((seconds as real - 1.0) * r);
  }

  lemma Negated(c: real, r: real)
    requires r > 0.0
    ensures -(c / r) * r == -c
  {
    assert c / r * r == c;
  }

  // ---------- the script ----------

  class Limiter {
    const params: Params
    var hashes: map<Key, Entry<Bucket>>

    constructor (p: Params)
      ensures params == p && hashes == map[]
    {
      params, hashes := p, map[];
    }

    function Lookup(key: Key): Option<Entry<Bucket>>
      reads this
    {
      if key in hashes then Some(hashes[key]) else None
    }

    /** rateScript, run by Redis in one step at millisecond now. */
    method RunScript(key: Key, now: int) returns (remain: int)
      requires Positive(params)
      modifies this
      ensures var b := Request(params, Live(old(Lookup(key)), now), Seconds(now));
        && hashes == old(hashes)[key := Entry(b, now + Lifetime(params))]
        && remain == b.tokens
    {
      var ts := Seconds(now);
      var remainToken := params.capacity;
      if key in hashes && now < hashes[key].expireAt {
        var last := hashes[key].bucket;
        var refillCount := ((ts - last.ts) as real / params.refill).Floor;
        remainToken := Min(params.capacity, last.tokens + refillCount * params.refillToken);
      }
      if remainToken >= 0 {
        remainToken := remainToken - 1;
      }
      hashes := hashes[key := Entry(Bucket(ts, remainToken), now + Lifetime(params))];
      return remainToken;
    }

    /** The verdict, and the tokens left: the full capacity where the request is refused. */
    method AcquireBucket(ip: string, now: int) returns (ok: bool, remain: int)
      requires Positive(params)
      modifies this
      ensures var key := Limit(RateBucket, ip);
        var b := Request(params, Live(old(Lookup(key)), now), Seconds(now));
        && hashes == old(hashes)[key := Entry(b, now + Lifetime(params))]
        && ok == (b.tokens >= 0) && remain == (if ok then b.tokens else params.capacity)
    {
      var r := RunScript(Limit(RateBucket, ip), now);
      if r < 0 {
        return false, params.capacity;
      }
      return true, r;
    }
  }

  // ---------- the requests of one client, with expiry ----------

  ghost predicate Rising(ms: seq<int>) {
    forall i, j :: 0 <= i <= j < |ms| ==> ms[i] <= ms[j]
  }

  /** The stored entry after requests at these milliseconds. */
  function Stored(p: Params, ms: seq<int>): Option<Entry<Bucket>>
    requires Positive(p)
  {
    if ms == [] then None
    else
      var now := ms[|ms| - 1];
      Some(Entry(Request(p, Live(Stored(p, ms[..|ms| - 1]), now), Seconds(now)), now + Lifetime(p)))
  }

  function Tokens(p: Params, ms: seq<int>): int
    requires Positive(p) && ms != []
  {
    Stored(p, ms).value.bucket.tokens
  }

  function Permits(p: Params, ms: seq<int>): nat
    requires Positive(p)
  {
    if ms == [] then 0 else Permits(p, ms[..|ms| - 1]) + (if Tokens(p, ms) >= 0 then 1 else 0)
  }

  /** Requests up to and with the last one, counted from the last pause of that many milliseconds or more. */
  function Burst(ms: seq<int>, pause: int): nat {
    if ms == [] then 0
    else if |ms| == 1 || ms[|ms| - 1] - ms[|ms| - 2] >= pause then 1
    else 1 + Burst(ms[..|ms| - 1], pause)
  }

  /** How many such bursts there are: one for every life of the key, if the pause is its lifetime. */
  function Bursts(ms: seq<int>, pause: int): nat {
    if ms == [] then 0
    else Bursts(ms[..|ms| - 1], pause) + (if |ms| == 1 || ms[|ms| - 1] - ms[|ms| - 2] >= pause then 1 else 0)
  }

  /** The last request finds the hash of the one before it unless the pause outlived the key. */
  lemma Found(p: Params, ms: seq<int>)
    requires Positive(p) && |ms| >= 2
    ensures var n := |ms| - 1;
      var before := Stored(p, ms[..n]).value;
      && before.bucket.ts == Seconds(ms[n - 1])
      && Live(Some(before), ms[n]) == (if ms[n] - ms[n - 1] < Lifetime(p) then Some(before.bucket) else None)
      && Stored(p, ms).value.bucket == Request(p, Live(Some(before), ms[n]), Seconds(ms[n]))
  {
    var n := |ms| - 1;
    assert ms[..n][n - 1] == ms[n - 1];
    hide Lifetime, Seconds, Refilled;
  }

  /** Only the requests since the last pause that outlived the key matter. */
  lemma {:induction false} LifeOfKey(p: Params, ms: seq<int>)
    requires Positive(p)
    ensures Burst(ms, Lifetime(p)) <= |ms|
    ensures Stored(p, ms) == Stored(p, ms[|ms| - Burst(ms, Lifetime(p))..])
  {
    hide Lifetime, Seconds, Request;
    var n := |ms| - 1;
    if |ms| >= 2 {
      var k := |ms| - Burst(ms, Lifetime(p));
      if ms[n] - ms[n - 1] >= Lifetime(p) {
        assert ms[k..] == [ms[n]] && [ms[n]][..0] == [];
        Found(p, ms);
      } else {
        LifeOfKey(p, ms[..n]);
        assert ms[..n][n - 1] == ms[n - 1];
        assert ms[k..][..|ms[k..]| - 1] == ms[..n][k..];
      }
    } else if |ms| == 1 {
      assert ms[0..] == ms;
    }
  }

  /** The whole refill periods in each pause that the key outlived, added up. */
  function PeriodsInGaps(p: Params, ms: seq<int>): int
    requires Positive(p)
  {
    if |ms| < 2 then 0
    else
      var last, previous := ms[|ms| - 1], ms[|ms| - 2];
      PeriodsInGaps(p, ms[..|ms| - 1]) +
      (if last - previous < Lifetime(p) then Periods(p, Seconds(last) - Seconds(previous)) else 0)
  }

  lemma PeriodsAdd(p: Params, a: int, b: int)
    requires Positive(p)
    ensures Periods(p, a) + Periods(p, b) <= Periods(p, a + b)
    ensures Periods(p, 0) == 0
    ensures a >= 0 ==> Periods(p, a) >= 0
  {
    var x, y := a as real / p.refill, b as real / p.refill;
    assert (a + b) as real / p.refill == x + y;
    assert x.Floor as real <= x && y.Floor as real <= y;
    if a >= 0 {
      assert x >= 0.0;
    }
  }

  lemma TimesMonotone(a: int, b: int, c: int)
    requires a > 0 && b <= c
    ensures a * b <= a * c
  {
  }

  /** What so many lives of the key and so many refill periods bring at most. */
  function Budget(p: Params, lives: int, periods: int): int { p.capacity * lives + p.refillToken * periods }

  lemma BudgetGrows(p: Params, lives: int, periods: int, more: int)
    ensures Budget(p, lives + 1, periods) == Budget(p, lives, periods) + p.capacity
    ensures Budget(p, lives, periods + more) == Budget(p, lives, periods) + p.refillToken * more
  {
    assert p.refillToken * (periods + more) == p.refillToken * periods + p.refillToken * more;
  }

  /** What a bucket can bring to one request: its tokens, and refillToken for every whole period. */
  lemma OneTake(p: Params, b: Bucket, ts: int)
    requires Positive(p) && -1 <= b.tokens < p.capacity && b.ts <= ts
    ensures var t := Request(p, Some(b), ts).tokens;
      && -1 <= t < p.capacity
      && (if t >= 0 then t + 1 else 0) <= (if b.tokens < 0 then 0 else b.tokens) +
           p.refillToken * Periods(p, ts - b.ts)
  {
    PeriodsAdd(p, ts - b.ts, 0);
    TimesMonotone(p.refillToken, 0, Periods(p, ts - b.ts));
  }

  lemma {:induction false} TokenBound(p: Params, ms: seq<int>)
    requires Positive(p) && Rising(ms) && ms != []
    ensures -1 <= Tokens(p, ms) < p.capacity
    ensures Permits(p, ms) + (if Tokens(p, ms) < 0 then 0 else Tokens(p, ms)) <=
      Budget(p, Bursts(ms, Lifetime(p)), PeriodsInGaps(p, ms))
  {
    var n := |ms| - 1;
    if n == 0 {
      OnlyRequest(p, ms);
    } else {
      TokenBound(p, ms[..n]);
      Found(p, ms);
      assert ms[..n][n - 1] == ms[n - 1];
      var gap := Seconds(ms[n]) - Seconds(ms[n - 1]);
      var lives, periods := Bursts(ms[..n], Lifetime(p)), PeriodsInGaps(p, ms[..n]);
      BudgetGrows(p, lives, periods, Periods(p, gap));
      hide Request, Refilled, Take, Periods, Lifetime, Stored, Seconds, Budget;
      if ms[n] - ms[n - 1] < Lifetime(p) {
        OneTake(p, Stored(p, ms[..n]).value.bucket, Seconds(ms[n]));
      } else {
        FirstRequest(p, Seconds(ms[n]));
      }
    }
  }

  lemma {:induction false} GapsInSpan(p: Params, ms: seq<int>)
    requires Positive(p) && Rising(ms) && ms != []
    ensures PeriodsInGaps(p, ms) <= Periods(p, Seconds(ms[|ms| - 1]) - Seconds(ms[0]))
  {
    var n := |ms| - 1;
    PeriodsAdd(p, 0, 0);
    if n > 0 {
      GapsInSpan(p, ms[..n]);
      PeriodsAdd(p, Seconds(ms[n]) - Seconds(ms[n - 1]), Seconds(ms[n - 1]) - Seconds(ms[0]));
    }
  }

  /**
   With a clock that does not run backwards, permits stay within one capacity for every time the key is
   created and what whole refill periods since the first request bring; stored tokens stay at -1 or above.
   */
  lemma PermitBound(p: Params, ms: seq<int>)
    requires Positive(p) && Rising(ms) && ms != []
    ensures Permits(p, ms) <=
      Budget(p, Bursts(ms, Lifetime(p)), Periods(p, Seconds(ms[|ms| - 1]) - Seconds(ms[0])))
    ensures Tokens(p, ms) >= -1
  {
    TokenBound(p, ms);
    GapsInSpan(p, ms);
    TimesMonotone(p.refillToken, PeriodsInGaps(p, ms), Periods(p, Seconds(ms[|ms| - 1]) - Seconds(ms[0])));
  }

  // ---------- which pauses refill ----------

  lemma NoPeriod(p: Params, d: int)
    requires Positive(p) && 0 <= d
    ensures Periods(p, d) == 0 <==> d as real < p.refill
    ensures Periods(p, d) >= 0
  {
    var x := d as real / p.refill;
    assert x >= 0.0;
    if d as real >= p.refill {
      assert x >= 1.0;
    }
  }

  lemma FirstRequest(p: Params, ts: int)
    requires Positive(p)
    ensures Request(p, None, ts) == Bucket(ts, p.capacity - 1)
  {
  }

  /** The tokens that the last request finds, before it takes one. */
  function TokensFound(p: Params, ms: seq<int>): int
    requires Positive(p) && ms != []
  {
    var n := |ms| - 1;
    Refilled(p, Live(Stored(p, ms[..n]), ms[n]), Seconds(ms[n]))
  }

  /** The pause before the i-th request lasts at least as long as the key lives. */
  predicate Outlived(p: Params, ms: seq<int>, i: nat)
    requires Positive(p) && 0 < i < |ms|
  {
    ms[i] - ms[i - 1] >= Lifetime(p)
  }

  /** It reaches a refill period, in the whole seconds that the script sees. */
  predicate HoldsPeriod(p: Params, ms: seq<int>, i: nat)
    requires 0 < i < |ms|
  {
    (Seconds(ms[i]) - Seconds(ms[i - 1])) as real >= p.refill
  }

  /** A pause refills exactly when it outlives the key, and then all of it, or holds a refill period. */
  lemma WhenRefilled(p: Params, ms: seq<int>)
    requires Positive(p) && Rising(ms) && |ms| >= 2
    ensures var n := |ms| - 1;
      var before, found := Tokens(p, ms[..n]), TokensFound(p, ms);
      && Tokens(p, ms) == Take(found)
      && before <= found <= p.capacity
      && (found > before <==> Outlived(p, ms, n) || HoldsPeriod(p, ms, n))
      && (Outlived(p, ms, n) ==> found == p.capacity)
  {
    var n := |ms| - 1;
    var gap := Seconds(ms[n]) - Seconds(ms[n - 1]);
    Found(p, ms);
    TokenBound(p, ms[..n]);
    NoPeriod(p, gap);
    Filled(p, Tokens(p, ms[..n]), Periods(p, gap));
    hide Periods, Lifetime, Stored, Seconds, Min;
  }

  lemma Filled(p: Params, before: int, periods: int)
    requires Positive(p) && before < p.capacity && periods >= 0
    ensures before <= Min(p.capacity, before + periods * p.refillToken) <= p.capacity
    ensures Min(p.capacity, before + periods * p.refillToken) > before <==> periods > 0
  {
    if periods > 0 {
      TimesMonotone(p.refillToken, 1, periods);
    }
  }

  /** How much comes in: refillToken for every whole period in the pause, up to the capacity. */
  lemma RefillAmount(p: Params, ms: seq<int>, n: int)
    requires Positive(p) && |ms| >= 2 && !Outlived(p, ms, |ms| - 1)
    requires var pause := (Seconds(ms[|ms| - 1]) - Seconds(ms[|ms| - 2])) as real;
      n as real * p.refill <= pause < (n as real + 1.0) * p.refill
    ensures var filled := Tokens(p, ms[..|ms| - 1]) + n * p.refillToken;
      TokensFound(p, ms) == if filled < p.capacity then filled else p.capacity
  {
    Found(p, ms);
    PeriodsMeaning(p, Seconds(ms[|ms| - 1]) - Seconds(ms[|ms| - 2]), n);
    hide Periods, Lifetime, Stored, Seconds;
  }

  /** The i-th request finds more tokens than the one before it left. */
  predicate Gains(p: Params, ms: seq<int>, i: nat)
    requires Positive(p) && 0 < i < |ms|
  {
    TokensFound(p, ms[..i + 1]) > Tokens(p, ms[..i])
  }

  lemma GainsWhen(p: Params, ms: seq<int>, i: nat)
    requires Positive(p) && Rising(ms) && 0 < i < |ms|
    ensures Gains(p, ms, i) <==> Outlived(p, ms, i) || HoldsPeriod(p, ms, i)
  {
    var some := ms[..i + 1];
    assert some[..i] == ms[..i];
    SamePause(p, ms, i + 1, i);
    hide Tokens, TokensFound, Stored, Lifetime, Seconds;
    WhenRefilled(p, some);
  }

  /** Exactly the clients that never pause for so long are never refilled. */
  lemma NeverRefilled(p: Params, ms: seq<int>)
    requires Positive(p) && Rising(ms)
    ensures (forall i :: 0 < i < |ms| ==> !Gains(p, ms, i)) <==>
      (forall i :: 0 < i < |ms| ==> !Outlived(p, ms, i) && !HoldsPeriod(p, ms, i))
  {
    hide Gains, Outlived, HoldsPeriod;
    forall i | 0 < i < |ms| ensures Gains(p, ms, i) <==> Outlived(p, ms, i) || HoldsPeriod(p, ms, i) {
      GainsWhen(p, ms, i);
    }
  }

  /**
   The stored time is that of the last request, not of the last refill: a client none of whose pauses holds
   a whole refill period, except those that outlive the key, gets the first capacity requests of every life
   of the key and no more, however long that life goes on.
   */
  lemma {:induction false} SteadyClient(p: Params, ms: seq<int>)
    requires Positive(p) && Rising(ms) && ms != []
    requires forall i :: 0 < i < |ms| ==> Outlived(p, ms, i) || !HoldsPeriod(p, ms, i)
    ensures var served := Burst(ms, Lifetime(p));
      Tokens(p, ms) == if served <= p.capacity then p.capacity - served else -1
  {
    var n := |ms| - 1;
    if n == 0 {
      OnlyRequest(p, ms);
    } else {
      hide Tokens, Lifetime, Burst, Outlived, HoldsPeriod;
      forall i | 0 < i < n ensures Outlived(p, ms[..n], i) || !HoldsPeriod(p, ms[..n], i) {
        SamePause(p, ms, n, i);
      }
      SteadyClient(p, ms[..n]);
      SteadyStep(p, ms);
    }
  }

  lemma OnlyRequest(p: Params, ms: seq<int>)
    requires Positive(p) && |ms| == 1
    ensures Tokens(p, ms) == p.capacity - 1 && Burst(ms, Lifetime(p)) == 1
  {
    FirstRequest(p, Seconds(ms[0]));
    assert ms[..|ms| - 1] == [];
    assert Stored(p, ms) == Some(Entry(Request(p, None, Seconds(ms[0])), ms[0] + Lifetime(p)));
  }

  lemma SamePause(p: Params, ms: seq<int>, n: nat, i: nat)
    requires Positive(p) && 0 < i < n <= |ms|
    ensures Outlived(p, ms[..n], i) == Outlived(p, ms, i) && HoldsPeriod(p, ms[..n], i) == HoldsPeriod(p, ms, i)
  {
    assert ms[..n][i] == ms[i] && ms[..n][i - 1] == ms[i - 1];
  }

  lemma SteadyStep(p: Params, ms: seq<int>)
    requires Positive(p) && Rising(ms) && |ms| >= 2
    requires Outlived(p, ms, |ms| - 1) || !HoldsPeriod(p, ms, |ms| - 1)
    requires var served := Burst(ms[..|ms| - 1], Lifetime(p));
      Tokens(p, ms[..|ms| - 1]) == if served <= p.capacity then p.capacity - served else -1
    ensures var served := Burst(ms, Lifetime(p));
      Tokens(p, ms) == if served <= p.capacity then p.capacity - served else -1
  {
    WhenRefilled(p, ms);
    hide Lifetime, Seconds, Tokens, TokensFound;
  }

  // ---------- the shipped constants ----------

  lemma ShippedLifetime()
    ensures Lifetime(SHIPPED) == 2000
  {
  }

  /**
   With the shipped constants the bucket never refills by periods at all: a request is permitted exactly
   when it is among the first 60 since the last pause of two seconds.
   */
  lemma {:induction false} ShippedExact(ms: seq<int>)
    requires Rising(ms) && ms != []
    ensures Stored(SHIPPED, ms).value.bucket.ts == Seconds(ms[|ms| - 1])
    ensures Stored(SHIPPED, ms).value.expireAt == ms[|ms| - 1] + 2000
    ensures Tokens(SHIPPED, ms) == (if Burst(ms, 2000) <= 60 then 60 - Burst(ms, 2000) else -1)
  {
    ShippedLifetime();
    SteadyClient(SHIPPED, ms);
  }

  lemma RisingPrefix(ms: seq<int>, n: nat)
    requires Rising(ms) && n <= |ms|
    ensures Rising(ms[..n])
  {
  }

  /** The limiter in use: a client of the shipped bucket is served exactly the first 60 of each burst. */
  method ServeClient(l: Limiter, ip: string, ms: seq<int>) returns (oks: seq<bool>)
    requires l.params == SHIPPED && Limit(RateBucket, ip) !in l.hashes && Rising(ms)
    modifies l
    ensures |oks| == |ms|
    ensures forall i :: 0 <= i < |ms| ==> oks[i] == (Burst(ms[..i + 1], 2000) <= 60)
  {
    hide Request, Burst, Lifetime, Seconds, Rising;
    oks := [];
    var key := Limit(RateBucket, ip);
    for i := 0 to |ms|
      invariant |oks| == i && l.Lookup(key) == Stored(SHIPPED, ms[..i])
      invariant forall j :: 0 <= j < i ==> oks[j] == (Burst(ms[..j + 1], 2000) <= 60)
    {
      assert ms[..i + 1][..i] == ms[..i];
      RisingPrefix(ms, i + 1);
      ShippedExact(ms[..i + 1]);
      var ok, _ := l.AcquireBucket(ip, ms[i]);
      oks := oks + [ok];
    }
  }

  // ---------- the variant that stores lastUpdate ----------

  datatype Exact = Exact(at: real, tokens: int)

  /** The same request, but keeping the time of the last whole refill period, as the script computes it. */
  function RequestExact(p: Params, b: Option<Exact>, ts: int): Exact
    requires Positive(p)
  {
    if b.None? then Exact(ts as real, Take(p.capacity))
    else
      var n := ((ts as real - b.value.at) / p.refill).Floor;
      var at := b.value.at + n as real * p.refill;
      Exact(if at < ts as real then at else ts as real, Take(Min(p.capacity, b.value.tokens + n * p.refillToken)))
  }

  /** The entry that this variant stores, under the same expiry. */
  function StoredExact(p: Params, ms: seq<int>): Option<Entry<Exact>>
    requires Positive(p)
  {
    if ms == [] then None
    else
      var now := ms[|ms| - 1];
      Some(Entry(RequestExact(p, Live(StoredExact(p, ms[..|ms| - 1]), now), Seconds(now)), now + Lifetime(p)))
  }

  function PermitsExact(p: Params, ms: seq<int>): nat
    requires Positive(p)
  {
    if ms == [] then 0
    else PermitsExact(p, ms[..|ms| - 1]) + (if StoredExact(p, ms).value.bucket.tokens >= 0 then 1 else 0)
  }

  lemma FloorMonotone(a: real, b: real, r: real)
    requires a <= b && r > 0.0
    ensures (a / r).Floor <= (b / r).Floor
  {
    assert a / r <= b / r;
  }

  lemma TakeMonotone(cap: int, a: int, b: int)
    requires a <= b
    ensures Take(Min(cap, a)) <= Take(Min(cap, b))
  {
  }

  /** The one stored time lies at or behind the other, and its tokens are no fewer. */
  ghost predicate Ahead(a: Option<Bucket>, b: Option<Exact>, ts: int) {
    if a.Some? && b.Some? then b.value.at <= a.value.ts as real && a.value.ts <= ts && a.value.tokens <= b.value.tokens
    else a.None? && b.None?
  }

  lemma RequestAhead(p: Params, a: Option<Bucket>, b: Option<Exact>, ts: int)
    requires Positive(p) && Ahead(a, b, ts)
    ensures Ahead(Some(Request(p, a, ts)), Some(RequestExact(p, b, ts)), ts)
  {
    if a.Some? {
      var n, m := Periods(p, ts - a.value.ts), ((ts as real - b.value.at) / p.refill).Floor;
      FloorMonotone((ts - a.value.ts) as real, ts as real - b.value.at, p.refill);
      TimesMonotone(p.refillToken, n, m);
      hide Take, Min, Periods;
      TakeMonotone(p.capacity, a.value.tokens + n * p.refillToken, b.value.tokens + m * p.refillToken);
    }
  }

  /** The simulation: both expire together, the stored time lies behind, and the tokens are never fewer. */
  lemma {:induction false} ExactAhead(p: Params, ms: seq<int>)
    requires Positive(p) && Rising(ms) && ms != []
    ensures var a, b := Stored(p, ms).value, StoredExact(p, ms).value;
      && a.expireAt == b.expireAt
      && Ahead(Some(a.bucket), Some(b.bucket), Seconds(ms[|ms| - 1]))
  {
    var n := |ms| - 1;
    if n > 0 {
      ExactAhead(p, ms[..n]);
      assert ms[..n][n - 1] == ms[n - 1];
    }
    var a, b := Live(Stored(p, ms[..n]), ms[n]), Live(StoredExact(p, ms[..n]), ms[n]);
    assert Ahead(a, b, Seconds(ms[n]));
    hide Request, RequestExact, Ahead;
    RequestAhead(p, a, b, Seconds(ms[n]));
  }

  /** Storing the request's own time is never more permissive than storing lastUpdate, request by request. */
  lemma {:induction false} NeverMorePermissive(p: Params, ms: seq<int>)
    requires Positive(p) && Rising(ms)
    ensures ms != [] && Tokens(p, ms) >= 0 ==> StoredExact(p, ms).value.bucket.tokens >= 0
    ensures Permits(p, ms) <= PermitsExact(p, ms)
  {
    if ms != [] {
      NeverMorePermissive(p, ms[..|ms| - 1]);
      ExactAhead(p, ms);
    }
  }

  const HALF_REFILLED := Params(1, 2, 2.0)

  lemma ExactAfterPause(ts: int, at: int, tokens: int)
    requires 0 <= ts - at <= 2 && -1 <= tokens <= 0
    ensures RequestExact(HALF_REFILLED, Some(Exact(at as real, tokens)), ts) ==
      if ts - at == 2 then Exact(ts as real, 0) else Exact(at as real, -1)
  {
  }

  lemma FirstExact(p: Params)
    requires Positive(p)
    ensures RequestExact(p, None, 0) == Exact(0.0, p.capacity - 1)
  {
  }

  /** One more request of a client, within the life of the key. */
  lemma NextExact(p: Params, ms: seq<int>, now: int)
    requires Positive(p) && ms != [] && now < ms[|ms| - 1] + Lifetime(p)
    ensures StoredExact(p, ms + [now]) ==
      Some(Entry(RequestExact(p, Some(StoredExact(p, ms).value.bucket), Seconds(now)), now + Lifetime(p)))
    ensures Burst(ms + [now], Lifetime(p)) == 1 + Burst(ms, Lifetime(p))
  {
    var more := ms + [now];
    assert more[..|more| - 1] == ms && more[|ms|] == now && more[|ms| - 1] == ms[|ms| - 1];
    hide RequestExact, Lifetime, Seconds;
  }

  /** The requests of the example, one after another. */
  lemma FourRequests() returns (ms: seq<int>)
    ensures ms == [900, 900, 1800, 2700] && Burst(ms, Lifetime(HALF_REFILLED)) == 4
    ensures StoredExact(HALF_REFILLED, ms).value.bucket.tokens == 0
  {
    var p := HALF_REFILLED;
    assert Lifetime(p) == 1000;
    FirstExact(p);
    ExactAfterPause(0, 0, 0);
    ExactAfterPause(1, 0, -1);
    ExactAfterPause(2, 0, -1);
    ms := [900];
    assert ms[..0] == [] && StoredExact(p, ms) == Some(Entry(Exact(0.0, 0), 1900)) && Burst(ms, 1000) == 1;
    hide RequestExact, StoredExact, Burst, Lifetime;
    NextExact(p, ms, 900);
    ms := ms + [900];
    NextExact(p, ms, 1800);
    ms := ms + [1800];
    NextExact(p, ms, 2700);
    ms := ms + [2700];
  }

  /** And it is strictly less so for a client whose pauses are shorter than a period but add up to one. */
  lemma StrictlyLess()
    ensures var ms := [900, 900, 1800, 2700];
      && Burst(ms, Lifetime(HALF_REFILLED)) == 4
      && Tokens(HALF_REFILLED, ms) == -1 && StoredExact(HALF_REFILLED, ms).value.bucket.tokens == 0
  {
    var ms := FourRequests();
    hide Burst, Lifetime, Tokens, StoredExact;
    SteadyClient(HALF_REFILLED, ms);
  }
}
