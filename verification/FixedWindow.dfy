/**
 The fixed-window counter behind the login, register, comment, upload and message limits: INCR, and
 EXPIRE on the first count of a window, in one script.
 */
module FixedWindow {
  import opened Wrappers
  import opened Keys

  // Two hours, in milliseconds.
  const LIMITER_TIME := 7_200_000

  function MaxCount(l: Limiter): int {
    match l
    case Login => 5
    case Register => 5
    case CommentLimit => 30
    case Upload => 3
    case MessageLimit => 50
    case RateBucket => 0
  }

  class Counters {
    var counts: map<Key, int>
    var expireAt: map<Key, int>

    /** No counter exists without an expiry within the limiter time of its first count. */
    ghost predicate Valid()
      reads this
    {
      counts.Keys == expireAt.Keys && forall k :: k in counts ==> counts[k] >= 1
    }

    constructor ()
      ensures Valid() && counts == map[]
    {
      counts, expireAt := map[], map[];
    }

    /** The counter and the start of its window, expired or not. */
    function Stored(key: Key): Option<Window>
      reads this
      requires key in counts ==> key in expireAt
    {
      if key in counts then Some(Window(expireAt[key] - LIMITER_TIME, counts[key])) else None
    }

    /** limiterScript, after Redis has dropped an expired counter. */
    method RunScript(key: Key, now: int) returns (count: int)
      requires Valid()
      modifies this
      ensures Valid()
      ensures Stored(key) == Some(Count(Alive(old(Stored(key)), now), now)) && count == Stored(key).value.count
      ensures counts == old(counts)[key := count] && expireAt == old(expireAt)[key := expireAt[key]]
    {
      if key in counts && expireAt[key] <= now {
        counts, expireAt := counts - {key}, expireAt - {key};
      }
      counts := counts[key := (if key in counts then counts[key] else 0) + 1];
      count := counts[key];
      if count == 1 {
        expireAt := expireAt[key := now + LIMITER_TIME];
      }
    }

    method IncrementLimiterCount(l: Limiter, ip: string, now: int) returns (ok: bool)
      requires Valid()
      modifies this
      ensures Valid()
      ensures var key := Limit(l, ip);
        && Stored(key) == Some(Count(Alive(old(Stored(key)), now), now))
        && ok == (Stored(key).value.count <= MaxCount(l))
        && counts == old(counts)[key := counts[key]] && expireAt == old(expireAt)[key := expireAt[key]]
    {
      var count := RunScript(Limit(l, ip), now);
      ok := count <= MaxCount(l);
    }
  }

  // ---------- one counter over its requests ----------

  datatype Window = Window(start: int, count: int)

  function Count(w: Option<Window>, now: int): Window {
    if w.None? then Window(now, 1) else w.value.(count := w.value.count + 1)
  }

  ghost predicate Rising(ts: seq<int>) {
    forall i, j :: 0 <= i <= j < |ts| ==> ts[i] <= ts[j]
  }

  function Alive(w: Option<Window>, now: int): Option<Window> {
    if w.Some? && now < w.value.start + LIMITER_TIME then w else None
  }

  /** The window after the first n requests. */
  function After(ts: seq<int>, n: nat): Option<Window>
    requires n <= |ts|
  {
    if n == 0 then None else Some(Count(Alive(After(ts, n - 1), ts[n - 1]), ts[n - 1]))
  }

  predicate Permitted(ts: seq<int>, i: nat, max: int)
    requires i < |ts|
  {
    After(ts, i + 1).value.count <= max
  }

  function Permits(ts: seq<int>, i: nat, j: nat, max: int): nat
    requires i <= j <= |ts|
  {
    if i == j then 0 else Permits(ts, i, j - 1, max) + (if Permitted(ts, j - 1, max) then 1 else 0)
  }

  /** The request that opened the window of request i. */
  function Opening(ts: seq<int>, i: nat): (k: nat)
    requires i < |ts|
    ensures k <= i
  {
    if i == 0 then 0
    else
      var k := Opening(ts, i - 1);
      if ts[i] < ts[k] + LIMITER_TIME then k else i
  }

  /** How many windows the first n requests opened. */
  function Opened(ts: seq<int>, n: nat): nat
    requires n <= |ts|
  {
    if n == 0 then 0 else Opened(ts, n - 1) + (if Opening(ts, n - 1) == n - 1 then 1 else 0)
  }

  lemma {:induction false} CountInWindow(ts: seq<int>, i: nat)
    requires i < |ts|
    ensures After(ts, i + 1) == Some(Window(ts[Opening(ts, i)], i - Opening(ts, i) + 1))
  {
    if i > 0 {
      CountInWindow(ts, i - 1);
    }
  }

  /** A window permits exactly its first max requests: with n in all, min(n, max) of them. */
  lemma WindowPermits(ts: seq<int>, i: nat, max: int)
    requires i < |ts|
    ensures Permitted(ts, i, max) <==> i - Opening(ts, i) < max
  {
    CountInWindow(ts, i);
  }

  /** Nobody waits longer than one window: the first request after it opens a new one and is permitted. */
  lemma OneWindowWait(ts: seq<int>, i: nat, j: nat, max: int)
    requires Rising(ts) && i < j < |ts| && max >= 1
    requires ts[j] >= ts[i] + LIMITER_TIME
    ensures exists k :: i < k <= j && Opening(ts, k) == k && Permitted(ts, k, max)
  {
    var k := Opening(ts, j);
    OpeningOpens(ts, j);
    WindowPermits(ts, k, max);
    LastWindow(ts, j);
  }

  lemma {:induction false} OpeningOpens(ts: seq<int>, i: nat)
    requires i < |ts|
    ensures Opening(ts, Opening(ts, i)) == Opening(ts, i)
  {
    if i > 0 {
      OpeningOpens(ts, i - 1);
    }
  }

  lemma {:induction false} LastWindow(ts: seq<int>, i: nat)
    requires Rising(ts) && i < |ts|
    ensures ts[Opening(ts, i)] <= ts[i] < ts[Opening(ts, i)] + LIMITER_TIME
  {
  }

  function Least(a: int, b: int): int { if a < b then a else b }

  /** At most max permits for each of n windows. */
  function Quota(n: int, max: nat): int { n * max }

  lemma QuotaSteps(n: int, max: nat)
    ensures Quota(0, max) == 0 && Quota(1, max) == max && Quota(n + 1, max) == Quota(n, max) + max
  {
  }

  /** Between requests i and j, permits stay within max per window touched. */
  lemma {:induction false} PermitsPerWindow(ts: seq<int>, i: nat, j: nat, max: nat)
    requires i < j <= |ts|
    ensures Opened(ts, i + 1) <= Opened(ts, j)
    ensures Permits(ts, i, j, max) <= Quota(Opened(ts, j) - Opened(ts, i + 1),
      max) + Least(After(ts, j).value.count, max)
  {
    hide Quota;
    CountInWindow(ts, j - 1);
    QuotaSteps(0, max);
    if i + 1 < j {
      PermitsPerWindow(ts, i, j - 1, max);
      CountInWindow(ts, j - 2);
      QuotaSteps(Opened(ts, j - 1) - Opened(ts, i + 1), max);
    } else {
      assert Permits(ts, i, i, max) == 0;
    }
  }

  /** Windows open at least the limiter time apart. */
  lemma {:induction false} WindowsApart(ts: seq<int>, i: nat, j: nat)
    requires i <= j < |ts|
    ensures Opened(ts, i + 1) <= Opened(ts, j + 1)
    ensures ts[Opening(ts, j)] >= ts[Opening(ts, i)] + (Opened(ts, j + 1) - Opened(ts, i + 1)) * LIMITER_TIME
  {
    if i < j {
      WindowsApart(ts, i, j - 1);
    }
  }

  /** Any closed time interval as long as the limiter time holds at most 2 * max permits. */
  lemma IntervalBound(ts: seq<int>, i: nat, j: nat, max: nat)
    requires Rising(ts) && i <= j < |ts| && ts[j] - ts[i] <= LIMITER_TIME
    ensures Permits(ts, i, j + 1, max) <= 2 * max
  {
    hide Quota;
    PermitsPerWindow(ts, i, j + 1, max);
    QuotaSteps(0, max);
    WindowsApart(ts, i, j);
    LastWindow(ts, i);
    LastWindow(ts, j);
    assert Opened(ts, j + 1) - Opened(ts, i + 1) <= 1;
  }

  /** In numbers: logins and registrations, comments, uploads and messages within any two hours. */
  lemma LimitsInForce(ts: seq<int>, i: nat, j: nat)
    requires Rising(ts) && i <= j < |ts| && ts[j] - ts[i] <= 2 * 60 * 60 * 1000
    ensures Permits(ts, i, j + 1, MaxCount(Login)) <= 10 && Permits(ts, i, j + 1, MaxCount(Register)) <= 10
    ensures Permits(ts, i, j + 1, MaxCount(CommentLimit)) <= 60
    ensures Permits(ts, i, j + 1, MaxCount(Upload)) <= 6 && Permits(ts, i, j + 1, MaxCount(MessageLimit)) <= 100
    ensures Permitted(ts, i, MaxCount(Login)) <==> i - Opening(ts, i) < 5
    ensures Permitted(ts, i, MaxCount(Register)) <==> i - Opening(ts, i) < 5
    ensures Permitted(ts, i, MaxCount(CommentLimit)) <==> i - Opening(ts, i) < 30
    ensures Permitted(ts, i, MaxCount(Upload)) <==> i - Opening(ts, i) < 3
    ensures Permitted(ts, i, MaxCount(MessageLimit)) <==> i - Opening(ts, i) < 50
  {
    forall max: nat
      ensures Permits(ts, i, j + 1, max) <= 2 * max
      ensures Permitted(ts, i, max) <==> i - Opening(ts, i) < max
    {
      IntervalBound(ts, i, j, max);
      WindowPermits(ts, i, max);
    }
  }

  /** The counters in use: a client gets exactly what WindowPermits says. */
  method ServeClient(c: Counters, l: Limiter, ip: string, ts: seq<int>) returns (oks: seq<bool>)
    requires c.Valid() && Limit(l, ip) !in c.counts && Rising(ts)
    modifies c
    ensures c.Valid() && |oks| == |ts|
    ensures forall i :: 0 <= i < |ts| ==> oks[i] == (i - Opening(ts, i) < MaxCount(l))
  {
    hide Opening, MaxCount, Rising, Count, Alive;
    oks := [];
    var key := Limit(l, ip);
    for i := 0 to |ts|
      invariant c.Valid() && |oks| == i
      invariant c.Stored(key) == After(ts, i)
      invariant forall j :: 0 <= j < i ==> oks[j] == (j - Opening(ts, j) < MaxCount(l))
    {
      var ok := c.IncrementLimiterCount(l, ip, ts[i]);
      WindowPermits(ts, i, MaxCount(l));
      oks := oks + [ok];
    }
  }
}
