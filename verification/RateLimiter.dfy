/**
 The sliding-window limiter: one deque of admission times per (client, route),
 pruned on every request.  Times are seconds on a clock that never runs backwards.
 */
module RateLimiter {

  const WINDOW: real := 60.0

  datatype Key = Key(ip: string, route: string)

  datatype Decision = Admitted | Rejected(retryAfter: int)

  ghost predicate Sorted(h: seq<real>) {
    forall i, j | 0 <= i < j < |h| :: h[i] <= h[j]
  }

  ghost predicate UpTo(h: seq<real>, now: real) {
    forall i | 0 <= i < |h| :: h[i] <= now
  }

  /** The entries still inside the window. */
  function Recent(h: seq<real>, now: real): seq<real> {
    if h == [] then []
    else (if now - h[0] <= WINDOW then [h[0]] else []) + Recent(h[1..], now)
  }

  /** Seconds until the oldest entry ages out, truncated, at least one. */
  function RetryAfter(oldest: real, now: real): int {
    var left := (WINDOW - (now - oldest)).Floor;
    if left < 1 then 1 else left
  }

  // ------------------------------------------------------ facts about windows

  lemma {:induction false} AllRecent(h: seq<real>, now: real)
    requires forall i | 0 <= i < |h| :: now - h[i] <= WINDOW
    ensures Recent(h, now) == h
  {
    if h != [] {
      assert forall i | 0 <= i < |h[1..]| :: h[1..][i] == h[i + 1];
      AllRecent(h[1..], now);
    }
  }

  lemma {:induction false} RecentOfAppend(a: seq<real>, b: seq<real>, now: real)
    ensures Recent(a + b, now) == Recent(a, now) + Recent(b, now)
  {
    if a == [] {
      assert a + b == b;
    } else {
      var ab := a + b;
      assert ab[0] == a[0] && ab[1..] == a[1..] + b;
      RecentOfAppend(a[1..], b, now);
      var head := if now - a[0] <= WINDOW then [a[0]] else [];
      assert Recent(ab, now) == head + (Recent(a[1..], now) + Recent(b, now));
      assert Recent(a, now) == head + Recent(a[1..], now);
    }
  }

  /** Forgetting what had already aged out changes nothing later: pruning loses no information. */
  lemma {:induction false} PruningIsHarmless(h: seq<real>, earlier: real, now: real)
    requires earlier <= now
    ensures Recent(Recent(h, earlier), now) == Recent(h, now)
  {
    if h != [] {
      PruningIsHarmless(h[1..], earlier, now);
      var kept := Recent(h, earlier);
      if earlier - h[0] <= WINDOW {
        assert kept[0] == h[0] && kept[1..] == Recent(h[1..], earlier);
      } else {
        assert kept == Recent(h[1..], earlier);
      }
    }
  }

  /** On a sorted history a recent entry keeps everything after it in the window. */
  lemma RecentKeepsSuffix(h: seq<real>, i: nat, now: real)
    requires Sorted(h) && i < |h| && now - h[i] <= WINDOW
    ensures |Recent(h, now)| >= |h| - i
  {
    assert h == h[..i] + h[i..];
    AllRecent(h[i..], now);
    RecentOfAppend(h[..i], h[i..], now);
  }

  /** A deque whose front has not aged out holds only recent entries. */
  lemma FrontDecides(q: seq<real>, now: real)
    requires Sorted(q) && (q != [] ==> now - q[0] <= WINDOW)
    ensures Recent(q, now) == q
  {
    if q != [] {
      assert forall i | 0 < i < |q| :: q[0] <= q[i];
    }
    AllRecent(q, now);
  }

  lemma {:induction false} RecentShrinks(h: seq<real>, earlier: real, now: real)
    requires earlier <= now
    ensures |Recent(h, now)| <= |Recent(h, earlier)|
  {
    if h != [] {
      RecentShrinks(h[1..], earlier, now);
    }
  }

  /** A bucket stands for its full history: same window, never over the limit. */
  ghost predicate StandsFor(q: seq<real>, h: seq<real>, clock: real, limit: nat) {
    && Sorted(q) && Sorted(h) && UpTo(q, clock) && UpTo(h, clock)
    && Recent(q, clock) == Recent(h, clock)
    && |Recent(h, clock)| <= limit
  }

  lemma StandsForLater(q: seq<real>, h: seq<real>, clock: real, now: real, limit: nat)
    requires StandsFor(q, h, clock, limit) && clock <= now
    ensures StandsFor(q, h, now, limit)
  {
    PruningIsHarmless(q, clock, now);
    PruningIsHarmless(h, clock, now);
    RecentShrinks(h, clock, now);
  }

  lemma SortedAppend(h: seq<real>, now: real)
    requires Sorted(h) && UpTo(h, now)
    ensures Sorted(h + [now]) && UpTo(h + [now], now)
    ensures Recent(h + [now], now) == Recent(h, now) + [now]
  {
    var one := [now];
    assert Recent(one, now) == one by {
      AllRecent(one, now);
    }
    RecentOfAppend(h, one, now);
  }

  lemma StandsForPop(q: seq<real>, h: seq<real>, now: real, limit: nat)
    requires StandsFor(q, h, now, limit) && q != [] && now - q[0] > WINDOW
    ensures StandsFor(q[1..], h, now, limit)
  {
  }

  lemma StandsForAppend(q: seq<real>, h: seq<real>, now: real, limit: nat)
    requires StandsFor(q, h, now, limit) && |Recent(h, now)| < limit
    ensures StandsFor(q + [now], h + [now], now, limit)
  {
    SortedAppend(q, now);
    SortedAppend(h, now);
  }

  // --------------------------------------------------------------- the buckets

  /** Drops the entries that fell out of the window; what is left is exactly the window of the full history. */
  method PopAged(bucket: seq<real>, ghost h: seq<real>, now: real, ghost limit: nat) returns (q: seq<real>)
    requires StandsFor(bucket, h, now, limit)
    ensures q == Recent(h, now) && StandsFor(q, h, now, limit)
  {
    q := bucket;
    while q != [] && now - q[0] > WINDOW
      invariant StandsFor(q, h, now, limit)
    {
      StandsForPop(q, h, now, limit);
      q := q[1..];
    }
    FrontDecides(q, now);
  }

  /** One bucket's part of a request: prune, then refuse with a Retry-After or admit and remember. */
  method Decide(bucket: seq<real>, ghost h: seq<real>, now: real, limit: nat) returns (r: Decision, q: seq<real>)
    requires limit >= 1 && StandsFor(bucket, h, now, limit)
    ensures r.Admitted? <==> |Recent(h, now)| < limit
    ensures r.Rejected? ==> r == Rejected(RetryAfter(Recent(h, now)[0], now))
    ensures StandsFor(q, h + (if r.Admitted? then [now] else []), now, limit)
  {
    q := PopAged(bucket, h, now, limit);
    if |q| >= limit {
      r := Rejected(RetryAfter(q[0], now));
      assert h + [] == h;
    } else {
      r := Admitted;
      StandsForAppend(q, h, now, limit);
      q := q + [now];
    }
  }

  class Limiter {
    const limits: map<string, nat>
    var buckets: map<Key, seq<real>>

    /** Every admission ever made, per key, and the last time the limiter was consulted. */
    ghost var history: map<Key, seq<real>>
    ghost var clock: real

    ghost predicate Valid()
      reads this
    {
      && (forall r | r in limits :: limits[r] >= 1)
      && (forall k :: k in buckets <==> k in history)
      && (forall k | k in buckets ::
            k.route in limits && StandsFor(buckets[k], history[k], clock, limits[k.route]))
    }

    ghost function HistoryOf(k: Key): seq<real>
      reads this
    {
      if k in history then history[k] else []
    }

    constructor (limits: map<string, nat>, start: real)
      requires forall r | r in limits :: limits[r] >= 1
      ensures Valid() && this.limits == limits && history == map[] && clock == start
    {
      this.limits := limits;
      buckets, history, clock := map[], map[], start;
    }

    lemma TimePasses(now: real)
      requires Valid() && now >= clock
      ensures forall k | k in buckets :: StandsFor(buckets[k], history[k], now, limits[k.route])
    {
      forall k | k in buckets
        ensures StandsFor(buckets[k], history[k], now, limits[k.route])
      {
        StandsForLater(buckets[k], history[k], clock, now, limits[k.route]);
      }
    }

    /** The dependency every guarded route runs: admit and remember, or refuse with a Retry-After. */
    method Check(ip: string, route: string, now: real) returns (r: Decision)
      requires Valid() && route in limits && now >= clock
      modifies this
      ensures Valid() && clock == now
      ensures r.Admitted? <==> |Recent(old(HistoryOf(Key(ip, route))), now)| < limits[route]
      ensures r.Rejected? ==>
                r == Rejected(RetryAfter(Recent(old(HistoryOf(Key(ip, route))), now)[0], now))
      ensures HistoryOf(Key(ip, route)) == old(HistoryOf(Key(ip, route))) + (if r.Admitted? then [now] else [])
      ensures forall k | k != Key(ip, route) :: k in buckets <==> k in old(buckets)
      ensures forall k | k in buckets && k != Key(ip, route) ::
                buckets[k] == old(buckets)[k] && history[k] == old(history)[k]
    {
      var k := Key(ip, route);
      ghost var h := HistoryOf(k);
      TimePasses(now);
      var q;
      r, q := Decide(if k in buckets then buckets[k] else [], h, now, limits[route]);
      buckets := buckets[k := q];
      history := history[k := h + if r.Admitted? then [now] else []];
      clock := now;
    }
  }

  // ------------------------------------------------- what callers can rely on

  /** The admissions among a run of requests on one key, decided by full history alone. */
  function Admissions(limit: nat, requests: seq<real>): seq<real> {
    if requests == [] then []
    else
      var n := |requests| - 1;
      var log := Admissions(limit, requests[..n]);
      if |Recent(log, requests[n])| < limit then log + [requests[n]] else log
  }

  /** One more request is admitted exactly when fewer than the limit were in the last 60 s. */
  lemma AdmissionsSnoc(limit: nat, requests: seq<real>, now: real)
    ensures var log := Admissions(limit, requests);
            Admissions(limit, requests + [now]) == if |Recent(log, now)| < limit then log + [now] else log
    ensures Admissions(limit, []) == []
  {
    assert (requests + [now])[..|requests|] == requests;
  }

  lemma {:induction false} AdmissionsAreSorted(limit: nat, requests: seq<real>)
    requires Sorted(requests)
    ensures Sorted(Admissions(limit, requests))
    ensures requests != [] ==> UpTo(Admissions(limit, requests), requests[|requests| - 1])
  {
    if requests != [] {
      var n := |requests| - 1;
      AdmissionsAreSorted(limit, requests[..n]);
      var log := Admissions(limit, requests[..n]);
      assert UpTo(log, requests[n]) by {
        if n > 0 {
          assert requests[..n][n - 1] <= requests[n];
        }
      }
      SortedAppend(log, requests[n]);
    }
  }

  /** Any `limit` + 1 consecutive admissions of a key span more than the window. */
  lemma {:induction false} AdmissionsSpanWindow(limit: nat, requests: seq<real>, i: nat)
    requires limit >= 1 && Sorted(requests) && i + limit < |Admissions(limit, requests)|
    ensures Admissions(limit, requests)[i + limit] - Admissions(limit, requests)[i] > WINDOW
  {
    var n := |requests| - 1;
    var log := Admissions(limit, requests[..n]);
    AdmissionsAreSorted(limit, requests[..n]);
    if i + limit < |log| {
      AdmissionsSpanWindow(limit, requests[..n], i);
    } else if requests[n] - log[i] <= WINDOW {
      RecentKeepsSuffix(log, i, requests[n]);
      assert false;
    }
  }

  /** Retry-After is always between one second and the whole window: the seconds left, truncated, and one when less than one is left. */
  lemma RetryAfterInRange(oldest: real, now: real)
    requires oldest <= now
    ensures 1 <= RetryAfter(oldest, now) <= 60
    ensures var left := oldest + 60.0 - now;
            if left < 1.0 then RetryAfter(oldest, now) == 1
            else RetryAfter(oldest, now) as real <= left < RetryAfter(oldest, now) as real + 1.0
  {
  }

  /** After a refusal, with no other traffic on the key, a retry is admitted exactly once the oldest entry has aged out. */
  lemma RetryAdmittedIff(h: seq<real>, limit: nat, now: real, retry: real)
    requires limit >= 1 && Sorted(h) && UpTo(h, now) && now <= retry && |Recent(h, now)| == limit
    ensures |Recent(h, retry)| < limit <==> retry - Recent(h, now)[0] > WINDOW
  {
    var window := Recent(h, now);
    PruningIsHarmless(h, now, retry);
    RecentIsSorted(h, now);
    if retry - window[0] <= WINDOW {
      RecentKeepsSuffix(window, 0, retry);
    } else {
      RecentShrinks(window[1..], now, retry);
      NeverLonger(window[1..], retry);
    }
  }

  lemma {:induction false} NeverLonger(h: seq<real>, now: real)
    ensures |Recent(h, now)| <= |h|
  {
    if h != [] {
      NeverLonger(h[1..], now);
    }
  }

  lemma {:induction false} RecentIsSorted(h: seq<real>, now: real)
    requires Sorted(h)
    ensures Sorted(Recent(h, now))
    ensures h != [] ==> forall i | 0 <= i < |Recent(h, now)| :: h[0] <= Recent(h, now)[i]
  {
    if h != [] {
      var tail := h[1..];
      RecentIsSorted(tail, now);
      if tail != [] {
        assert h[0] <= tail[0];
      }
      var rest := Recent(tail, now);
      assert Recent(h, now) == if now - h[0] <= WINDOW then [h[0]] + rest else rest;
    }
  }

  /** Waiting one second more than Retry-After asks for is always enough. */
  lemma OneSecondMoreIsEnough(h: seq<real>, limit: nat, now: real, retry: real)
    requires limit >= 1 && Sorted(h) && UpTo(h, now) && |Recent(h, now)| == limit
    requires retry >= now + RetryAfter(Recent(h, now)[0], now) as real + 1.0
    ensures |Recent(h, retry)| < limit
  {
    RetryAdmittedIff(h, limit, now, retry);
  }

  /**
   Waiting exactly what Retry-After asks for is enough, with no other traffic on the key,
   precisely when the oldest entry was already older than 59 seconds: any longer wait is truncated.
   */
  lemma RetryAfterSufficesIff(h: seq<real>, limit: nat, now: real)
    requires limit >= 1 && Sorted(h) && UpTo(h, now) && |Recent(h, now)| == limit
    ensures var oldest := Recent(h, now)[0];
            |Recent(h, now + RetryAfter(oldest, now) as real)| < limit <==> now - oldest > WINDOW - 1.0
  {
    var oldest := Recent(h, now)[0];
    TruncationSufficesIff(oldest, now);
    RecentIsPast(h, now);
    RetryAfterInRange(oldest, now);
    RetryAdmittedIff(h, limit, now, now + RetryAfter(oldest, now) as real);
  }

  lemma TruncationSufficesIff(oldest: real, now: real)
    ensures now + RetryAfter(oldest, now) as real - oldest > WINDOW <==> now - oldest > WINDOW - 1.0
  {
    var left := WINDOW - (now - oldest);
    assert left.Floor as real <= left < left.Floor as real + 1.0;
  }

  lemma {:induction false} RecentIsPast(h: seq<real>, now: real)
    requires UpTo(h, now)
    ensures UpTo(Recent(h, now), now)
  {
    if h != [] {
      assert forall i | 0 <= i < |h[1..]| :: h[1..][i] == h[i + 1];
      RecentIsPast(h[1..], now);
    }
  }

  /** One input where it is not: 59 of the remaining 59.5 seconds are promised. */
  lemma RetryAfterCanBeTooShort()
    ensures var h := [0.0];
            && Recent(h, 0.5) == h && RetryAfter(h[0], 0.5) == 59
            && |Recent(h, 0.5 + 59.0)| == 1
  {
    var h := [0.0];
    assert h[1..] == [];
    assert (WINDOW - 0.5).Floor == 59;
  }
}
