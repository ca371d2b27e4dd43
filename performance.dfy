/**
 * The helpers of src/utils/performance.js: the sliding-window rate limiter,
 * the per-operation metric history and its summary, and chunked batch
 * processing. The clock is the `now` argument of each call; a sleep is
 * recorded as its length instead of being waited out.
 */
module Performance {
  import opened Wrappers
  import Config
  import PaperProcessor
  import Seqs
  import Arith

  // Rate limiting

  /** The limits of the module's `apiRateLimiter`: twice the concurrent searches per minute. */
  const ApiMaxRequests := Config.MaxConcurrentSearches * 2
  const ApiWindowMs := 60000

  /** `times.filter(time => time > windowStart)`. */
  function Recent(times: seq<int>, windowStart: int): (r: seq<int>)
    ensures |r| <= |times|
    ensures forall k :: 0 <= k < |r| ==> r[k] > windowStart
    decreases |times|
  {
    if times == [] then []
    else (if times[0] > windowStart then [times[0]] else []) + Recent(times[1..], windowStart)
  }

  /** A later window start keeps no more times. */
  lemma {:induction false} RecentShrinks(times: seq<int>, s1: int, s2: int)
    requires s1 <= s2
    ensures |Recent(times, s2)| <= |Recent(times, s1)|
    decreases |times|
  {
    if times != [] {
      RecentShrinks(times[1..], s1, s2);
    }
  }

  /** Filtering again with the same start changes nothing. */
  lemma {:induction false} RecentOfRecent(times: seq<int>, start: int)
    ensures Recent(Recent(times, start), start) == Recent(times, start)
    decreases |times|
  {
    if times != [] {
      RecentOfRecent(times[1..], start);
      var rest := Recent(times[1..], start);
      if times[0] > start {
        var once := [times[0]] + rest;
        assert once[0] == times[0] && once[1..] == rest;
        assert Recent(once, start) == [times[0]] + Recent(rest, start);
      } else {
        assert Recent(times, start) == [] + rest == rest;
      }
    }
  }

  lemma {:induction false} RecentAppend(times: seq<int>, t: int, start: int)
    ensures Recent(times + [t], start) == Recent(times, start) + (if t > start then [t] else [])
    decreases |times|
  {
    if times == [] {
      assert times + [t] == [t];
    } else {
      assert (times + [t])[1..] == times[1..] + [t];
      RecentAppend(times[1..], t, start);
    }
  }

  /**
   * One call of the limiter for `identifier` at `now`: whether it is allowed,
   * and the timestamp lists afterwards.
   */
  function LimiterStep(requests: map<string, seq<int>>, identifier: string, now: int, maxRequests: int, windowMs: int)
    : (bool, map<string, seq<int>>)
  {
    if identifier in requests then
      var valid := Recent(requests[identifier], now - windowMs);
      if |valid| >= maxRequests then (false, requests[identifier := valid])
      else (true, requests[identifier := valid + [now]])
    else (true, requests[identifier := [now]])
  }

  /**
   * A call is allowed exactly when the identifier is new or fewer than
   * `maxRequests` of its stored times lie after `now - windowMs`. Its list
   * becomes those recent times, with `now` appended only when allowed; no
   * other identifier's list changes.
   */
  lemma LimiterDecision(requests: map<string, seq<int>>, identifier: string, now: int, maxRequests: int, windowMs: int)
    ensures var (verdict, after) := LimiterStep(requests, identifier, now, maxRequests, windowMs);
      && (verdict <==>
          identifier !in requests || |Recent(requests[identifier], now - windowMs)| < maxRequests)
      && after.Keys == requests.Keys + {identifier}
      && (forall other :: other in requests && other != identifier ==> after[other] == requests[other])
      && after[identifier]
         == (if identifier in requests then Recent(requests[identifier], now - windowMs) else [])
            + (if verdict then [now] else [])
  {
  }

  /** The first call from an identifier never seen is allowed, whatever the limit, even 0. */
  lemma FirstCallAllowed(requests: map<string, seq<int>>, identifier: string, now: int, maxRequests: int, windowMs: int)
    requires identifier !in requests
    ensures LimiterStep(requests, identifier, now, maxRequests, windowMs).0
  {
  }

  /** At time `clock`, no identifier has more than `maxRequests` stored times inside the window ending then. */
  ghost predicate WithinLimit(requests: map<string, seq<int>>, clock: int, maxRequests: int, windowMs: int) {
    forall id :: id in requests ==> |Recent(requests[id], clock - windowMs)| <= maxRequests
  }

  /**
   * With `maxRequests` at least 1 and a clock that does not go back, every
   * call keeps the stored times inside any window ending at or after the
   * latest call within the limit.
   */
  lemma LimiterKeepsLimit(requests: map<string, seq<int>>, clock: int, identifier: string, now: int,
                          maxRequests: int, windowMs: int, later: int)
    requires maxRequests >= 1 && clock <= now <= later
    requires WithinLimit(requests, clock, maxRequests, windowMs)
    ensures WithinLimit(LimiterStep(requests, identifier, now, maxRequests, windowMs).1, later, maxRequests, windowMs)
  {
    var after := LimiterStep(requests, identifier, now, maxRequests, windowMs).1;
    forall id | id in after
      ensures |Recent(after[id], later - windowMs)| <= maxRequests
    {
      RecentShrinks(after[id], now - windowMs, later - windowMs);
      if id != identifier {
        RecentShrinks(requests[id], clock - windowMs, now - windowMs);
      } else {
        OwnListWithinLimit(requests, clock, identifier, now, maxRequests, windowMs);
      }
    }
  }

  /** The list of the calling identifier itself stays within the limit at `now`. */
  lemma OwnListWithinLimit(requests: map<string, seq<int>>, clock: int, identifier: string, now: int,
                           maxRequests: int, windowMs: int)
    requires maxRequests >= 1 && clock <= now
    requires WithinLimit(requests, clock, maxRequests, windowMs)
    ensures var after := LimiterStep(requests, identifier, now, maxRequests, windowMs).1;
      |Recent(after[identifier], now - windowMs)| <= maxRequests
  {
    var start := now - windowMs;
    if identifier in requests {
      var valid := Recent(requests[identifier], start);
      RecentShrinks(requests[identifier], clock - windowMs, start);
      RecentOfRecent(requests[identifier], start);
      RecentAppend(valid, now, start);
    } else {
      RecentAppend([], now, start);
      assert [] + [now] == [now];
    }
  }

  /** `createRateLimiter(maxRequests, windowMs)`: the returned closure and the `requests` map it keeps. */
  class RateLimiter {
    var requests: map<string, seq<int>>
    const maxRequests: int
    const windowMs: int

    constructor (maxRequests: int, windowMs: int)
      ensures requests == map[]
      ensures this.maxRequests == maxRequests && this.windowMs == windowMs
    {
      requests := map[];
      this.maxRequests, this.windowMs := maxRequests, windowMs;
    }

    /** A call of the closure for `identifier` at time `now`. */
    method Allow(identifier: string, now: int) returns (allowed: bool)
      modifies this
      ensures (allowed, requests) == LimiterStep(old(requests), identifier, now, maxRequests, windowMs)
    {
      var windowStart := now - windowMs;
      if identifier in requests {
        var validRequests := Recent(requests[identifier], windowStart);
        requests := requests[identifier := validRequests];
        if |validRequests| >= maxRequests {
          return false;
        }
      } else {
        requests := requests[identifier := []];
      }
      ghost var before := requests;
      requests := requests[identifier := requests[identifier] + [now]];
      assert requests == old(requests)[identifier := before[identifier] + [now]];
      assert [] + [now] == [now];
      allowed := true;
    }
  }

  // Metrics

  const MaxSamples := 100

  /** One recorded metric value and when it was recorded. */
  datatype Sample = Sample(value: int, timestamp: int)

  /** The summary `getMetrics` reports. */
  datatype Summary = Summary(count: nat, average: int, min: int, max: int, latest: int)

  /** The list of `operation` after `recordMetric(operation, value)` at `now`. */
  function Recorded(metrics: map<string, seq<Sample>>, operation: string, value: int, now: int): seq<Sample> {
    var list := (if operation in metrics then metrics[operation] else []) + [Sample(value, now)];
    if |list| > MaxSamples then list[1..] else list
  }

  /**
   * If the list of an operation holds the last (at most) 100 samples of its
   * history, recording one more keeps it so: the most recent 100 values, in
   * order.
   */
  lemma RecordKeepsRecent(metrics: map<string, seq<Sample>>, operation: string, history: seq<Sample>, value: int, now: int)
    requires operation in metrics ==> metrics[operation] == Seqs.LastN(history, MaxSamples)
    requires operation !in metrics ==> history == []
    ensures Recorded(metrics, operation, value, now) == Seqs.LastN(history + [Sample(value, now)], MaxSamples)
  {
    var h := history + [Sample(value, now)];
    if |history| >= MaxSamples {
      assert Seqs.LastN(history, MaxSamples) + [Sample(value, now)] == h[|h| - MaxSamples - 1..];
      assert h[|h| - MaxSamples - 1..][1..] == h[|h| - MaxSamples..];
    }
  }

  /** The values of a list of samples. */
  function Values(samples: seq<Sample>): (vs: seq<int>)
    ensures |vs| == |samples|
  {
    seq(|samples|, i requires 0 <= i < |samples| => samples[i].value)
  }

  function Sum(vs: seq<int>): int
    decreases |vs|
  {
    if vs == [] then 0 else Sum(vs[..|vs| - 1]) + vs[|vs| - 1]
  }

  /** `Math.min(...values)` of a non-empty list. */
  function MinOf(vs: seq<int>): (m: int)
    requires vs != []
    ensures m in vs && forall k :: 0 <= k < |vs| ==> m <= vs[k]
    decreases |vs|
  {
    if |vs| == 1 then vs[0]
    else
      var rest := MinOf(vs[..|vs| - 1]);
      assert forall k :: 0 <= k < |vs| - 1 ==> vs[..|vs| - 1][k] == vs[k];
      if vs[|vs| - 1] < rest then vs[|vs| - 1] else rest
  }

  /** `Math.max(...values)` of a non-empty list. */
  function MaxOf(vs: seq<int>): (m: int)
    requires vs != []
    ensures m in vs && forall k :: 0 <= k < |vs| ==> vs[k] <= m
    decreases |vs|
  {
    if |vs| == 1 then vs[0]
    else
      var rest := MaxOf(vs[..|vs| - 1]);
      assert forall k :: 0 <= k < |vs| - 1 ==> vs[..|vs| - 1][k] == vs[k];
      if vs[|vs| - 1] > rest then vs[|vs| - 1] else rest
  }

  /** Every element lies between `lo` and `hi`, so the sum lies between n·lo and n·hi. */
  lemma {:induction false} SumBounds(vs: seq<int>, lo: int, hi: int)
    requires forall k :: 0 <= k < |vs| ==> lo <= vs[k] <= hi
    ensures |vs| * lo <= Sum(vs) <= |vs| * hi
    decreases |vs|
  {
    if vs != [] {
      var init := vs[..|vs| - 1];
      assert forall k :: 0 <= k < |init| ==> init[k] == vs[k];
      SumBounds(init, lo, hi);
      assert |vs| * lo == |init| * lo + lo;
      assert |vs| * hi == |init| * hi + hi;
    }
  }

  /** The summary of a non-empty list of samples. */
  function Summarize(samples: seq<Sample>): Summary
    requires samples != []
  {
    var vs := Values(samples);
    Summary(|vs|, PaperProcessor.RoundDiv(Sum(vs), |vs|), MinOf(vs), MaxOf(vs), vs[|vs| - 1])
  }

  /** The rounded average of whole numbers lies between their minimum and maximum. */
  lemma AverageBetween(samples: seq<Sample>)
    requires samples != []
    ensures var s := Summarize(samples); s.min <= s.average <= s.max
  {
    var vs := Values(samples);
    var n := |vs|;
    var lo, hi := MinOf(vs), MaxOf(vs);
    SumBounds(vs, lo, hi);
    RoundedBetween(Sum(vs), n, lo, hi);
  }

  /** If n·lo <= total <= n·hi, the rounded quotient total / n lies in [lo, hi]. */
  lemma RoundedBetween(total: int, n: int, lo: int, hi: int)
    requires n > 0 && n * lo <= total <= n * hi
    ensures lo <= PaperProcessor.RoundDiv(total, n) <= hi
  {
    PaperProcessor.RoundDivNearest(total, n);
    NearestBetween(total, n, PaperProcessor.RoundDiv(total, n), lo, hi);
  }

  /** A whole number within a half of total / n lies in [lo, hi] when total / n does. */
  lemma NearestBetween(total: int, n: int, r: int, lo: int, hi: int)
    requires n > 0 && n * lo <= total <= n * hi
    requires 2 * n * r <= 2 * total + n < 2 * n * (r + 1)
    ensures lo <= r <= hi
  {
    var m := 2 * n;
    if r < lo {
      Arith.MulMono(m, r + 1, lo);
      assert false;
    }
    if r > hi {
      Arith.MulMono(m, hi + 1, r);
      assert false;
    }
  }


  /** The performance monitor: the metric history per operation and the running timers. */
  class PerformanceMonitor {
    var metrics: map<string, seq<Sample>>
    var activeTimers: map<string, int>

    constructor ()
      ensures metrics == map[] && activeTimers == map[]
    {
      metrics, activeTimers := map[], map[];
    }

    /** `startTimer(operation)` at `now`; the returned timer is the start time `End` is given. */
    method StartTimer(operation: string, now: int) returns (startTime: int)
      modifies this
      ensures startTime == now
      ensures activeTimers == old(activeTimers)[operation := now] && metrics == old(metrics)
    {
      activeTimers := activeTimers[operation := now];
      startTime := now;
    }

    /** The timer's `end()` at `now`: the duration is recorded and the timer removed. */
    method End(operation: string, startTime: int, now: int) returns (duration: int)
      modifies this
      ensures duration == now - startTime
      ensures metrics == old(metrics)[operation := Recorded(old(metrics), operation, now - startTime, now)]
      ensures activeTimers == old(activeTimers) - {operation}
    {
      duration := now - startTime;
      RecordMetric(operation, duration, now);
      activeTimers := activeTimers - {operation};
    }

    /** `recordMetric(operation, value)` at `now`: append, then drop the oldest beyond 100. */
    method RecordMetric(operation: string, value: int, now: int)
      modifies this
      ensures metrics == old(metrics)[operation := Recorded(old(metrics), operation, value, now)]
      ensures activeTimers == old(activeTimers)
    {
      if operation !in metrics {
        metrics := metrics[operation := []];
      }
      var list := metrics[operation] + [Sample(value, now)];
      if |list| > MaxSamples {
        list := list[1..];
      }
      metrics := metrics[operation := list];
    }

    /** `getMetrics(operation)`: null for an unknown operation or an empty list, else the summary. */
    function GetMetrics(operation: string): (r: Option<Summary>)
      reads this
      ensures r.Some? <==> operation in metrics && metrics[operation] != []
      ensures r.Some? ==> var vs := Values(metrics[operation]);
        && r.value.count == |vs|
        && r.value.latest == vs[|vs| - 1]
        && r.value.min in vs && r.value.max in vs
        && (forall k :: 0 <= k < |vs| ==> r.value.min <= vs[k] <= r.value.max)
    {
      var samples := if operation in metrics then metrics[operation] else [];
      if samples == [] then None else Some(Summarize(samples))
    }

    /** `getAllMetrics()`: the summary of every operation with a list. */
    function GetAllMetrics(): (r: map<string, Option<Summary>>)
      reads this
      ensures r.Keys == metrics.Keys
      ensures forall op :: op in r ==> r[op] == GetMetrics(op)
    {
      map op | op in metrics :: GetMetrics(op)
    }
  }

  // Batch processing

  /**
   * `batchProcess(items, processor, batchSize)`: the items in consecutive
   * chunks of `batchSize`, each item's settled outcome kept in input order,
   * with a pause of `SEARCH_DELAY_MS` between chunks and none after the
   * last. `processor(x)` stands for how the call on `x` settles. A batch size
   * of 0 or less never advances through a non-empty list.
   */
  method BatchProcess<T, U>(items: seq<T>, processor: T -> Result<U, string>, batchSize: int := 5)
    returns (results: seq<Result<U, string>>, pauses: seq<int>)
    requires batchSize > 0
    ensures results == seq(|items|, k requires 0 <= k < |items| => processor(items[k]))
    ensures |items| == 0 ==> pauses == []
    ensures |items| > 0 ==> Arith.Times(|pauses|, batchSize) < |items| <= Arith.Times(|pauses| + 1, batchSize)
    ensures forall k :: 0 <= k < |pauses| ==> pauses[k] == Config.SearchDelayMs
  {
    results, pauses := [], [];
    var i, batches := 0, 0;
    while i < |items|
      invariant i == Arith.Times(batches, batchSize)
      invariant batches > 0 ==> |items| > 0
      invariant batches > 0 ==> Arith.Times(batches - 1, batchSize) < |items|
      invariant |results| == (if i < |items| then i else |items|)
      invariant forall k :: 0 <= k < |results| ==> results[k] == processor(items[k])
      invariant |pauses| == (if batches == 0 || i < |items| then batches else batches - 1)
      invariant forall k :: 0 <= k < |pauses| ==> pauses[k] == Config.SearchDelayMs
    {
      var end := if i + batchSize < |items| then i + batchSize else |items|;
      var batch := items[i..end];
      var settled := seq(|batch|, k requires 0 <= k < |batch| => processor(batch[k]));
      results := results + settled;
      if i + batchSize < |items| {
        pauses := pauses + [Config.SearchDelayMs];
      }
      i, batches := i + batchSize, batches + 1;
    }
  }

  /**
   * With p·d < n <= (p + 1)·d there are p + 1 chunks of `d` in `n` items, one
   * more than the pauses between them: p is n / d rounded up, less one.
   */
  lemma CeilingDivision(n: int, d: int, p: nat)
    requires d > 0 && Arith.Times(p, d) < n <= Arith.Times(p + 1, d)
    ensures p == (n + d - 1) / d - 1
  {
    Arith.TimesIsProduct(p, d);
    Arith.TimesIsProduct(p + 1, d);
    var x := n + d - 1;
    var r := x - (p + 1) * d;
    assert (p + 1) * d == p * d + d;
    assert 0 <= r < d;
    Arith.DivModOf(x, d, p + 1, r);
  }
}
