/** Time buckets: how many a range has, and that log buckets agree with millisecond ones and
    stay within 64 bits. */
module TimeBuckets {
  import opened TimeLimits

  /** Number of buckets a time series over [start, end) is validated for. */
  function BucketCount(startMS: int, endMS: int, stepMS: int): int
    requires stepMS > 0
  {
    var alignedStart := startMS - startMS % stepMS;
    var delta := endMS - alignedStart;
    (delta - 1) / stepMS + 1
  }

  function BucketsFrom(first: int, n: nat): (s: set<int>)
    ensures |s| == n && forall k :: k in s <==> first <= k < first + n
  {
    if n == 0 then {} else BucketsFrom(first, n - 1) + {first + n - 1}
  }

  lemma QuotientBounds(t: int, step: int)
    requires step > 0
    ensures step * (t / step) <= t < step * (t / step) + step
  {
  }

  /** Multiples of a step keep their order, a step apart. */
  lemma Multiples(step: int, a: int, b: int)
    requires step > 0
    ensures a < b ==> step * a + step <= step * b
    ensures b < a ==> step * b + step <= step * a
  {
    assert step * b - step * a == step * (b - a);
    AtLeastOne(step, b - a);
    AtLeastOne(step, a - b);
  }

  lemma AtLeastOne(step: int, d: int)
    requires step > 0
    ensures d >= 1 ==> step * d >= step
  {
  }

  lemma QuotientUnique(t: int, step: int, q: int)
    requires step > 0 && step * q <= t < step * q + step
    ensures t / step == q
  {
    QuotientBounds(t, step);
    Multiples(step, t / step, q);
  }

  lemma QuotientMonotone(s: int, t: int, step: int)
    requires step > 0 && s <= t
    ensures s / step <= t / step
  {
    QuotientBounds(s, step);
    QuotientBounds(t, step);
    Multiples(step, s / step, t / step);
  }

  lemma QuotientBelow(t: int, step: int)
    requires step > 0 && t >= 0
    ensures 0 <= t / step <= t
  {
    var q := t / step;
    QuotientBounds(t, step);
    Multiples(step, q, 0);
    if q > 0 {
      AtLeastOne(q, step);
    }
  }

  lemma ShiftedQuotient(t: int, step: int, q: int)
    requires step > 0
    ensures (t - step * q) / step == t / step - q
  {
    QuotientBounds(t, step);
    assert step * (t / step - q) == step * (t / step) - step * q;
    QuotientUnique(t - step * q, step, t / step - q);
  }

  /** The range has exactly the buckets from that of its first instant to that of its last. */
  lemma BucketCountIsExact(startMS: int, endMS: int, stepMS: int)
    requires 0 <= startMS < endMS && stepMS > 0
    ensures |(set t | startMS <= t < endMS :: t / stepMS)| == BucketCount(startMS, endMS, stepMS)
  {
    var first, last := startMS / stepMS, (endMS - 1) / stepMS;
    QuotientMonotone(startMS, endMS - 1, stepMS);
    ShiftedQuotient(endMS - 1, stepMS, first);
    assert startMS % stepMS == startMS - stepMS * first;
    assert BucketCount(startMS, endMS, stepMS) == last - first + 1;
    var all := set t | startMS <= t < endMS :: t / stepMS;
    forall k ensures k in all <==> first <= k <= last {
      if first <= k <= last {
        BucketIsReached(startMS, endMS, stepMS, k);
      }
      if k in all {
        var t :| startMS <= t < endMS && t / stepMS == k;
        QuotientMonotone(startMS, t, stepMS);
        QuotientMonotone(t, endMS - 1, stepMS);
      }
    }
    assert all == BucketsFrom(first, last - first + 1);
  }

  lemma BucketIsReached(startMS: int, endMS: int, stepMS: int, k: int)
    requires 0 <= startMS < endMS && stepMS > 0 && startMS / stepMS <= k <= (endMS - 1) / stepMS
    ensures k in set t | startMS <= t < endMS :: t / stepMS
  {
    var first, last := startMS / stepMS, (endMS - 1) / stepMS;
    var t := if first == k then startMS else stepMS * k;
    QuotientBounds(startMS, stepMS);
    QuotientBounds(endMS - 1, stepMS);
    Multiples(stepMS, first, k);
    Multiples(stepMS, k, last);
    if first != k {
      QuotientUnique(t, stepMS, k);
    }
    assert startMS <= t < endMS && t / stepMS == k;
  }

  // ----- log buckets -----

  /** The bucket of a nanosecond instant, as the log statement computes it. */
  function LogBucket(nanos: int, stepMS: int): int
    requires stepMS > 0
  {
    nanos / (stepMS * NANOS_PER_MILLI) * stepMS
  }

  function MilliBucket(ms: int, stepMS: int): int
    requires stepMS > 0
  {
    ms / stepMS * stepMS
  }

  lemma NestedQuotient(n: int, a: int, b: int)
    requires a > 0 && b > 0
    ensures a * b > 0 && n / (a * b) == n / a / b
  {
    var q, p := n / a, n / a / b;
    QuotientBounds(n, a);
    QuotientBounds(q, b);
    AtLeastOne(a, b);
    Multiples(a, b * p, q);
    Multiples(a, q, b * p + b);
    Regroup(a, b, p);
    QuotientUnique(n, a * b, p);
  }

  lemma Regroup(a: int, b: int, p: int)
    ensures a * b * p == a * (b * p) && a * (b * p + b) == a * b * p + a * b
  {
  }

  /** A log falls into the same bucket by nanoseconds as by the millisecond it lies in. */
  lemma LogBucketIsMilliBucket(nanos: int, stepMS: int)
    requires stepMS > 0
    ensures LogBucket(nanos, stepMS) == MilliBucket(nanos / NANOS_PER_MILLI, stepMS)
  {
    NestedQuotient(nanos, NANOS_PER_MILLI, stepMS);
    assert stepMS * NANOS_PER_MILLI == NANOS_PER_MILLI * stepMS;
  }

  /** The guard admits exactly the milliseconds whose nanoseconds fit in 64 bits, and bucket
      arithmetic on admitted values fits as well. */
  lemma GuardIsExact(ms: int)
    ensures ms * NANOS_PER_MILLI < 0x8000_0000_0000_0000 <==> ms <= MAX_LOG_TIMESTAMP_MS
  {
    assert 9223372036854 * 1000000 < 0x8000_0000_0000_0000 < 9223372036855 * 1000000;
  }

  lemma BucketsFit(startMS: int, endMS: int, nanos: int, stepMS: int)
    requires 0 <= startMS < endMS <= MAX_LOG_TIMESTAMP_MS && 0 < stepMS <= MAX_LOG_TIMESTAMP_MS
    requires startMS * NANOS_PER_MILLI <= nanos < endMS * NANOS_PER_MILLI
    ensures 0 < stepMS * NANOS_PER_MILLI < 0x8000_0000_0000_0000 && 0 <= nanos < 0x8000_0000_0000_0000
    ensures 0 <= LogBucket(nanos, stepMS) <= nanos / NANOS_PER_MILLI < endMS
    ensures 1 <= BucketCount(startMS, endMS, stepMS) < 0x8000_0000_0000_0000
  {
    GuardIsExact(endMS);
    GuardIsExact(stepMS);
    LogBucketIsMilliBucket(nanos, stepMS);
    var ms := nanos / NANOS_PER_MILLI;
    QuotientBounds(nanos, NANOS_PER_MILLI);
    QuotientBounds(ms, stepMS);
    QuotientBelow(ms, stepMS);
    CountFits(startMS, endMS, stepMS);
  }

  lemma CountFits(startMS: int, endMS: int, stepMS: int)
    requires 0 <= startMS < endMS && stepMS > 0
    ensures 1 <= BucketCount(startMS, endMS, stepMS) <= endMS
  {
    var first := startMS / stepMS;
    ShiftedQuotient(endMS - 1, stepMS, first);
    assert startMS % stepMS == startMS - stepMS * first;
    QuotientMonotone(startMS, endMS - 1, stepMS);
    QuotientBelow(startMS, stepMS);
    QuotientBelow(endMS - 1, stepMS);
  }
}
