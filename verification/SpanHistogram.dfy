/**
 Matched spans and the histogram they fill: the exported cumulative form counts the matches of the
 history directly, from the start of a span to the value a scrape shows.
 */
module SpanHistogram {
  import opened Base
  import opened Histogram
  import opened PerCpu
  import Span

  /** Matches that satisfy a guard and land in a bucket. */
  function InBucket(guard: (u64, u64) -> bool, b: nat): (u64, u64) -> bool {
    (start: u64, now: u64) => guard(start, now) && Bucket(ElapsedUs(start, now)) == b
  }

  function BelowBucket(guard: (u64, u64) -> bool, n: nat): (u64, u64) -> bool {
    (start: u64, now: u64) => guard(start, now) && Bucket(ElapsedUs(start, now)) < n
  }

  /** Matches that satisfy a guard and took at most so many microseconds. */
  function WithinUs(guard: (u64, u64) -> bool, us: nat): (u64, u64) -> bool {
    (start: u64, now: u64) => guard(start, now) && ElapsedUs(start, now) <= us
  }

  /** Every bucket of a histogram holds the matches that land in it. */
  ghost predicate Filled<K(!new)>(
    mems: seq<CpuMem>, kind: Hist, spans: seq<Span.Op<K>>, guard: (u64, u64) -> bool)
  {
    forall b: nat :: b < HIST_BUCKETS ==> Total(mems, HistCell(kind, b)) == Span.MatchedWhere(spans, InBucket(guard, b))
  }

  lemma {:induction false} PrefixIsMatched<K(!new)>(
    mems: seq<CpuMem>, kind: Hist, spans: seq<Span.Op<K>>, guard: (u64, u64) -> bool, n: nat)
    requires Filled(mems, kind, spans, guard) && n <= HIST_BUCKETS
    ensures Sum(HistTotals(mems, kind)[..n]) == Span.MatchedWhere(spans, BelowBucket(guard, n))
  {
    if n == 0 {
      forall s: u64, f: u64 ensures !BelowBucket(guard, 0)(s, f) {
        assert Bucket(ElapsedUs(s, f)) >= 0;
      }
      Span.MatchedNone(spans, BelowBucket(guard, 0));
    } else {
      PrefixIsMatched(mems, kind, spans, guard, n - 1);
      Span.MatchedSplit(spans, BelowBucket(guard, n), BelowBucket(guard, n - 1), InBucket(guard, n - 1));
      assert HistTotals(mems, kind)[..n][..n - 1] == HistTotals(mems, kind)[..n - 1];
    }
  }

  /** The cumulative value at `2^i` is the number of matches that took at most `2^i` microseconds. */
  lemma CumulativeIsMatched<K(!new)>(
    mems: seq<CpuMem>, kind: Hist, spans: seq<Span.Op<K>>, guard: (u64, u64) -> bool, i: nat)
    requires Filled(mems, kind, spans, guard) && i < HIST_BUCKETS - 1
    ensures Sum(HistTotals(mems, kind)[..i + 1]) == Span.MatchedWhere(spans, WithinUs(guard, Pow2(i)))
  {
    PrefixIsMatched(mems, kind, spans, guard, i + 1);
    forall s: u64, f: u64 ensures BelowBucket(guard, i + 1)(s, f) <==> WithinUs(guard, Pow2(i))(s, f) {
      BucketBound(ElapsedUs(s, f), i);
    }
    Span.MatchedSame(spans, BelowBucket(guard, i + 1), WithinUs(guard, Pow2(i)));
  }

  /** All buckets together hold every match that satisfies the guard. */
  lemma TotalIsMatched<K(!new)>(mems: seq<CpuMem>, kind: Hist, spans: seq<Span.Op<K>>, guard: (u64, u64) -> bool)
    requires Filled(mems, kind, spans, guard)
    ensures Sum(HistTotals(mems, kind)) == Span.MatchedWhere(spans, guard)
  {
    PrefixIsMatched(mems, kind, spans, guard, HIST_BUCKETS);
    assert HistTotals(mems, kind)[..HIST_BUCKETS] == HistTotals(mems, kind);
    Span.MatchedSame(spans, BelowBucket(guard, HIST_BUCKETS), guard);
  }
}
