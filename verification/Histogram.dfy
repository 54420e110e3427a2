/** Log2 bucketing in the kernel, and the Prometheus form userspace derives from it. */
module Histogram {
  import opened Base

  const HIST_BUCKETS := 32

  function Pow2(i: nat): (p: nat)
    ensures p >= 1
  {
    if i == 0 then 1 else 2 * Pow2(i - 1)
  }

  lemma {:induction false} Pow2Increasing(i: nat, j: nat)
    requires i < j
    ensures 2 * Pow2(i) <= Pow2(j)
  {
    if i + 1 < j {
      Pow2Increasing(i, j - 1);
    }
  }

  /** The base-2 logarithm rounded up, zero for samples up to one. */
  function CeilLog2(v: nat): nat {
    if v <= 1 then 0 else 1 + CeilLog2((v + 1) / 2)
  }

  lemma {:induction false} CeilLog2Bound(v: nat, i: nat)
    ensures CeilLog2(v) <= i <==> v <= Pow2(i)
  {
    if v > 1 && i > 0 {
      CeilLog2Bound((v + 1) / 2, i - 1);
    }
  }

  /** The bucket of a sample; the last bucket takes everything above 2^30. */
  function Bucket(v: nat): (b: nat)
    ensures b < HIST_BUCKETS
  {
    Min(CeilLog2(v), HIST_BUCKETS - 1)
  }

  /** What a bucket index means: for every bound but the last, bucket `<= i` iff sample `<= 2^i`. */
  lemma BucketBound(v: nat, i: nat)
    requires i < HIST_BUCKETS - 1
    ensures Bucket(v) <= i <==> v <= Pow2(i)
  {
    CeilLog2Bound(v, i);
  }

  /** `nd_log2_bucket`: a zero test and a scan that returns at the first covering power of two. */
  method Log2Bucket(v: u64) returns (b: nat)
    ensures b == Bucket(v)
    ensures b < HIST_BUCKETS
    ensures b < HIST_BUCKETS - 1 ==> v <= Pow2(b)
    ensures b > 0 ==> v > Pow2(b - 1)
  {
    if v == 0 {
      return 0;
    }
    var i, bound := 0, 1;
    while i < HIST_BUCKETS - 1
      invariant 0 <= i < HIST_BUCKETS
      invariant bound == Pow2(i)
      invariant i > 0 ==> v > Pow2(i - 1)
    {
      CeilLog2Bound(v, i);
      if v <= bound {
        if i > 0 {
          CeilLog2Bound(v, i - 1);
        }
        return i;
      }
      i, bound := i + 1, 2 * bound;
    }
    CeilLog2Bound(v, i - 1);
    return HIST_BUCKETS - 1;
  }

  // ---------------------------------------------------------------- exported form

  lemma Pow2At63()
    ensures Pow2(63) == 0x8000_0000_0000_0000
  {
    assert Pow2(7) == 128;
    assert Pow2(15) == 0x8000;
    assert Pow2(23) == 0x80_0000;
    assert Pow2(31) == 0x8000_0000;
    assert Pow2(39) == 0x80_0000_0000;
    assert Pow2(47) == 0x8000_0000_0000;
    assert Pow2(55) == 0x80_0000_0000_0000;
  }

  lemma Pow2Fits(i: nat)
    ensures i < 63 ==> Pow2(i) < U64_SIZE
  {
    Pow2At63();
    if i < 63 {
      Pow2Increasing(i, 63);
    }
  }

  /** `log2UpperBound`: the bound a bucket stands for, saturating at the largest 64-bit value. */
  function Log2UpperBound(bucket: nat): (bound: u64)
    ensures bucket < 63 ==> bound == Pow2(bucket)
    ensures bucket >= 63 ==> bound == 0xFFFF_FFFF_FFFF_FFFF
  {
    Pow2Fits(bucket);
    if bucket >= 63 then U64_SIZE - 1 else Pow2(bucket)
  }

  /** Each bucket weighted with its upper bound. */
  function Weighted(counts: seq<nat>): nat {
    if counts == [] then 0
    else
      var n := |counts| - 1;
      Weighted(counts[..n]) + counts[n] * Log2UpperBound(n)
  }

  /** Bucket by bucket, the estimate is the count times the power of two. */
  lemma {:induction false} WeightedIsSum(counts: seq<nat>)
    requires |counts| <= 63
    ensures Weighted(counts) == Sum(seq(|counts|, i requires 0 <= i < |counts| => counts[i] * Pow2(i)))
  {
    if counts != [] {
      var n := |counts| - 1;
      var terms := seq(|counts|, i requires 0 <= i < |counts| => counts[i] * Pow2(i));
      WeightedIsSum(counts[..n]);
      assert terms[..n] == seq(n, i requires 0 <= i < n => counts[..n][i] * Pow2(i));
    }
  }

  /** The cumulative counts of the first `n` buckets, keyed by bucket bound. */
  function Cumulative(counts: seq<nat>, n: nat): map<nat, int>
    requires n <= |counts|
  {
    if n == 0 then map[] else Cumulative(counts, n - 1)[Pow2(n - 1) := Sum(counts[..n])]
  }

  lemma {:induction false} CumulativeAt(counts: seq<nat>, n: nat, i: nat)
    requires n <= |counts|
    ensures i < n ==> Pow2(i) in Cumulative(counts, n) && Cumulative(counts, n)[Pow2(i)] == Sum(counts[..i + 1])
    ensures i >= n ==> Pow2(i) !in Cumulative(counts, n)
    ensures |Cumulative(counts, n)| == n
  {
    if n > 0 {
      CumulativeAt(counts, n - 1, i);
      CumulativeAt(counts, n - 1, n - 1);
      if i < n - 1 {
        Pow2Increasing(i, n - 1);
      } else if i >= n {
        Pow2Increasing(n - 1, i);
      }
    }
  }

  /** `emitLog2Histogram`: total, estimated sum and the cumulative counts keyed by bucket bound. */
  method EmitLog2Histogram(counts: seq<nat>) returns (total: int, estimatedSum: nat, cumulative: map<nat, int>)
    requires |counts| == HIST_BUCKETS
    ensures total == Sum(counts)
    ensures estimatedSum == Weighted(counts)
    ensures estimatedSum == Sum(seq(32, i requires 0 <= i < 32 => counts[i] * Pow2(i)))
    ensures |cumulative| == HIST_BUCKETS - 1
    ensures forall i: nat :: i < HIST_BUCKETS - 1 ==>
              Pow2(i) in cumulative && cumulative[Pow2(i)] == Sum(counts[..i + 1])
  {
    total, estimatedSum := 0, 0;
    for i := 0 to HIST_BUCKETS
      invariant total == Sum(counts[..i]) && estimatedSum == Weighted(counts[..i])
    {
      assert counts[..i + 1][..i] == counts[..i];
      total := total + counts[i];
      estimatedSum := estimatedSum + counts[i] * Log2UpperBound(i);
    }
    assert counts[..HIST_BUCKETS] == counts;
    WeightedIsSum(counts);

    cumulative := map[];
    var running := 0;
    for i := 0 to HIST_BUCKETS - 1
      invariant running == Sum(counts[..i])
      invariant cumulative == Cumulative(counts, i)
    {
      assert counts[..i + 1][..i] == counts[..i];
      running := running + counts[i];
      cumulative := cumulative[Log2UpperBound(i) := running];
    }
    forall i: nat
      ensures i < HIST_BUCKETS - 1 ==> Pow2(i) in cumulative && cumulative[Pow2(i)] == Sum(counts[..i + 1])
    {
      CumulativeAt(counts, HIST_BUCKETS - 1, i);
    }
    CumulativeAt(counts, HIST_BUCKETS - 1, 0);
  }

  // ---------------------------------------------------------------- direct counting

  function CountLe(samples: seq<nat>, bound: nat): nat {
    if samples == [] then 0
    else CountLe(samples[..|samples| - 1], bound) + if samples[|samples| - 1] <= bound then 1 else 0
  }

  function CountBucket(samples: seq<nat>, b: nat): nat {
    if samples == [] then 0
    else CountBucket(samples[..|samples| - 1], b) + if Bucket(samples[|samples| - 1]) == b then 1 else 0
  }

  function CountZero(samples: seq<nat>): nat {
    CountLe(samples, 0)
  }

  /** The bucket array a stream of samples leaves behind. */
  function Tally(samples: seq<nat>): (counts: seq<nat>)
    ensures |counts| == HIST_BUCKETS
  {
    seq(HIST_BUCKETS, i requires 0 <= i => CountBucket(samples, i))
  }

  lemma TallyStep(samples: seq<nat>, v: nat)
    ensures Tally(samples + [v]) == Tally(samples)[Bucket(v) := Tally(samples)[Bucket(v)] + 1]
  {
    assert (samples + [v])[..|samples|] == samples;
  }

  /**
   The exported histogram is direct counting: the cumulative value at `2^i` is the number of
   samples not above `2^i`, and the total is the number of samples.
   */
  lemma {:induction false} ExportIsDirectCounting(samples: seq<nat>, i: nat)
    requires i < HIST_BUCKETS - 1
    ensures Sum(Tally(samples)[..i + 1]) == CountLe(samples, Pow2(i))
    ensures Sum(Tally(samples)) == |samples|
  {
    if samples == [] {
      SumZero(Tally(samples)[..i + 1]);
      SumZero(Tally(samples));
    } else {
      var n := |samples| - 1;
      var rest, v := samples[..n], samples[n];
      var t, b := Tally(rest), Bucket(v);
      assert samples == rest + [v];
      TallyStep(rest, v);
      ExportIsDirectCounting(rest, i);
      SumUpdate(t, b, t[b] + 1);
      BucketBound(v, i);
      if b <= i {
        assert t[b := t[b] + 1][..i + 1] == t[..i + 1][b := t[b] + 1];
        SumUpdate(t[..i + 1], b, t[b] + 1);
      } else {
        assert t[b := t[b] + 1][..i + 1] == t[..i + 1];
      }
    }
  }

  // ---------------------------------------------------------------- the estimated sum

  lemma {:induction false} WeightedUpdate(counts: seq<nat>, b: nat)
    requires b < |counts|
    ensures Weighted(counts[b := counts[b] + 1]) == Weighted(counts) + Log2UpperBound(b)
  {
    var n := |counts| - 1;
    var up := counts[b := counts[b] + 1];
    if b == n {
      assert up[..n] == counts[..n];
      assert (counts[n] + 1) * Log2UpperBound(n) == counts[n] * Log2UpperBound(n) + Log2UpperBound(n);
    } else {
      assert up[..n] == counts[..n][b := counts[b] + 1];
      WeightedUpdate(counts[..n], b);
    }
  }

  lemma {:induction false} WeightedZero(counts: seq<nat>)
    requires forall i :: 0 <= i < |counts| ==> counts[i] == 0
    ensures Weighted(counts) == 0
  {
    if counts != [] {
      WeightedZero(counts[..|counts| - 1]);
    }
  }

  lemma {:induction false} CeilLog2Tight(v: nat)
    requires v > 1
    ensures v <= Pow2(CeilLog2(v)) < 2 * v
  {
    CeilLog2Bound(v, CeilLog2(v));
    CeilLog2Bound(v, CeilLog2(v) - 1);
  }

  /** A single sample against the bound of its bucket. */
  lemma SampleEstimate(v: nat)
    ensures Log2UpperBound(Bucket(v)) <= 2 * v + (if v == 0 then 1 else 0)
    ensures v <= Log2UpperBound(Bucket(v)) <==> v <= Pow2(HIST_BUCKETS - 1)
  {
    var b, top := CeilLog2(v), HIST_BUCKETS - 1;
    CeilLog2Bound(v, top);
    if v > 1 {
      CeilLog2Tight(v);
      if b > top {
        Pow2Increasing(top, b);
      }
    }
  }

  lemma {:induction false} EstimateStep(samples: seq<nat>)
    requires samples != []
    ensures var n := |samples| - 1;
            Weighted(Tally(samples)) == Weighted(Tally(samples[..n])) + Log2UpperBound(Bucket(samples[n]))
  {
    var n := |samples| - 1;
    assert samples == samples[..n] + [samples[n]];
    TallyStep(samples[..n], samples[n]);
    WeightedUpdate(Tally(samples[..n]), Bucket(samples[n]));
  }

  /** The exported `_sum` is never more than twice the true sum plus the number of zero samples. */
  lemma {:induction false} EstimateUpper(samples: seq<nat>)
    ensures Weighted(Tally(samples)) <= 2 * Sum(samples) + CountZero(samples)
  {
    if samples == [] {
      WeightedZero(Tally(samples));
    } else {
      EstimateStep(samples);
      SampleEstimate(samples[|samples| - 1]);
      EstimateUpper(samples[..|samples| - 1]);
    }
  }

  lemma {:induction false} EstimateLower(samples: seq<nat>)
    requires forall i :: 0 <= i < |samples| ==> samples[i] <= Pow2(HIST_BUCKETS - 1)
    ensures Sum(samples) <= Weighted(Tally(samples))
  {
    if samples != [] {
      EstimateStep(samples);
      SampleEstimate(samples[|samples| - 1]);
      EstimateLower(samples[..|samples| - 1]);
    }
  }

  lemma {:induction false} WeightedMonotone(s: seq<nat>, t: seq<nat>)
    requires |s| == |t|
    requires forall i :: 0 <= i < |s| ==> s[i] <= t[i]
    ensures Weighted(s) <= Weighted(t)
  {
    if s != [] {
      var n := |s| - 1;
      WeightedMonotone(s[..n], t[..n]);
      MulMonotone(s[n], t[n], Log2UpperBound(n));
    }
  }

  /** One sample above 2^31 is enough for the estimate to fall short. */
  lemma EstimateMayFall(v: nat)
    requires v > Pow2(HIST_BUCKETS - 1)
    ensures Weighted(Tally([v])) < Sum([v])
  {
    var one := [v];
    EstimateStep(one);
    assert one[..0] == [];
    WeightedZero(Tally([]));
    SampleEstimate(v);
  }

  ghost predicate Conservative(maxSample: nat) {
    forall samples: seq<nat> | forall i :: 0 <= i < |samples| ==> samples[i] <= maxSample ::
      Sum(samples) <= Weighted(Tally(samples))
  }

  /**
   `_sum` is called a conservative estimate in the source. It is one for all streams drawn from
   samples up to `maxSample` exactly when `maxSample <= 2^31`: the overflow bucket is valued at 2^31.
   */
  lemma EstimateConservativeExactly(maxSample: nat)
    ensures Conservative(maxSample) <==> maxSample <= Pow2(HIST_BUCKETS - 1)
  {
    if maxSample <= Pow2(HIST_BUCKETS - 1) {
      forall samples: seq<nat> | forall i :: 0 <= i < |samples| ==> samples[i] <= maxSample
        ensures Sum(samples) <= Weighted(Tally(samples))
      {
        EstimateLower(samples);
      }
    } else {
      EstimateMayFall(maxSample);
      assert !(Sum([maxSample]) <= Weighted(Tally([maxSample])));
    }
  }

  /** The value of the overflow bucket. */
  lemma TopBound()
    ensures Pow2(HIST_BUCKETS - 1) == 0x8000_0000
  {
    assert Pow2(31) == 0x8000_0000 by {
      assert Pow2(7) == 128;
      assert Pow2(15) == 0x8000;
      assert Pow2(23) == 0x80_0000;
    }
  }
}
