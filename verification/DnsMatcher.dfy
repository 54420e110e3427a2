/** DNS queries and responses: the span matcher keyed by `nd_dns_key`, with its counters and histogram. */
module DnsMatcher {
  import opened Base
  import opened Config
  import opened Keys
  import opened Histogram
  import opened PerCpu
  import Span
  import opened SpanHistogram

  datatype Op =
    | Query(cpu: nat, key: DnsKey, now: u64)
    | Response(cpu: nat, key: DnsKey, rcode: nat, now: u64)
    | Drop(key: DnsKey, cause: Span.Cause)

  datatype State = State(mems: seq<CpuMem>, pending: map<DnsKey, u64>)

  function LatencyUs(pending: map<DnsKey, u64>, key: DnsKey, now: u64): Option<nat> {
    if key in pending then Some(ElapsedUs(pending[key], now)) else None
  }

  function Writes(cfg: Config, pending: map<DnsKey, u64>, op: Op): seq<Write> {
    match op
    case Query(_, _, _) => DnsWrites(cfg, DnsPart.Query)
    case Response(_, key, rcode, now) => DnsWrites(cfg, DnsPart.Response(rcode, LatencyUs(pending, key, now)))
    case Drop(_, _) => []
  }

  function AsSpan(op: Op): Span.Op<DnsKey> {
    match op
    case Query(_, key, now) => Span.Start(key, now)
    case Response(_, key, _, now) => Span.Finish(key, now)
    case Drop(key, cause) => Span.Drop(key, cause)
  }

  function Next(cfg: Config, s: State, op: Op): (r: State)
    ensures |r.mems| == |s.mems|
  {
    State(if !op.Drop? && op.cpu < |s.mems| then RunWrites(s.mems, op.cpu, Writes(cfg, s.pending, op)) else s.mems,
          Span.Next(s.pending, AsSpan(op)))
  }

  function Run(cfg: Config, ncpu: nat, ops: seq<Op>): (s: State)
    ensures |s.mems| == ncpu
  {
    if ops == [] then State(Blank(ncpu), map[])
    else Next(cfg, Run(cfg, ncpu, ops[..|ops| - 1]), ops[|ops| - 1])
  }

  function Spans(ops: seq<Op>): (spans: seq<Span.Op<DnsKey>>)
    ensures |spans| == |ops|
  {
    seq(|ops|, i requires 0 <= i < |ops| => AsSpan(ops[i]))
  }

  ghost predicate CpusExist(ncpu: nat, ops: seq<Op>) {
    forall i :: 0 <= i < |ops| && !ops[i].Drop? ==> ops[i].cpu < ncpu
  }

  lemma SpansPrefix(ops: seq<Op>)
    requires ops != []
    ensures var n := |ops| - 1; Spans(ops)[..n] == Spans(ops[..n]) && Spans(ops)[n] == AsSpan(ops[n])
  {
  }

  /** `nd_dns_pending` is the start map of the span matcher: the latest unanswered, undeleted query. */
  lemma {:induction false} PendingIsSpanMap(cfg: Config, ncpu: nat, ops: seq<Op>)
    ensures Run(cfg, ncpu, ops).pending == Span.Run(Spans(ops))
  {
    if ops != [] {
      PendingIsSpanMap(cfg, ncpu, ops[..|ops| - 1]);
      SpansPrefix(ops);
    }
  }

  /** How one operation moves the cross-CPU total of a cell. */
  lemma StepTotal(cfg: Config, s: State, op: Op, c: Cell)
    requires !op.Drop? ==> op.cpu < |s.mems|
    ensures Total(Next(cfg, s, op).mems, c) == Total(s.mems, c) + EffectAll(Writes(cfg, s.pending, op), c)
  {
    if !op.Drop? {
      TotalAfter(s.mems, op.cpu, Writes(cfg, s.pending, op), c);
    }
  }

  lemma WritesEffect(cfg: Config, pending: map<DnsKey, u64>, op: Op, c: Cell)
    ensures EffectAll(Writes(cfg, pending, op), c)
         == match op
            case Query(_, _, _) => if c == QueryTotal then 1 else 0
            case Response(_, key, rcode, now) =>
              var l := LatencyUs(pending, key, now);
              (if c == ResponseTotal then 1 else 0)
              + (if rcode < DNS_RCODES && c == Rcode(rcode) then 1 else 0)
              + (if 0 < rcode < DNS_RCODES && c == RcodeErrorTotal then 1 else 0)
              + (if l.Some? && l.value > 0 && c == DnsLatency(Bucket(l.value)) then 1 else 0)
              + (if l.Some? && l.value >= cfg.slowDnsUs && c == SlowTotal then 1 else 0)
            case Drop(_, _) => 0
  {
    match op
    case Query(_, _, _) => EffectOne(Inc(QueryTotal), c);
    case Response(_, key, rcode, now) =>
      ResponseEffect(cfg, rcode, LatencyUs(pending, key, now), c);
      LatencyEffect(cfg, LatencyUs(pending, key, now), c);
    case Drop(_, _) =>
  }

  lemma {:induction false} PacketsCounted(cfg: Config, ncpu: nat, ops: seq<Op>)
    requires CpusExist(ncpu, ops)
    ensures var mems := Run(cfg, ncpu, ops).mems;
            && Total(mems, QueryTotal) == Span.Starts(Spans(ops))
            && Total(mems, ResponseTotal) == Span.Finishes(Spans(ops))
  {
    if ops == [] {
      TotalBlank(ncpu, QueryTotal);
      TotalBlank(ncpu, ResponseTotal);
    } else {
      var n := |ops| - 1;
      var s := Run(cfg, ncpu, ops[..n]);
      PacketsCounted(cfg, ncpu, ops[..n]);
      SpansPrefix(ops);
      StepTotal(cfg, s, ops[n], QueryTotal);
      StepTotal(cfg, s, ops[n], ResponseTotal);
      WritesEffect(cfg, s.pending, ops[n], QueryTotal);
      WritesEffect(cfg, s.pending, ops[n], ResponseTotal);
    }
  }

  /** A response is bucketed when at least a microsecond has passed. */
  function Measurable(): (u64, u64) -> bool {
    (start: u64, now: u64) => ElapsedUs(start, now) > 0
  }

  function SlowerThan(us: nat): (u64, u64) -> bool {
    (start: u64, now: u64) => ElapsedUs(start, now) >= us
  }

  lemma BucketStep(cfg: Config, s: State, op: Op, b: nat)
    requires !op.Drop? ==> op.cpu < |s.mems|
    ensures Total(Next(cfg, s, op).mems, DnsLatency(b))
         == Total(s.mems, DnsLatency(b)) + Span.Hit(s.pending, AsSpan(op), InBucket(Measurable(), b))
  {
    StepTotal(cfg, s, op, DnsLatency(b));
    WritesEffect(cfg, s.pending, op, DnsLatency(b));
  }

  lemma SlowStep(cfg: Config, s: State, op: Op)
    requires !op.Drop? ==> op.cpu < |s.mems|
    ensures Total(Next(cfg, s, op).mems, SlowTotal)
         == Total(s.mems, SlowTotal) + Span.Hit(s.pending, AsSpan(op), SlowerThan(cfg.slowDnsUs))
  {
    StepTotal(cfg, s, op, SlowTotal);
    WritesEffect(cfg, s.pending, op, SlowTotal);
  }

  /** Each latency bucket counts exactly the matched responses whose latency falls into it. */
  lemma {:induction false} BucketIsMatched(cfg: Config, ncpu: nat, ops: seq<Op>, b: nat)
    requires CpusExist(ncpu, ops)
    ensures Total(Run(cfg, ncpu, ops).mems, DnsLatency(b)) == Span.MatchedWhere(Spans(ops), InBucket(Measurable(), b))
  {
    if ops == [] {
      TotalBlank(ncpu, DnsLatency(b));
    } else {
      var n := |ops| - 1;
      var s := Run(cfg, ncpu, ops[..n]);
      BucketIsMatched(cfg, ncpu, ops[..n], b);
      PendingIsSpanMap(cfg, ncpu, ops[..n]);
      SpansPrefix(ops);
      BucketStep(cfg, s, ops[n], b);
    }
  }

  /** slow_total counts exactly the matched responses at or above the threshold. */
  lemma {:induction false} SlowIsMatched(cfg: Config, ncpu: nat, ops: seq<Op>)
    requires CpusExist(ncpu, ops)
    ensures Total(Run(cfg, ncpu, ops).mems, SlowTotal) == Span.MatchedWhere(Spans(ops), SlowerThan(cfg.slowDnsUs))
  {
    if ops == [] {
      TotalBlank(ncpu, SlowTotal);
    } else {
      var n := |ops| - 1;
      var s := Run(cfg, ncpu, ops[..n]);
      SlowIsMatched(cfg, ncpu, ops[..n]);
      PendingIsSpanMap(cfg, ncpu, ops[..n]);
      SpansPrefix(ops);
      SlowStep(cfg, s, ops[n]);
    }
  }

  lemma BucketsFilled(cfg: Config, ncpu: nat, ops: seq<Op>)
    requires CpusExist(ncpu, ops)
    ensures Filled(Run(cfg, ncpu, ops).mems, DnsHist, Spans(ops), Measurable())
  {
    forall b: nat | b < HIST_BUCKETS
      ensures Total(Run(cfg, ncpu, ops).mems, HistCell(DnsHist, b))
           == Span.MatchedWhere(Spans(ops), InBucket(Measurable(), b))
    {
      BucketIsMatched(cfg, ncpu, ops, b);
    }
  }

  /**
   The latency histogram in terms of the packets: its cumulative value at `2^i` is the number of
   matched responses that came within `2^i` microseconds of their query, and at least one.
   */
  lemma LatencyIsDirectCounting(cfg: Config, ncpu: nat, ops: seq<Op>, i: nat)
    requires CpusExist(ncpu, ops) && i < HIST_BUCKETS - 1
    ensures Sum(HistTotals(Run(cfg, ncpu, ops).mems, DnsHist)[..i + 1])
         == Span.MatchedWhere(Spans(ops), WithinUs(Measurable(), Pow2(i)))
  {
    BucketsFilled(cfg, ncpu, ops);
    CumulativeIsMatched(Run(cfg, ncpu, ops).mems, DnsHist, Spans(ops), Measurable(), i);
  }

  /**
   The DNS books over whole runs: every query was matched, overwritten, collected, evicted or is
   pending, and the exported series nest: slow responses are bucketed, bucketed responses matched,
   matches bounded by queries and by responses.
   */
  lemma DnsAccounts(cfg: Config, ncpu: nat, ops: seq<Op>)
    requires AllSet(cfg) && CpusExist(ncpu, ops)
    ensures var s, spans := Run(cfg, ncpu, ops), Spans(ops);
            && Total(s.mems, QueryTotal)
               == Span.Matched(spans) + Span.Overwritten(spans) + Span.Dropped(spans, Span.Expired)
                + Span.Dropped(spans, Span.Evicted) + |s.pending|
            && Total(s.mems, SlowTotal) <= Sum(HistTotals(s.mems, DnsHist)) <= Span.Matched(spans)
            && Span.Matched(spans) <= Min(Total(s.mems, QueryTotal), Total(s.mems, ResponseTotal))
  {
    var spans := Spans(ops);
    PendingIsSpanMap(cfg, ncpu, ops);
    PacketsCounted(cfg, ncpu, ops);
    Span.StartsConserved(spans);
    SlowIsMatched(cfg, ncpu, ops);
    BucketsFilled(cfg, ncpu, ops);
    TotalIsMatched(Run(cfg, ncpu, ops).mems, DnsHist, spans, Measurable());
    Span.MatchedBounds(spans, SlowerThan(cfg.slowDnsUs), Measurable());
    Span.MatchedBounds(spans, Measurable(), (s, f) => true);
  }
}
