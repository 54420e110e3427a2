/** Scheduler wakeups and switches: the span matcher keyed by pid, with the run-queue histogram. */
module RunQueue {
  import opened Base
  import opened Histogram
  import opened PerCpu
  import Span
  import opened SpanHistogram

  datatype Op =
    | Wakeup(pid: nat, now: u64)
    | SwitchIn(cpu: nat, pid: nat, now: u64)
    | EvictStart(pid: nat)

  datatype State = State(mems: seq<CpuMem>, start: map<nat, u64>)

  /** The latency recorded at a switch: only when a wakeup is known and the clock has advanced. */
  function RunqlatUs(start: map<nat, u64>, pid: nat, now: u64): Option<nat> {
    if pid in start && now > start[pid] then Some(ElapsedUs(start[pid], now)) else None
  }

  /** Both hooks ignore pid 0. */
  function NextStart(start: map<nat, u64>, op: Op): map<nat, u64> {
    match op
    case Wakeup(pid, now) => if pid == 0 then start else start[pid := now]
    case SwitchIn(_, pid, _) => if pid == 0 then start else start - {pid}
    case EvictStart(pid) => start - {pid}
  }

  function NextMems(s: State, op: Op): (mems: seq<CpuMem>)
    ensures |mems| == |s.mems|
  {
    if op.SwitchIn? && op.pid != 0 && op.cpu < |s.mems|
    then RunWrites(s.mems, op.cpu, SwitchWrites(RunqlatUs(s.start, op.pid, op.now)))
    else s.mems
  }

  function Next(s: State, op: Op): (r: State)
    ensures |r.mems| == |s.mems|
  {
    State(NextMems(s, op), NextStart(s.start, op))
  }

  function Run(ncpu: nat, ops: seq<Op>): (s: State)
    ensures |s.mems| == ncpu
  {
    if ops == [] then State(Blank(ncpu), map[])
    else Next(Run(ncpu, ops[..|ops| - 1]), ops[|ops| - 1])
  }

  ghost predicate CpusExist(ncpu: nat, ops: seq<Op>) {
    forall i :: 0 <= i < |ops| && ops[i].SwitchIn? ==> ops[i].cpu < ncpu
  }

  /** An operation as a span operation; those of pid 0 are invisible. */
  function AsSpan(op: Op): Option<Span.Op<nat>> {
    match op
    case Wakeup(pid, now) => if pid == 0 then None else Some(Span.Start(pid, now))
    case SwitchIn(_, pid, now) => if pid == 0 then None else Some(Span.Finish(pid, now))
    case EvictStart(pid) => Some(Span.Drop(pid, Span.Evicted))
  }

  function Spans(ops: seq<Op>): seq<Span.Op<nat>> {
    if ops == [] then []
    else
      var n := |ops| - 1;
      if AsSpan(ops[n]).None? then Spans(ops[..n]) else Spans(ops[..n]) + [AsSpan(ops[n]).value]
  }

  lemma {:induction false} StartIsSpanMap(ncpu: nat, ops: seq<Op>)
    ensures Run(ncpu, ops).start == Span.Run(Spans(ops))
  {
    if ops != [] {
      var n := |ops| - 1;
      StartIsSpanMap(ncpu, ops[..n]);
      if AsSpan(ops[n]).Some? {
        Span.RunSnoc(Spans(ops[..n]), AsSpan(ops[n]).value);
      }
    }
  }

  function Advanced(): (u64, u64) -> bool {
    (start: u64, now: u64) => now > start
  }

  function NotAdvanced(): (u64, u64) -> bool {
    (start: u64, now: u64) => now <= start
  }

  /** Each bucket counts exactly the matched switches whose latency falls into it. */
  lemma {:induction false} BucketIsMatched(ncpu: nat, ops: seq<Op>, b: nat)
    requires CpusExist(ncpu, ops)
    ensures Total(Run(ncpu, ops).mems, Runqlat(b)) == Span.MatchedWhere(Spans(ops), InBucket(Advanced(), b))
  {
    if ops == [] {
      TotalBlank(ncpu, Runqlat(b));
    } else {
      var n := |ops| - 1;
      var s, op := Run(ncpu, ops[..n]), ops[n];
      BucketIsMatched(ncpu, ops[..n], b);
      StartIsSpanMap(ncpu, ops[..n]);
      BucketStep(s, op, b);
      if AsSpan(op).Some? {
        Span.MatchedSnoc(Spans(ops[..n]), AsSpan(op).value, InBucket(Advanced(), b));
      }
    }
  }

  lemma BucketStep(s: State, op: Op, b: nat)
    requires op.SwitchIn? ==> op.cpu < |s.mems|
    ensures Total(Next(s, op).mems, Runqlat(b))
         == Total(s.mems, Runqlat(b))
          + if AsSpan(op).Some? then Span.Hit(s.start, AsSpan(op).value, InBucket(Advanced(), b)) else 0
  {
    if op.SwitchIn? && op.pid != 0 {
      var l := RunqlatUs(s.start, op.pid, op.now);
      TotalAfter(s.mems, op.cpu, SwitchWrites(l), Runqlat(b));
      SwitchEffect(l, b);
    }
  }

  lemma BucketsFilled(ncpu: nat, ops: seq<Op>)
    requires CpusExist(ncpu, ops)
    ensures Filled(Run(ncpu, ops).mems, RunqHist, Spans(ops), Advanced())
  {
    forall b: nat | b < HIST_BUCKETS
      ensures Total(Run(ncpu, ops).mems, HistCell(RunqHist, b))
           == Span.MatchedWhere(Spans(ops), InBucket(Advanced(), b))
    {
      BucketIsMatched(ncpu, ops, b);
    }
  }

  /**
   The run-queue histogram in terms of the scheduler: its cumulative value at `2^i` is the number of
   switches that came later than their wakeup, but within `2^i` microseconds.
   */
  lemma RunqlatIsDirectCounting(ncpu: nat, ops: seq<Op>, i: nat)
    requires CpusExist(ncpu, ops) && i < HIST_BUCKETS - 1
    ensures Sum(HistTotals(Run(ncpu, ops).mems, RunqHist)[..i + 1])
         == Span.MatchedWhere(Spans(ops), WithinUs(Advanced(), Pow2(i)))
  {
    BucketsFilled(ncpu, ops);
    CumulativeIsMatched(Run(ncpu, ops).mems, RunqHist, Spans(ops), Advanced(), i);
  }

  /**
   Wakeups recorded are the histogram samples, the overwritten wakeups, the matches discarded because
   the clock had not advanced, the evicted entries and those still waiting.
   */
  lemma WakeupsConserved(ncpu: nat, ops: seq<Op>)
    requires CpusExist(ncpu, ops)
    ensures var s, spans := Run(ncpu, ops), Spans(ops);
            Span.Starts(spans)
            == Sum(HistTotals(s.mems, RunqHist)) + Span.MatchedWhere(spans, NotAdvanced())
             + Span.Overwritten(spans) + Span.Dropped(spans, Span.Evicted) + |s.start|
  {
    var spans := Spans(ops);
    StartIsSpanMap(ncpu, ops);
    Span.StartsConserved(spans);
    BucketsFilled(ncpu, ops);
    TotalIsMatched(Run(ncpu, ops).mems, RunqHist, spans, Advanced());
    Span.MatchedSplit(spans, (s, f) => true, Advanced(), NotAdvanced());
    NothingExpires(ops);
  }

  /** No collector touches this map. */
  lemma {:induction false} NothingExpires(ops: seq<Op>)
    ensures Span.Dropped(Spans(ops), Span.Expired) == 0
  {
    if ops != [] {
      var n := |ops| - 1;
      NothingExpires(ops[..n]);
      if AsSpan(ops[n]).Some? {
        assert Spans(ops)[..|Spans(ops)| - 1] == Spans(ops[..n]);
      }
    }
  }
}
