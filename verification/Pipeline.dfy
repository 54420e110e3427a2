/**
 From a sample to the exported histogram. Every sample of a started handler run is either in a
 bucket or in a pending write, so at rest the exported form counts samples directly.
 */
module Pipeline {
  import opened Base
  import opened Config
  import opened Histogram
  import opened PerCpu
  import opened Writers

  /** The sample a handler run contributes to a histogram, if any. */
  function SampleOf(h: Hook, kind: Hist): Option<nat> {
    match (h, kind)
    case (RcvEstablished(srttUs, _), SrttHist) => if srttUs > 0 then Some(srttUs) else None
    case (RcvEstablished(_, cwnd), CwndHist) => if cwnd > 0 then Some(cwnd) else None
    case (Datagram(longUs, _), UdpHist) => longUs
    case (Datagram(_, Response(_, Some(l))), DnsHist) => if l > 0 then Some(l) else None
    case (Switch(latencyUs), RunqHist) => latencyUs
    case _ => None
  }

  function AsSeq(v: Option<nat>): seq<nat> {
    if v.Some? then [v.value] else []
  }

  /** All samples of the handler runs launched on existing CPUs. */
  function AllSamples(ncpu: nat, es: seq<Step>, kind: Hist): seq<nat> {
    if es == [] then []
    else
      var n := |es| - 1;
      AllSamples(ncpu, es[..n], kind)
      + if es[n].Launch? && es[n].cpu < ncpu then AsSeq(SampleOf(es[n].hook, kind)) else []
  }

  /** The samples of the SRTT histogram never reach the overflow bucket. */
  lemma {:induction false} SrttSamplesInRange(ncpu: nat, es: seq<Step>)
    ensures forall i :: 0 <= i < |AllSamples(ncpu, es, SrttHist)| ==>
              AllSamples(ncpu, es, SrttHist)[i] <= Pow2(HIST_BUCKETS - 1)
  {
    if es != [] {
      SrttSamplesInRange(ncpu, es[..|es| - 1]);
      TopBound();
    }
  }

  function Hit(v: Option<nat>, b: nat): int {
    if v.Some? && Bucket(v.value) == b then 1 else 0
  }

  function Pending(todo: seq<seq<Write>>, c: Cell): int {
    Sum(PendingSlots(todo, c))
  }

  function PendingSlots(todo: seq<seq<Write>>, c: Cell): seq<int> {
    seq(|todo|, i requires 0 <= i < |todo| => EffectAll(todo[i], c))
  }

  lemma DatagramSample(cfg: Config, longUs: Option<nat>, dns: DnsPart, kind: Hist, b: nat)
    ensures var h := Datagram(longUs, dns);
            EffectAll(WritesOf(cfg, h), HistCell(kind, b)) == Hit(SampleOf(h, kind), b)
  {
    var c := HistCell(kind, b);
    EffectConcat(PacketWrites(longUs), DnsWrites(cfg, dns), c);
    PacketEffect(longUs, c);
    match dns
    case NoDns =>
    case Query => EffectOne(Inc(QueryTotal), c);
    case Response(rcode, latencyUs) =>
      ResponseEffect(cfg, rcode, latencyUs, c);
      LatencyEffect(cfg, latencyUs, c);
  }

  lemma HookSample(cfg: Config, h: Hook, kind: Hist, b: nat)
    ensures EffectAll(WritesOf(cfg, h), HistCell(kind, b)) == Hit(SampleOf(h, kind), b)
  {
    var c := HistCell(kind, b);
    match h
    case RcvEstablished(srttUs, cwnd) => RcvEstablishedEffect(srttUs, cwnd, c);
    case Retransmit(burst) => RetransmitEffect(burst, c);
    case SetState(oldState, newState, durUs) =>
      SetStateEffect(cfg, oldState, newState, durUs, c);
      LifecycleEffect(cfg, oldState, newState, durUs, c);
    case Datagram(longUs, dns) => DatagramSample(cfg, longUs, dns, kind, b);
    case Switch(latencyUs) =>
      if latencyUs.Some? {
        EffectOne(Inc(Runqlat(Bucket(latencyUs.value))), c);
      }
  }

  /** What a step adds to a bucket in the end. */
  function LaunchHit(ncpu: nat, e: Step, kind: Hist, b: nat): int {
    if e.Launch? && e.cpu < ncpu then Hit(SampleOf(e.hook, kind), b) else 0
  }

  lemma SamplesStep(ncpu: nat, es: seq<Step>, kind: Hist, b: nat)
    requires es != []
    ensures var n := |es| - 1;
            CountBucket(AllSamples(ncpu, es, kind), b)
            == CountBucket(AllSamples(ncpu, es[..n], kind), b) + LaunchHit(ncpu, es[n], kind, b)
  {
    var n := |es| - 1;
    var before := AllSamples(ncpu, es[..n], kind);
    assert before + [] == before;
    if es[n].Launch? && SampleOf(es[n].hook, kind).Some? {
      var after := before + [SampleOf(es[n].hook, kind).value];
      assert after[..|before|] == before;
    }
  }

  lemma PendingStep(cfg: Config, s: Sys, e: Step, c: Cell)
    requires Shaped(s)
    ensures var r := Next(cfg, s, e);
            Total(r.mems, c) + Pending(r.todo, c) == Total(s.mems, c) + Pending(s.todo, c)
              + if e.Launch? && e.cpu < |s.mems| then EffectAll(WritesOf(cfg, e.hook), c) else 0
  {
    if e.cpu < |s.mems| {
      var r, p := Next(cfg, s, e), PendingSlots(s.todo, c);
      var ws := s.todo[e.cpu];
      if e.Launch? {
        var x := EffectAll(r.todo[e.cpu], c);
        EffectConcat(WritesOf(cfg, e.hook), ws, c);
        SumUpdate(p, e.cpu, x);
        assert PendingSlots(r.todo, c) == p[e.cpu := x];
      } else if ws != [] {
        var x := EffectAll(ws[1..], c);
        SumUpdate(p, e.cpu, x);
        assert PendingSlots(r.todo, c) == p[e.cpu := x];
        assert ApplyAll(s.mems[e.cpu], [ws[0]]) == Apply(s.mems[e.cpu], ws[0]) by {
          assert [ws[0]][1..] == [];
        }
        EffectOne(ws[0], c);
        TotalAfter(s.mems, e.cpu, [ws[0]], c);
      }
    }
  }

  lemma RunSnoc(cfg: Config, s: Sys, es: seq<Step>, e: Step)
    requires Shaped(s)
    ensures Run(cfg, s, es + [e]) == Next(cfg, Run(cfg, s, es), e)
  {
    RunConcat(cfg, s, es, [e]);
    assert [e][1..] == [];
  }

  /** A bucket's total with the writes still pending for it. */
  function Due(s: Sys, kind: Hist, b: nat): int {
    Total(s.mems, HistCell(kind, b)) + Pending(s.todo, HistCell(kind, b))
  }

  lemma DueStep(cfg: Config, s: Sys, e: Step, kind: Hist, b: nat)
    requires Shaped(s)
    ensures Due(Next(cfg, s, e), kind, b) == Due(s, kind, b) + LaunchHit(|s.mems|, e, kind, b)
  {
    PendingStep(cfg, s, e, HistCell(kind, b));
    if e.Launch? {
      HookSample(cfg, e.hook, kind, b);
    }
  }

  lemma DueBoot(ncpu: nat, kind: Hist, b: nat)
    ensures Due(Boot(ncpu), kind, b) == 0
  {
    TotalBlank(ncpu, HistCell(kind, b));
    SumZero(PendingSlots(Boot(ncpu).todo, HistCell(kind, b)));
  }

  /** In every reachable state each sample started is in its bucket or in a pending write. */
  lemma {:induction false} NothingLost(cfg: Config, ncpu: nat, es: seq<Step>, kind: Hist, b: nat)
    ensures Due(Run(cfg, Boot(ncpu), es), kind, b) == CountBucket(AllSamples(ncpu, es, kind), b)
  {
    if es == [] {
      DueBoot(ncpu, kind, b);
    } else {
      var before, e := es[..|es| - 1], es[|es| - 1];
      NothingLost(cfg, ncpu, before, kind, b);
      assert es == before + [e];
      RunSnoc(cfg, Boot(ncpu), before, e);
      DueStep(cfg, Run(cfg, Boot(ncpu), before), e, kind, b);
      SamplesStep(ncpu, es, kind, b);
    }
  }

  lemma {:induction false} EffectNonNegative(ws: seq<Write>, kind: Hist, b: nat)
    ensures EffectAll(ws, HistCell(kind, b)) >= 0
  {
    if ws != [] {
      EffectNonNegative(ws[1..], kind, b);
    }
  }

  /** What has landed in a bucket never exceeds the samples started. */
  lemma LandedAtMostStarted(cfg: Config, ncpu: nat, es: seq<Step>, kind: Hist, b: nat)
    ensures Total(Run(cfg, Boot(ncpu), es).mems, HistCell(kind, b)) <= CountBucket(AllSamples(ncpu, es, kind), b)
  {
    var todo := Run(cfg, Boot(ncpu), es).todo;
    var pending := PendingSlots(todo, HistCell(kind, b));
    NothingLost(cfg, ncpu, es, kind, b);
    forall cpu | 0 <= cpu < |todo| ensures pending[cpu] >= 0 {
      EffectNonNegative(todo[cpu], kind, b);
    }
    var none := seq(|todo|, _ => 0);
    SumZero(none);
    SumMonotone(none, pending);
  }

  /** With nothing pending, the cross-CPU bucket totals are the tally of all samples. */
  lemma RestIsTally(cfg: Config, ncpu: nat, es: seq<Step>, kind: Hist)
    requires Quiescent(Run(cfg, Boot(ncpu), es))
    ensures HistTotals(Run(cfg, Boot(ncpu), es).mems, kind) == Tally(AllSamples(ncpu, es, kind))
  {
    var s := Run(cfg, Boot(ncpu), es);
    forall b | 0 <= b < HIST_BUCKETS
      ensures HistTotals(s.mems, kind)[b] == Tally(AllSamples(ncpu, es, kind))[b]
    {
      NothingLost(cfg, ncpu, es, kind, b);
      SumZero(PendingSlots(s.todo, HistCell(kind, b)));
    }
  }

  /**
   Bucketing in the kernel, summation over CPUs and the exported cumulative form together count
   samples directly: whatever CPUs the handlers ran on and however they interleaved, once nothing is
   pending the value at `2^i` is the number of samples not above `2^i`.
   */
  lemma PipelineExact(cfg: Config, ncpu: nat, es: seq<Step>, kind: Hist, i: nat)
    requires i < HIST_BUCKETS - 1
    requires Quiescent(Run(cfg, Boot(ncpu), es))
    ensures var samples := AllSamples(ncpu, es, kind);
            var counts := HistTotals(Run(cfg, Boot(ncpu), es).mems, kind);
            && Sum(counts[..i + 1]) == CountLe(samples, Pow2(i))
            && Sum(counts) == |samples|
  {
    RestIsTally(cfg, ncpu, es, kind);
    ExportIsDirectCounting(AllSamples(ncpu, es, kind), i);
  }
}
