/**
 The program and the schedules of its handlers. However the writes of the handlers a run of the program
 starts are interleaved, the per-CPU totals end up where the program has them. The sequential
 schedule, each handler started and making all its writes, is one of them.
 */
module Schedule {
  import opened Base
  import opened Config
  import opened Histogram
  import opened PerCpu
  import opened Writers
  import opened Pipeline
  import opened Keys
  import Program
  import UdpFlows
  import DnsMatcher
  import Span
  import TcpLifecycle

  function Execs(cpu: nat, n: nat): (es: seq<Step>)
    ensures |es| == n
  {
    seq(n, _ => Exec(cpu))
  }

  /** A handler started and finished on its CPU. */
  function HandlerSteps(cfg: Config, cpu: nat, hook: Hook): seq<Step> {
    [Launch(cpu, hook)] + Execs(cpu, |WritesOf(cfg, hook)|)
  }

  function OpSteps(cfg: Config, s: Program.State, op: Program.Op): seq<Step> {
    var hook := Program.HookOf(cfg, s, op);
    if hook.Some? then HandlerSteps(cfg, op.cpu, hook.value) else []
  }

  /** The schedule of a run of the program. */
  function Steps(cfg: Config, ncpu: nat, ops: seq<Program.Op>): seq<Step> {
    if ops == [] then []
    else
      var n := |ops| - 1;
      Steps(cfg, ncpu, ops[..n]) + OpSteps(cfg, Program.Run(cfg, ncpu, ops[..n]), ops[n])
  }

  function AtRest(mems: seq<CpuMem>): (s: Sys)
    ensures Shaped(s) && Quiescent(s)
  {
    Sys(mems, seq(|mems|, _ => []))
  }

  lemma {:induction false} ExecAll(cfg: Config, s: Sys, cpu: nat, n: nat)
    requires Shaped(s) && cpu < |s.mems| && n == |s.todo[cpu]|
    ensures Run(cfg, s, Execs(cpu, n)) == Sys(s.mems[cpu := ApplyAll(s.mems[cpu], s.todo[cpu])], s.todo[cpu := []])
    decreases n
  {
    if n == 0 {
      assert s.mems[cpu := s.mems[cpu]] == s.mems && s.todo[cpu := []] == s.todo;
    } else {
      var r := Next(cfg, s, Exec(cpu));
      assert Execs(cpu, n)[0] == Exec(cpu) && Execs(cpu, n)[1..] == Execs(cpu, n - 1);
      ExecAll(cfg, r, cpu, n - 1);
      assert r.mems[cpu := ApplyAll(r.mems[cpu], r.todo[cpu])] == s.mems[cpu := ApplyAll(s.mems[cpu], s.todo[cpu])];
      assert r.todo[cpu := []] == s.todo[cpu := []];
    }
  }

  lemma HandlerRuns(cfg: Config, mems: seq<CpuMem>, cpu: nat, hook: Hook)
    requires cpu < |mems|
    ensures Run(cfg, AtRest(mems), HandlerSteps(cfg, cpu, hook)) == AtRest(RunWrites(mems, cpu, WritesOf(cfg, hook)))
  {
    var s, ws := AtRest(mems), WritesOf(cfg, hook);
    var launched := Next(cfg, s, Launch(cpu, hook));
    assert launched == Sys(mems, s.todo[cpu := ws]) by {
      assert ws + [] == ws;
    }
    assert HandlerSteps(cfg, cpu, hook)[1..] == Execs(cpu, |ws|);
    ExecAll(cfg, launched, cpu, |ws|);
    assert launched.todo[cpu := []] == s.todo;
  }

  /** Running the schedule leads to the memory of the program, with nothing pending. */
  lemma {:induction false} ProgramIsSchedule(cfg: Config, ncpu: nat, ops: seq<Program.Op>)
    requires Program.CpusExist(ncpu, ops)
    ensures Run(cfg, Boot(ncpu), Steps(cfg, ncpu, ops)) == AtRest(Program.Run(cfg, ncpu, ops).mems)
  {
    if ops == [] {
      assert Boot(ncpu).todo == AtRest(Blank(ncpu)).todo;
    } else {
      var n := |ops| - 1;
      var p, op := Program.Run(cfg, ncpu, ops[..n]), ops[n];
      ProgramIsSchedule(cfg, ncpu, ops[..n]);
      RunConcat(cfg, Boot(ncpu), Steps(cfg, ncpu, ops[..n]), OpSteps(cfg, p, op));
      if Program.HookOf(cfg, p, op).Some? {
        HandlerRuns(cfg, p.mems, op.cpu, Program.HookOf(cfg, p, op).value);
      }
    }
  }

  /** The samples the hooks of a run contribute to a histogram, in order. */
  function Samples(cfg: Config, ncpu: nat, ops: seq<Program.Op>, kind: Hist): seq<nat> {
    if ops == [] then []
    else
      var n := |ops| - 1;
      var hook := Program.HookOf(cfg, Program.Run(cfg, ncpu, ops[..n]), ops[n]);
      Samples(cfg, ncpu, ops[..n], kind) + if hook.Some? then AsSeq(SampleOf(hook.value, kind)) else []
  }

  lemma {:induction false} ExecsAddNone(ncpu: nat, es: seq<Step>, cpu: nat, n: nat, kind: Hist)
    ensures AllSamples(ncpu, es + Execs(cpu, n), kind) == AllSamples(ncpu, es, kind)
  {
    if n == 0 {
      assert es + Execs(cpu, 0) == es;
    } else {
      var all := es + Execs(cpu, n);
      assert all[..|all| - 1] == es + Execs(cpu, n - 1);
      ExecsAddNone(ncpu, es, cpu, n - 1, kind);
      var before := AllSamples(ncpu, es, kind);
      assert before + [] == before;
    }
  }

  lemma HandlerAdds(cfg: Config, ncpu: nat, es: seq<Step>, cpu: nat, hook: Hook, kind: Hist)
    requires cpu < ncpu
    ensures AllSamples(ncpu, es + HandlerSteps(cfg, cpu, hook), kind)
         == AllSamples(ncpu, es, kind) + AsSeq(SampleOf(hook, kind))
  {
    var launched, ws := es + [Launch(cpu, hook)], WritesOf(cfg, hook);
    assert es + HandlerSteps(cfg, cpu, hook) == launched + Execs(cpu, |ws|);
    ExecsAddNone(ncpu, launched, cpu, |ws|, kind);
    assert launched[..|es|] == es;
  }

  lemma {:induction false} SamplesAgree(cfg: Config, ncpu: nat, ops: seq<Program.Op>, kind: Hist)
    requires Program.CpusExist(ncpu, ops)
    ensures AllSamples(ncpu, Steps(cfg, ncpu, ops), kind) == Samples(cfg, ncpu, ops, kind)
  {
    if ops != [] {
      var n := |ops| - 1;
      var p, op, es := Program.Run(cfg, ncpu, ops[..n]), ops[n], Steps(cfg, ncpu, ops[..n]);
      SamplesAgree(cfg, ncpu, ops[..n], kind);
      var hook := Program.HookOf(cfg, p, op);
      if hook.Some? {
        HandlerAdds(cfg, ncpu, es, op.cpu, hook.value, kind);
      } else {
        assert es + [] == es;
        var before := Samples(cfg, ncpu, ops[..n], kind);
        assert before + [] == before;
      }
    }
  }

  /**
   From the hooks to the exported histogram: over any run of the program, the cumulative value at
   `2^i` is the number of samples its hooks took that are not above `2^i`, the total their number,
   and four guarded counters equal their buckets.
   */
  lemma ExportedFromProgram(cfg: Config, ncpu: nat, ops: seq<Program.Op>, kind: Hist, i: nat, g: Guard)
    requires AllSet(cfg) && Program.CpusExist(ncpu, ops) && i < HIST_BUCKETS - 1
    ensures var mems, samples := Program.Run(cfg, ncpu, ops).mems, Samples(cfg, ncpu, ops, kind);
            && Sum(HistTotals(mems, kind)[..i + 1]) == CountLe(samples, Pow2(i))
            && Sum(HistTotals(mems, kind)) == |samples|
            && Total(mems, CounterOf(g)) <= Sum(BucketTotals(mems, g))
            && (g != SlowGuard ==> Total(mems, CounterOf(g)) == Sum(BucketTotals(mems, g)))
  {
    ProgramIsSchedule(cfg, ncpu, ops);
    SamplesAgree(cfg, ncpu, ops, kind);
    PipelineExact(cfg, ncpu, Steps(cfg, ncpu, ops), kind, i);
    GuardedAtAllTimes(cfg, ncpu, Steps(cfg, ncpu, ops), g);
  }

  // ---------------------------------------------------------------- any interleaving

  datatype Handler = Handler(cpu: nat, hook: Hook)

  /** The handlers a schedule starts. */
  function Launches(ncpu: nat, es: seq<Step>): seq<Handler> {
    if es == [] then []
    else
      var n := |es| - 1;
      Launches(ncpu, es[..n])
      + if es[n].Launch? && es[n].cpu < ncpu then [Handler(es[n].cpu, es[n].hook)] else []
  }

  /** The handlers a run of the program starts, with what they find in its maps. */
  function Handlers(cfg: Config, ncpu: nat, ops: seq<Program.Op>): seq<Handler> {
    if ops == [] then []
    else
      var n := |ops| - 1;
      var hook := Program.HookOf(cfg, Program.Run(cfg, ncpu, ops[..n]), ops[n]);
      Handlers(cfg, ncpu, ops[..n]) + if hook.Some? then [Handler(ops[n].cpu, hook.value)] else []
  }

  /** What handlers write to a cell, altogether. */
  function EffectSum(cfg: Config, hs: seq<Handler>, c: Cell): int {
    if hs == [] then 0
    else EffectSum(cfg, hs[..|hs| - 1], c) + EffectAll(WritesOf(cfg, hs[|hs| - 1].hook), c)
  }

  lemma EffectSumSnoc(cfg: Config, hs: seq<Handler>, h: Handler, c: Cell)
    ensures EffectSum(cfg, hs + [h], c) == EffectSum(cfg, hs, c) + EffectAll(WritesOf(cfg, h.hook), c)
  {
    assert (hs + [h])[..|hs|] == hs;
  }

  lemma {:induction false} EffectSumConcat(cfg: Config, a: seq<Handler>, b: seq<Handler>, c: Cell)
    ensures EffectSum(cfg, a + b, c) == EffectSum(cfg, a, c) + EffectSum(cfg, b, c)
  {
    if b == [] {
      assert a + b == a;
    } else {
      var n := |b| - 1;
      assert a + b == a + b[..n] + [b[n]];
      EffectSumSnoc(cfg, a + b[..n], b[n], c);
      EffectSumConcat(cfg, a, b[..n], c);
    }
  }

  lemma WithoutOne(b: seq<Handler>, k: nat)
    requires k < |b|
    ensures multiset(b[..k] + b[k + 1..]) == multiset(b) - multiset{b[k]}
  {
    assert b == b[..k] + [b[k]] + b[k + 1..];
    assert multiset(b) == multiset(b[..k]) + multiset{b[k]} + multiset(b[k + 1..]);
    assert multiset(b[..k] + b[k + 1..]) == multiset(b[..k]) + multiset(b[k + 1..]);
  }

  lemma EffectWithoutOne(cfg: Config, b: seq<Handler>, k: nat, c: Cell)
    requires k < |b|
    ensures EffectSum(cfg, b, c) == EffectSum(cfg, b[..k] + b[k + 1..], c) + EffectAll(WritesOf(cfg, b[k].hook), c)
  {
    assert b == b[..k] + [b[k]] + b[k + 1..];
    EffectSumConcat(cfg, b[..k], b[k + 1..], c);
    EffectSumConcat(cfg, b[..k] + [b[k]], b[k + 1..], c);
    EffectSumSnoc(cfg, b[..k], b[k], c);
  }

  /** The last handler of one list, found in the other, and what is left of both. */
  lemma FindLast(a: seq<Handler>, b: seq<Handler>) returns (k: nat)
    requires a != [] && multiset(a) == multiset(b)
    ensures k < |b| && b[k] == a[|a| - 1]
    ensures multiset(a[..|a| - 1]) == multiset(b[..k] + b[k + 1..])
  {
    var n := |a| - 1;
    assert a[n] in multiset(a);
    k :| 0 <= k < |b| && b[k] == a[n];
    WithoutOne(a, n);
    WithoutOne(b, k);
    assert a[..n] + a[n + 1..] == a[..n];
  }

  /** The order in which handlers start does not matter. */
  lemma {:induction false} EffectSumPermuted(cfg: Config, a: seq<Handler>, b: seq<Handler>, c: Cell)
    requires multiset(a) == multiset(b)
    ensures EffectSum(cfg, a, c) == EffectSum(cfg, b, c)
    decreases |a|
  {
    if a == [] {
      assert |multiset(b)| == 0;
    } else {
      var k := FindLast(a, b);
      EffectSumPermuted(cfg, a[..|a| - 1], b[..k] + b[k + 1..], c);
      EffectWithoutOne(cfg, b, k, c);
    }
  }

  /** What has landed in a cell and what is pending for it. */
  function Owed(s: Sys, c: Cell): int {
    Total(s.mems, c) + Pending(s.todo, c)
  }

  /** What a step of the schedule starts for a cell. */
  function Started(cfg: Config, ncpu: nat, e: Step, c: Cell): int {
    if e.Launch? && e.cpu < ncpu then EffectAll(WritesOf(cfg, e.hook), c) else 0
  }

  lemma OwedNext(cfg: Config, s: Sys, e: Step, c: Cell)
    requires Shaped(s)
    ensures Owed(Next(cfg, s, e), c) == Owed(s, c) + Started(cfg, |s.mems|, e, c)
  {
    PendingStep(cfg, s, e, c);
  }

  lemma OwedStep(cfg: Config, ncpu: nat, es: seq<Step>, c: Cell)
    requires es != []
    ensures var n := |es| - 1;
            Owed(Run(cfg, Boot(ncpu), es), c) == Owed(Run(cfg, Boot(ncpu), es[..n]), c) + Started(cfg, ncpu, es[n], c)
  {
    var n := |es| - 1;
    assert es == es[..n] + [es[n]];
    RunSnoc(cfg, Boot(ncpu), es[..n], es[n]);
    OwedNext(cfg, Run(cfg, Boot(ncpu), es[..n]), es[n], c);
  }

  lemma OwedAtBoot(ncpu: nat, c: Cell)
    ensures Owed(Boot(ncpu), c) == 0
  {
    TotalBlank(ncpu, c);
    SumZero(PendingSlots(Boot(ncpu).todo, c));
  }

  /** In every reachable state, what has landed in a cell and what is pending for it is what was started. */
  lemma {:induction false} StartedIsOwed(cfg: Config, ncpu: nat, es: seq<Step>, c: Cell)
    ensures Owed(Run(cfg, Boot(ncpu), es), c) == EffectSum(cfg, Launches(ncpu, es), c)
  {
    if es == [] {
      OwedAtBoot(ncpu, c);
    } else {
      StartedIsOwed(cfg, ncpu, es[..|es| - 1], c);
      OwedStep(cfg, ncpu, es, c);
      LaunchesStep(cfg, ncpu, es, c);
    }
  }

  lemma LaunchesStep(cfg: Config, ncpu: nat, es: seq<Step>, c: Cell)
    requires es != []
    ensures var n := |es| - 1;
            EffectSum(cfg, Launches(ncpu, es), c)
            == EffectSum(cfg, Launches(ncpu, es[..n]), c) + Started(cfg, ncpu, es[n], c)
  {
    var n := |es| - 1;
    var before := Launches(ncpu, es[..n]);
    assert before + [] == before;
    if es[n].Launch? && es[n].cpu < ncpu {
      EffectSumSnoc(cfg, before, Handler(es[n].cpu, es[n].hook), c);
    }
  }

  lemma {:induction false} ProgramIsHandlers(cfg: Config, ncpu: nat, ops: seq<Program.Op>, c: Cell)
    requires Program.CpusExist(ncpu, ops)
    ensures Total(Program.Run(cfg, ncpu, ops).mems, c) == EffectSum(cfg, Handlers(cfg, ncpu, ops), c)
  {
    if ops == [] {
      TotalBlank(ncpu, c);
    } else {
      var n := |ops| - 1;
      var p := Program.Run(cfg, ncpu, ops[..n]);
      var hook, before := Program.HookOf(cfg, p, ops[n]), Handlers(cfg, ncpu, ops[..n]);
      ProgramIsHandlers(cfg, ncpu, ops[..n], c);
      Program.StepTotal(cfg, p, ops[n], c);
      assert before + [] == before;
      if hook.Some? {
        EffectSumSnoc(cfg, before, Handler(ops[n].cpu, hook.value), c);
      }
    }
  }

  /** The schedule starts the handlers of the run, in any order, and their writes land in any order. */
  ghost predicate Schedules(cfg: Config, ncpu: nat, ops: seq<Program.Op>, es: seq<Step>) {
    multiset(Launches(ncpu, es)) == multiset(Handlers(cfg, ncpu, ops))
  }

  /**
   Every schedule of a run leads to the totals of the program: in every state what has landed and what
   is pending together, and with nothing pending what has landed.
   */
  lemma EveryScheduleAgrees(cfg: Config, ncpu: nat, ops: seq<Program.Op>, es: seq<Step>, c: Cell)
    requires Program.CpusExist(ncpu, ops) && Schedules(cfg, ncpu, ops, es)
    ensures var s, p := Run(cfg, Boot(ncpu), es), Program.Run(cfg, ncpu, ops);
            && Owed(s, c) == Total(p.mems, c)
            && (Quiescent(s) ==> Total(s.mems, c) == Total(p.mems, c))
  {
    var s := Run(cfg, Boot(ncpu), es);
    StartedIsOwed(cfg, ncpu, es, c);
    ProgramIsHandlers(cfg, ncpu, ops, c);
    EffectSumPermuted(cfg, Launches(ncpu, es), Handlers(cfg, ncpu, ops), c);
    if Quiescent(s) {
      SumZero(PendingSlots(s.todo, c));
    }
  }

  lemma HistogramsAgree(cfg: Config, ncpu: nat, ops: seq<Program.Op>, es: seq<Step>, kind: Hist)
    requires Program.CpusExist(ncpu, ops) && Schedules(cfg, ncpu, ops, es) && Quiescent(Run(cfg, Boot(ncpu), es))
    ensures HistTotals(Run(cfg, Boot(ncpu), es).mems, kind) == HistTotals(Program.Run(cfg, ncpu, ops).mems, kind)
  {
    var a, b := Run(cfg, Boot(ncpu), es).mems, Program.Run(cfg, ncpu, ops).mems;
    forall i | 0 <= i < HIST_BUCKETS ensures HistTotals(a, kind)[i] == HistTotals(b, kind)[i] {
      EveryScheduleAgrees(cfg, ncpu, ops, es, HistCell(kind, i));
    }
  }

  /** The UDP books hold of every schedule of a run once nothing is pending. */
  lemma UdpBooksInterleaved(cfg: Config, ncpu: nat, ops: seq<Program.Op>, es: seq<Step>, i: nat)
    requires Program.CpusExist(ncpu, ops) && Schedules(cfg, ncpu, ops, es) && Quiescent(Run(cfg, Boot(ncpu), es))
    requires i < HIST_BUCKETS - 1
    ensures var mems, p := Run(cfg, Boot(ncpu), es).mems, Program.Run(cfg, ncpu, ops);
            var flows := Program.Project(ops, Program.UdpOp);
            && Total(mems, PacketTotal)
               == MapSum(UdpFlows.PacketCounts(p.udpFlows)) + UdpFlows.RemovedPackets(cfg, flows)
            && Total(mems, LongFlowTotal) == |UdpFlows.LongDurations(cfg, flows)|
            && Sum(HistTotals(mems, UdpHist)[..i + 1]) == CountLe(UdpFlows.LongDurations(cfg, flows), Pow2(i))
            && (AllSet(cfg) ==> UdpFlows.LongDurations(cfg, flows) == UdpFlows.ReportedSpans(cfg, flows))
  {
    EveryScheduleAgrees(cfg, ncpu, ops, es, PacketTotal);
    EveryScheduleAgrees(cfg, ncpu, ops, es, LongFlowTotal);
    HistogramsAgree(cfg, ncpu, ops, es, UdpHist);
    Program.UdpTotals(cfg, ncpu, ops, 0);
    Program.UdpBooks(cfg, ncpu, ops, i);
  }

  /** So do the DNS books. */
  lemma DnsBooksInterleaved(cfg: Config, ncpu: nat, ops: seq<Program.Op>, es: seq<Step>)
    requires AllSet(cfg) && Program.CpusExist(ncpu, ops)
    requires Schedules(cfg, ncpu, ops, es) && Quiescent(Run(cfg, Boot(ncpu), es))
    ensures var mems, p := Run(cfg, Boot(ncpu), es).mems, Program.Run(cfg, ncpu, ops);
            var spans := DnsMatcher.Spans(Program.Project(ops, Program.DnsOp));
            && Total(mems, QueryTotal)
               == Span.Matched(spans) + Span.Overwritten(spans) + Span.Dropped(spans, Span.Expired)
                + Span.Dropped(spans, Span.Evicted) + |p.pending|
            && Total(mems, SlowTotal) <= Sum(HistTotals(mems, DnsHist)) <= Span.Matched(spans)
            && Span.Matched(spans) <= Min(Total(mems, QueryTotal), Total(mems, ResponseTotal))
  {
    EveryScheduleAgrees(cfg, ncpu, ops, es, QueryTotal);
    EveryScheduleAgrees(cfg, ncpu, ops, es, ResponseTotal);
    EveryScheduleAgrees(cfg, ncpu, ops, es, SlowTotal);
    HistogramsAgree(cfg, ncpu, ops, es, DnsHist);
    Program.DnsBooks(cfg, ncpu, ops, 0);
  }

  /** And the state gauges. */
  lemma GaugeInterleaved(cfg: Config, ncpu: nat, ops: seq<Program.Op>, es: seq<Step>, st: int)
    requires Program.CpusExist(ncpu, ops) && Schedules(cfg, ncpu, ops, es) && Quiescent(Run(cfg, Boot(ncpu), es))
    requires 0 <= st < TCP_STATES && TcpLifecycle.Chained(Program.Project(ops, Program.LifeOp))
    ensures var history := Program.Project(ops, Program.LifeOp);
            Total(Run(cfg, Boot(ncpu), es).mems, Delta(st))
            == |TcpLifecycle.SocksIn(TcpLifecycle.Last(history), {st})|
             - |TcpLifecycle.SocksIn(TcpLifecycle.First(history), {st})|
  {
    EveryScheduleAgrees(cfg, ncpu, ops, es, Delta(st));
    Program.GaugeBooks(cfg, ncpu, ops, st);
  }
}
