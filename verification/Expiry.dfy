/**
 The two expiring tables under their collector: handlers, eviction and a collector that reads and
 deletes in separate steps, interleaved freely on one clock. The history theorems of the tables and
 the staleness theorem of the collector hold together for these runs.
 */
module Expiry {
  import opened Base
  import opened Config
  import opened Keys
  import opened PerCpu
  import UdpFlows
  import DnsMatcher
  import Span
  import Gc

  // ---------------------------------------------------------------- UDP flows

  datatype FlowStep =
    | Packet(key: FlowKey, len: nat)
    | EvictFlow(key: FlowKey)
    | FlowGc(step: Gc.Step<FlowKey>)

  function FlowToGc(e: FlowStep): Gc.Step<FlowKey> {
    match e
    case Packet(key, _) => Gc.Write(key)
    case EvictFlow(key) => Gc.Remove(key)
    case FlowGc(step) => step
  }

  function FlowGcRun(idle: u64, clock: u64, es: seq<FlowStep>): Gc.State<FlowKey> {
    if es == [] then Gc.Start(clock)
    else Gc.Next(idle, FlowGcRun(idle, clock, es[..|es| - 1]), FlowToGc(es[|es| - 1]))
  }

  /** What one step adds to the flow table's run. */
  function FlowAdds(idle: u64, s: Gc.State<FlowKey>, e: FlowStep): seq<UdpFlows.Op> {
    match e
    case Packet(key, len) => [UdpFlows.Packet(key, s.clock, len)]
    case EvictFlow(key) => [UdpFlows.Remove(key)]
    case FlowGc(step) =>
      if Gc.Removed(idle, s, step).Some? then [UdpFlows.Remove(Gc.Removed(idle, s, step).value)] else []
  }

  /** The run as the flow table sees it: packets at the current clock, and removals. */
  function FlowOps(idle: u64, clock: u64, es: seq<FlowStep>): seq<UdpFlows.Op> {
    if es == [] then []
    else
      var n := |es| - 1;
      FlowOps(idle, clock, es[..n]) + FlowAdds(idle, FlowGcRun(idle, clock, es[..n]), es[n])
  }

  function Stamps(t: UdpFlows.Table): map<FlowKey, u64> {
    map k | k in t :: t[k].lastSeen
  }

  ghost predicate FlowRunOk(es: seq<FlowStep>) {
    forall i :: 0 <= i < |es| && es[i].FlowGc? ==> Gc.OwnStep(es[i].step)
  }

  /** What an operation does to the times of the last packets. */
  function Stamped(m: map<FlowKey, u64>, op: UdpFlows.Op): map<FlowKey, u64> {
    if op.Packet? then m[op.key := op.now] else m - {op.key}
  }

  lemma StampsStep(cfg: Config, t: UdpFlows.Table, op: UdpFlows.Op)
    ensures Stamps(UdpFlows.Next(cfg, t, op)) == Stamped(Stamps(t), op)
  {
  }

  /** A step that adds nothing, or one operation, to the flow table's run. */
  lemma AddsStamp(cfg: Config, ops: seq<UdpFlows.Op>, adds: seq<UdpFlows.Op>)
    requires |adds| <= 1
    ensures Stamps(UdpFlows.Run(cfg, ops + adds))
         == var m := Stamps(UdpFlows.Run(cfg, ops)); if adds == [] then m else Stamped(m, adds[0])
  {
    if adds == [] {
      assert ops + adds == ops;
    } else {
      assert (ops + adds)[..|ops|] == ops;
      StampsStep(cfg, UdpFlows.Run(cfg, ops), adds[0]);
    }
  }

  /** The collector's map takes the same step. */
  lemma GcStamps(idle: u64, s: Gc.State<FlowKey>, e: FlowStep)
    requires e.FlowGc? ==> Gc.OwnStep(e.step)
    ensures var adds := FlowAdds(idle, s, e);
            && |adds| <= 1
            && Gc.Next(idle, s, FlowToGc(e)).table == if adds == [] then s.table else Stamped(s.table, adds[0])
  {
    if e.FlowGc? {
      Gc.OwnStepTable(idle, s, e.step);
    }
  }

  /** The collector's view of the flow table is the time of the last packet of every live flow. */
  lemma {:induction false} FlowStamps(cfg: Config, idle: u64, clock: u64, es: seq<FlowStep>)
    requires FlowRunOk(es)
    ensures FlowGcRun(idle, clock, es).table == Stamps(UdpFlows.Run(cfg, FlowOps(idle, clock, es)))
  {
    if es != [] {
      var n := |es| - 1;
      var s := FlowGcRun(idle, clock, es[..n]);
      FlowStamps(cfg, idle, clock, es[..n]);
      GcStamps(idle, s, es[n]);
      AddsStamp(cfg, FlowOps(idle, clock, es[..n]), FlowAdds(idle, s, es[n]));
    }
  }

  lemma {:induction false} FlowClock(idle: u64, clock: u64, es: seq<FlowStep>)
    ensures UdpFlows.ClockMonotone(FlowOps(idle, clock, es))
    ensures forall i :: 0 <= i < |FlowOps(idle, clock, es)| && FlowOps(idle, clock, es)[i].Packet? ==>
              FlowOps(idle, clock, es)[i].now <= FlowGcRun(idle, clock, es).clock
  {
    if es != [] {
      FlowClock(idle, clock, es[..|es| - 1]);
    }
  }

  lemma {:induction false} FlowInv(idle: u64, clock: u64, es: seq<FlowStep>)
    requires clock > 0
    ensures Gc.Inv(idle, FlowGcRun(idle, clock, es)) && Gc.NotBefore(clock, FlowGcRun(idle, clock, es))
  {
    if es == [] {
      Gc.StartInv<FlowKey>(idle, clock);
    } else {
      FlowInv(idle, clock, es[..|es| - 1]);
      Gc.NextInv(idle, FlowGcRun(idle, clock, es[..|es| - 1]), FlowToGc(es[|es| - 1]));
      Gc.NextNotBefore(idle, clock, FlowGcRun(idle, clock, es[..|es| - 1]), FlowToGc(es[|es| - 1]));
    }
  }

  /**
   Flows under their collector: however packets, evictions and the collector's reads and deletes
   interleave, long-flow events of one key keep their distance, and no flow has been idle for longer
   than the timeout plus the time since the last completed pass sampled the clock, counted from the
   start of the run as long as there was none.
   */
  lemma FlowsUnderCollection(cfg: Config, idle: u64, clock: u64, es: seq<FlowStep>, interval: nat)
    requires AllSet(cfg) && clock > 0 && FlowRunOk(es)
    requires FlowGcRun(idle, clock, es).clock + cfg.eventCooldownNs < U64_SIZE
    ensures var ops := FlowOps(idle, clock, es);
            forall key :: UdpFlows.Spaced(UdpFlows.LongTimes(cfg, ops, key), UdpFlows.Gap(cfg))
    ensures var s, t := FlowGcRun(idle, clock, es), UdpFlows.Run(cfg, FlowOps(idle, clock, es));
            s.clock - Gc.Since(clock, s) <= interval ==>
              forall key :: key in t ==> 0 <= s.clock - t[key].lastSeen <= idle + interval
  {
    var s, ops := FlowGcRun(idle, clock, es), FlowOps(idle, clock, es);
    var t := UdpFlows.Run(cfg, ops);
    FlowClock(idle, clock, es);
    FlowStamps(cfg, idle, clock, es);
    FlowInv(idle, clock, es);
    forall key ensures UdpFlows.Spaced(UdpFlows.LongTimes(cfg, ops, key), UdpFlows.Gap(cfg)) {
      UdpFlows.LongTimesSpaced(cfg, ops, key);
    }
    if s.clock - Gc.Since(clock, s) <= interval {
      Gc.AgesBounded(idle, clock, s, interval);
      forall key | key in t ensures 0 <= s.clock - t[key].lastSeen <= idle + interval {
        assert key in s.table && s.table[key] == t[key].lastSeen;
      }
    }
  }

  // ---------------------------------------------------------------- pending DNS queries

  datatype DnsStep =
    | Query(cpu: nat, key: DnsKey)
    | Response(cpu: nat, key: DnsKey, rcode: nat)
    | EvictQuery(key: DnsKey)
    | DnsGc(step: Gc.Step<DnsKey>)

  function DnsToGc(e: DnsStep): Gc.Step<DnsKey> {
    match e
    case Query(_, key) => Gc.Write(key)
    case Response(_, key, _) => Gc.Remove(key)
    case EvictQuery(key) => Gc.Remove(key)
    case DnsGc(step) => step
  }

  function DnsGcRun(timeout: u64, clock: u64, es: seq<DnsStep>): Gc.State<DnsKey> {
    if es == [] then Gc.Start(clock)
    else Gc.Next(timeout, DnsGcRun(timeout, clock, es[..|es| - 1]), DnsToGc(es[|es| - 1]))
  }

  ghost predicate DnsGcOwn(es: seq<DnsStep>) {
    forall i :: 0 <= i < |es| && es[i].DnsGc? ==> Gc.OwnStep(es[i].step)
  }

  ghost predicate DnsRunOk(ncpu: nat, es: seq<DnsStep>) {
    && DnsGcOwn(es)
    && (forall i :: 0 <= i < |es| && (es[i].Query? || es[i].Response?) ==> es[i].cpu < ncpu)
  }

  lemma SpansSnoc(ops: seq<DnsMatcher.Op>, op: DnsMatcher.Op)
    ensures Span.Run(DnsMatcher.Spans(ops + [op]))
         == Span.Next(Span.Run(DnsMatcher.Spans(ops)), DnsMatcher.AsSpan(op))
    ensures Span.Dropped(DnsMatcher.Spans(ops + [op]), Span.Expired)
         == Span.Dropped(DnsMatcher.Spans(ops), Span.Expired)
          + if op.Drop? && op.cause == Span.Expired && op.key in Span.Run(DnsMatcher.Spans(ops)) then 1 else 0
  {
    var spans := DnsMatcher.Spans(ops);
    assert DnsMatcher.Spans(ops + [op]) == spans + [DnsMatcher.AsSpan(op)];
    assert (spans + [DnsMatcher.AsSpan(op)])[..|spans|] == spans;
  }

  /** What one step adds to the matcher's run. */
  function DnsAdds(timeout: u64, s: Gc.State<DnsKey>, e: DnsStep): seq<DnsMatcher.Op> {
    match e
    case Query(cpu, key) => [DnsMatcher.Query(cpu, key, s.clock)]
    case Response(cpu, key, rcode) => [DnsMatcher.Response(cpu, key, rcode, s.clock)]
    case EvictQuery(key) => [DnsMatcher.Drop(key, Span.Evicted)]
    case DnsGc(step) =>
      if Gc.Removed(timeout, s, step).Some?
      then [DnsMatcher.Drop(Gc.Removed(timeout, s, step).value, Span.Expired)]
      else []
  }

  /** The run as the DNS matcher sees it. */
  function DnsOps(timeout: u64, clock: u64, es: seq<DnsStep>): seq<DnsMatcher.Op> {
    if es == [] then []
    else
      var n := |es| - 1;
      DnsOps(timeout, clock, es[..n]) + DnsAdds(timeout, DnsGcRun(timeout, clock, es[..n]), es[n])
  }

  /** The map the collector walks is the matcher's, and what it removed is what the matcher books as expired. */
  ghost predicate SameTables(s: Gc.State<DnsKey>, ops: seq<DnsMatcher.Op>) {
    && s.table == Span.Run(DnsMatcher.Spans(ops))
    && s.removed == Span.Dropped(DnsMatcher.Spans(ops), Span.Expired)
  }

  lemma DnsStepTables(timeout: u64, s: Gc.State<DnsKey>, ops: seq<DnsMatcher.Op>, e: DnsStep)
    requires e.DnsGc? ==> Gc.OwnStep(e.step)
    requires SameTables(s, ops)
    ensures SameTables(Gc.Next(timeout, s, DnsToGc(e)), ops + DnsAdds(timeout, s, e))
  {
    var added := DnsAdds(timeout, s, e);
    if added == [] {
      assert ops + added == ops;
    } else {
      SpansSnoc(ops, added[0]);
      assert added == [added[0]];
    }
    if e.DnsGc? {
      Gc.OwnStepTable(timeout, s, e.step);
    }
  }

  lemma DnsRunSnoc(timeout: u64, clock: u64, es: seq<DnsStep>, e: DnsStep)
    ensures var s := DnsGcRun(timeout, clock, es);
            && DnsGcRun(timeout, clock, es + [e]) == Gc.Next(timeout, s, DnsToGc(e))
            && DnsOps(timeout, clock, es + [e]) == DnsOps(timeout, clock, es) + DnsAdds(timeout, s, e)
  {
    assert (es + [e])[..|es|] == es;
  }

  lemma {:induction false} DnsTables(timeout: u64, clock: u64, es: seq<DnsStep>)
    requires DnsGcOwn(es)
    ensures SameTables(DnsGcRun(timeout, clock, es), DnsOps(timeout, clock, es))
  {
    if es != [] {
      var before, e := es[..|es| - 1], es[|es| - 1];
      DnsTables(timeout, clock, before);
      DnsStepTables(timeout, DnsGcRun(timeout, clock, before), DnsOps(timeout, clock, before), e);
      DnsRunSnoc(timeout, clock, before, e);
      assert es == before + [e];
    }
  }

  lemma {:induction false} DnsInv(timeout: u64, clock: u64, es: seq<DnsStep>)
    requires clock > 0
    ensures Gc.Inv(timeout, DnsGcRun(timeout, clock, es)) && Gc.NotBefore(clock, DnsGcRun(timeout, clock, es))
  {
    if es == [] {
      Gc.StartInv<DnsKey>(timeout, clock);
    } else {
      DnsInv(timeout, clock, es[..|es| - 1]);
      Gc.NextInv(timeout, DnsGcRun(timeout, clock, es[..|es| - 1]), DnsToGc(es[|es| - 1]));
      Gc.NextNotBefore(timeout, clock, DnsGcRun(timeout, clock, es[..|es| - 1]), DnsToGc(es[|es| - 1]));
    }
  }

  lemma {:induction false} DnsCpus(timeout: u64, clock: u64, ncpu: nat, es: seq<DnsStep>)
    requires DnsRunOk(ncpu, es)
    ensures DnsMatcher.CpusExist(ncpu, DnsOps(timeout, clock, es))
  {
    if es != [] {
      DnsCpus(timeout, clock, ncpu, es[..|es| - 1]);
    }
  }

  /**
   Queries under their collector: query_total is the matched, overwritten, collected, evicted and
   pending queries; the collected ones are those the collector really removed, at most what it
   reported; and no pending query is older than the timeout plus the time since the last completed
   pass sampled the clock, counted from the start of the run as long as there was none.
   */
  lemma QueriesUnderCollection(cfg: Config, ncpu: nat, timeout: u64, clock: u64, es: seq<DnsStep>, interval: nat)
    requires AllSet(cfg) && clock > 0 && DnsRunOk(ncpu, es)
    ensures var s, ops := DnsGcRun(timeout, clock, es), DnsOps(timeout, clock, es);
            var d, spans := DnsMatcher.Run(cfg, ncpu, ops), DnsMatcher.Spans(ops);
            && d.pending == s.table
            && Total(d.mems, QueryTotal)
               == Span.Matched(spans) + Span.Overwritten(spans) + s.removed
                + Span.Dropped(spans, Span.Evicted) + |d.pending|
            && s.removed <= s.reported
    ensures var s, d := DnsGcRun(timeout, clock, es), DnsMatcher.Run(cfg, ncpu, DnsOps(timeout, clock, es));
            s.clock - Gc.Since(clock, s) <= interval ==>
              forall key :: key in d.pending ==> 0 <= s.clock - d.pending[key] <= timeout + interval
  {
    var s, ops := DnsGcRun(timeout, clock, es), DnsOps(timeout, clock, es);
    DnsTables(timeout, clock, es);
    DnsInv(timeout, clock, es);
    DnsCpus(timeout, clock, ncpu, es);
    DnsMatcher.PendingIsSpanMap(cfg, ncpu, ops);
    DnsMatcher.DnsAccounts(cfg, ncpu, ops);
    var d := DnsMatcher.Run(cfg, ncpu, ops);
    if s.clock - Gc.Since(clock, s) <= interval {
      Gc.AgesBounded(timeout, clock, s, interval);
    }
  }
}
