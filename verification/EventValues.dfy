/**
 What the events of a run say: for every kind, the events whose values satisfy any condition are
 counted by the operations of the table's history at which the documented values satisfy it.
 */
module EventValues {
  import opened Base
  import opened Config
  import opened Keys
  import opened PerCpu
  import opened Events
  import opened EventBooks
  import Retrans
  import TcpFlow
  import TcpLifecycle
  import UdpFlows
  import DnsMatcher
  import Span
  import Hooks
  import P = Program

  /** Operations of a history at which, taken as the last of what is known, `hit` holds. */
  function Hits<T>(history: seq<T>, hit: seq<T> -> bool): nat {
    if history == [] then 0 else Hits(history[..|history| - 1], hit) + if hit(history) then 1 else 0
  }

  /** The last operation of a run raises one such event when it is a hit of its table, and none otherwise. */
  ghost predicate LastAgrees<T>(cfg: Config, ncpu: nat, ops: seq<P.Op>, view: P.Op -> Option<T>,
                                p: Event -> bool, hit: seq<T> -> bool)
    requires ops != []
  {
    var n := |ops| - 1;
    Count(EventsOf(cfg, P.Run(cfg, ncpu, ops[..n]), ops[n]), p)
    == if view(ops[n]).Some? && hit(P.Project(ops, view)) then 1 else 0
  }

  lemma Agree<T>(cfg: Config, ncpu: nat, ops: seq<P.Op>, view: P.Op -> Option<T>,
                 p: Event -> bool, hit: seq<T> -> bool, raised: bool)
    requires ops != [] && view(ops[|ops| - 1]).Some?
    requires Count(EventsOf(cfg, P.Run(cfg, ncpu, ops[..|ops| - 1]), ops[|ops| - 1]), p) == if raised then 1 else 0
    requires hit(P.Project(ops, view)) <==> raised
    ensures LastAgrees(cfg, ncpu, ops, view, p, hit)
  {
  }

  lemma HitsStep<T>(ops: seq<P.Op>, view: P.Op -> Option<T>, hit: seq<T> -> bool)
    requires ops != []
    ensures var n := |ops| - 1;
            Hits(P.Project(ops, view), hit)
            == Hits(P.Project(ops[..n], view), hit)
             + if view(ops[n]).Some? && hit(P.Project(ops, view)) then 1 else 0
  {
    P.ProjectStep(ops, view);
  }

  lemma {:induction false} CountIsHits<T>(cfg: Config, ncpu: nat, ops: seq<P.Op>, view: P.Op -> Option<T>,
                                          p: Event -> bool, hit: seq<T> -> bool)
    requires forall k :: 0 < k <= |ops| ==> LastAgrees(cfg, ncpu, ops[..k], view, p, hit)
    ensures Count(Log(cfg, ncpu, ops), p) == Hits(P.Project(ops, view), hit)
  {
    if ops != [] {
      var n := |ops| - 1;
      var before := ops[..n];
      forall k | 0 < k <= |before| ensures LastAgrees(cfg, ncpu, before[..k], view, p, hit) {
        assert before[..k] == ops[..k];
      }
      CountIsHits(cfg, ncpu, before, view, p, hit);
      CountConcat(Log(cfg, ncpu, before), EventsOf(cfg, P.Run(cfg, ncpu, before), ops[n]), p);
      assert ops[..n + 1] == ops;
      HitsStep(ops, view, hit);
    }
  }

  // ---------------------------------------------------------------- long UDP flows

  /** The last packet raises an event, with these values: the time its flow spans, and its packets. */
  function LongHit(cfg: Config, q: (FlowKey, nat, nat) -> bool): seq<UdpFlows.Op> -> bool {
    (h: seq<UdpFlows.Op>) =>
      h != [] && UdpFlows.LongAt(cfg, h, |h| - 1).Some?
      && var flow := UdpFlows.Generation(h, h[|h| - 1].key);
         q(h[|h| - 1].key, UdpFlows.SpanUs(flow), |flow|)
  }

  function LongWhere(q: (FlowKey, nat, nat) -> bool): Event -> bool {
    (e: Event) => e.LongUdpFlow? && q(e.flow, e.durUs, e.packets)
  }

  lemma DnsNotLong(cfg: Config, flow: FlowKey, part: DnsPart, q: (FlowKey, nat, nat) -> bool)
    ensures Count(DnsEvents(cfg, flow, part), LongWhere(q)) == 0
  {
    var es := DnsEvents(cfg, flow, part);
    assert forall i :: 0 <= i < |es| ==> !es[i].LongUdpFlow?;
    NoneOf(es, LongWhere(q));
  }

  lemma LongOnly(t: UdpFlows.Table, cfg: Config, flow: FlowKey, now: u64, q: (FlowKey, nat, nat) -> bool)
    ensures var longUs := P.LongOf(cfg, t, flow, now);
            Count(LongEvents(t, flow, longUs), LongWhere(q))
            == if longUs.Some? && q(flow, longUs.value, t[flow].packets + 1) then 1 else 0
  {
    var longUs := P.LongOf(cfg, t, flow, now);
    if longUs.Some? {
      CountOne(LongUdpFlow(flow, longUs.value, t[flow].packets + 1), LongWhere(q));
    }
  }

  /** With this flow table a packet raises an event with such values. */
  predicate LongIn(cfg: Config, t: UdpFlows.Table, flow: FlowKey, now: u64, q: (FlowKey, nat, nat) -> bool) {
    flow in t && UdpFlows.LongUs(cfg, t[flow], now).Some?
    && q(flow, UdpFlows.LongUs(cfg, t[flow], now).value, t[flow].packets + 1)
  }

  lemma LongCounts(cfg: Config, s: P.State, op: P.Op, q: (FlowKey, nat, nat) -> bool)
    requires op.Packet?
    ensures Count(EventsOf(cfg, s, op), LongWhere(q)) == if LongIn(cfg, s.udpFlows, op.flow, op.now, q) then 1 else 0
  {
    Hooks.PacketReports(cfg, s, op.cpu, op.flow, op.action, op.len, op.now);
    var dns := DnsEvents(cfg, op.flow, P.PartOf(s.pending, op.action, op.now));
    CountConcat(LongEvents(s.udpFlows, op.flow, P.LongOf(cfg, s.udpFlows, op.flow, op.now)), dns, LongWhere(q));
    LongOnly(s.udpFlows, cfg, op.flow, op.now, q);
    DnsNotLong(cfg, op.flow, P.PartOf(s.pending, op.action, op.now), q);
  }

  /** The values of the last packet of a history: its flow's span and size. */
  lemma LongValues(cfg: Config, h: seq<UdpFlows.Op>, q: (FlowKey, nat, nat) -> bool)
    requires AllSet(cfg) && h != [] && h[|h| - 1].Packet?
    ensures var n := |h| - 1;
            LongHit(cfg, q)(h) <==> LongIn(cfg, UdpFlows.Run(cfg, h[..n]), h[n].key, h[n].now, q)
  {
    var n := |h| - 1;
    if UdpFlows.LongAt(cfg, h, n).Some? {
      assert h[..n + 1] == h;
      UdpFlows.EventReportsSpan(cfg, h, n);
      UdpFlows.EntryIsGeneration(cfg, h[..n], h[n].key);
    }
  }

  lemma PacketSeen(cfg: Config, ncpu: nat, ops: seq<P.Op>)
    requires ops != [] && ops[|ops| - 1].Packet?
    ensures var s, op, h := P.Run(cfg, ncpu, ops[..|ops| - 1]), ops[|ops| - 1], P.Project(ops, P.UdpOp);
            && h != [] && h[|h| - 1] == UdpFlows.Packet(op.flow, op.now, op.len)
            && s.udpFlows == UdpFlows.Run(cfg, h[..|h| - 1])
  {
    P.ProjectStep(ops, P.UdpOp);
    P.UdpFlowsAreProjection(cfg, ncpu, ops[..|ops| - 1]);
  }

  lemma LongSeen(cfg: Config, ncpu: nat, ops: seq<P.Op>, q: (FlowKey, nat, nat) -> bool)
    requires AllSet(cfg) && ops != [] && ops[|ops| - 1].Packet?
    ensures var s, op := P.Run(cfg, ncpu, ops[..|ops| - 1]), ops[|ops| - 1];
            LongHit(cfg, q)(P.Project(ops, P.UdpOp)) <==> LongIn(cfg, s.udpFlows, op.flow, op.now, q)
  {
    PacketSeen(cfg, ncpu, ops);
    LongValues(cfg, P.Project(ops, P.UdpOp), q);
  }

  lemma LongIdle(cfg: Config, ops: seq<P.Op>, q: (FlowKey, nat, nat) -> bool)
    requires ops != [] && !ops[|ops| - 1].Packet? && P.UdpOp(ops[|ops| - 1]).Some?
    ensures !LongHit(cfg, q)(P.Project(ops, P.UdpOp))
  {
    P.ProjectStep(ops, P.UdpOp);
  }

  lemma PacketAgreement(cfg: Config, ncpu: nat, ops: seq<P.Op>, q: (FlowKey, nat, nat) -> bool)
    requires AllSet(cfg) && ops != [] && ops[|ops| - 1].Packet?
    ensures LastAgrees(cfg, ncpu, ops, P.UdpOp, LongWhere(q), LongHit(cfg, q))
  {
    var s, op := P.Run(cfg, ncpu, ops[..|ops| - 1]), ops[|ops| - 1];
    LongSeen(cfg, ncpu, ops, q);
    LongCounts(cfg, s, op, q);
    Agree(cfg, ncpu, ops, P.UdpOp, LongWhere(q), LongHit(cfg, q), LongIn(cfg, s.udpFlows, op.flow, op.now, q));
  }

  lemma OtherAgreement(cfg: Config, ncpu: nat, ops: seq<P.Op>, q: (FlowKey, nat, nat) -> bool)
    requires ops != [] && !ops[|ops| - 1].Packet?
    ensures LastAgrees(cfg, ncpu, ops, P.UdpOp, LongWhere(q), LongHit(cfg, q))
  {
    Elsewhere(cfg, P.Run(cfg, ncpu, ops[..|ops| - 1]), ops[|ops| - 1], LongWhere(q));
    if P.UdpOp(ops[|ops| - 1]).Some? {
      LongIdle(cfg, ops, q);
    }
  }

  lemma LongAgrees(cfg: Config, ncpu: nat, ops: seq<P.Op>, q: (FlowKey, nat, nat) -> bool)
    requires AllSet(cfg) && ops != []
    ensures LastAgrees(cfg, ncpu, ops, P.UdpOp, LongWhere(q), LongHit(cfg, q))
  {
    if ops[|ops| - 1].Packet? {
      PacketAgreement(cfg, ncpu, ops, q);
    } else {
      OtherAgreement(cfg, ncpu, ops, q);
    }
  }

  /**
   LONG_UDP_FLOW over any run: every event carries the time its flow spans, from its first packet
   since the entry was last removed to the packet that raises it, and the number of its packets.
   */
  lemma LongFlowsCarry(cfg: Config, ncpu: nat, ops: seq<P.Op>, q: (FlowKey, nat, nat) -> bool)
    requires AllSet(cfg)
    ensures Count(Log(cfg, ncpu, ops), LongWhere(q)) == Hits(P.Project(ops, P.UdpOp), LongHit(cfg, q))
  {
    forall k | 0 < k <= |ops| ensures LastAgrees(cfg, ncpu, ops[..k], P.UdpOp, LongWhere(q), LongHit(cfg, q)) {
      LongAgrees(cfg, ncpu, ops[..k], q);
    }
    CountIsHits(cfg, ncpu, ops, P.UdpOp, LongWhere(q), LongHit(cfg, q));
  }

  // ---------------------------------------------------------------- retransmission bursts

  /** The last retransmit raises a burst, with its count and the window of the settings. */
  function BurstHit(cfg: Config, q: (FlowKey, nat, u64) -> bool): seq<Retrans.Op> -> bool {
    (h: seq<Retrans.Op>) =>
      h != [] && Retrans.BurstAt(cfg, h, |h| - 1).Some?
      && q(h[|h| - 1].flow, Retrans.BurstAt(cfg, h, |h| - 1).value, cfg.retransBurstWindowNs)
  }

  function BurstWhere(q: (FlowKey, nat, u64) -> bool): Event -> bool {
    (e: Event) => e.RetransBurst? && q(e.flow, e.count, e.windowNs)
  }

  lemma BurstCounts(cfg: Config, s: P.State, op: P.Op, q: (FlowKey, nat, u64) -> bool)
    ensures Count(EventsOf(cfg, s, op), BurstWhere(q))
         == if op.Retransmit?
               && var v := Retrans.Window(cfg, Lookup(s.retrans, op.flow), op.now);
                  Retrans.Fires(cfg, v, op.now) && q(op.flow, v.count, cfg.retransBurstWindowNs)
            then 1 else 0
  {
    if op.Retransmit? {
      var v := Retrans.Window(cfg, Lookup(s.retrans, op.flow), op.now);
      CountWhen(Retrans.Fires(cfg, v, op.now), RetransBurst(op.flow, v.count, cfg.retransBurstWindowNs), BurstWhere(q));
    } else {
      Elsewhere(cfg, s, op, BurstWhere(q));
    }
  }

  lemma BurstValues(cfg: Config, ncpu: nat, ops: seq<P.Op>, q: (FlowKey, nat, u64) -> bool)
    requires ops != [] && ops[|ops| - 1].Retransmit?
    ensures var s, op := P.Run(cfg, ncpu, ops[..|ops| - 1]), ops[|ops| - 1];
            var v := Retrans.Window(cfg, Lookup(s.retrans, op.flow), op.now);
            BurstHit(cfg, q)(P.Project(ops, P.RetransOp))
            <==> Retrans.Fires(cfg, v, op.now) && q(op.flow, v.count, cfg.retransBurstWindowNs)
  {
    P.ProjectStep(ops, P.RetransOp);
    P.RetransIsProjection(cfg, ncpu, ops[..|ops| - 1]);
  }

  lemma BurstIdle(cfg: Config, ops: seq<P.Op>, q: (FlowKey, nat, u64) -> bool)
    requires ops != [] && !ops[|ops| - 1].Retransmit? && P.RetransOp(ops[|ops| - 1]).Some?
    ensures !BurstHit(cfg, q)(P.Project(ops, P.RetransOp))
  {
    P.ProjectStep(ops, P.RetransOp);
  }

  lemma BurstAgrees(cfg: Config, ncpu: nat, ops: seq<P.Op>, q: (FlowKey, nat, u64) -> bool)
    requires ops != []
    ensures LastAgrees(cfg, ncpu, ops, P.RetransOp, BurstWhere(q), BurstHit(cfg, q))
  {
    var n := |ops| - 1;
    BurstCounts(cfg, P.Run(cfg, ncpu, ops[..n]), ops[n], q);
    if ops[n].Retransmit? {
      BurstValues(cfg, ncpu, ops, q);
    } else if P.RetransOp(ops[n]).Some? {
      BurstIdle(cfg, ops, q);
    }
  }

  /** RETRANS_BURST over any run: every event carries the count that `BurstSound` describes. */
  lemma BurstsCarry(cfg: Config, ncpu: nat, ops: seq<P.Op>, q: (FlowKey, nat, u64) -> bool)
    ensures Count(Log(cfg, ncpu, ops), BurstWhere(q)) == Hits(P.Project(ops, P.RetransOp), BurstHit(cfg, q))
  {
    forall k | 0 < k <= |ops| ensures LastAgrees(cfg, ncpu, ops[..k], P.RetransOp, BurstWhere(q), BurstHit(cfg, q)) {
      BurstAgrees(cfg, ncpu, ops[..k], q);
    }
    CountIsHits(cfg, ncpu, ops, P.RetransOp, BurstWhere(q), BurstHit(cfg, q));
  }

  // ---------------------------------------------------------------- TCP samples

  /** The last sample raises a slow-RTT event, with its own RTT and window. */
  function SlowHit(cfg: Config, q: (FlowKey, int, int) -> bool): seq<TcpFlow.Op> -> bool {
    (h: seq<TcpFlow.Op>) =>
      h != []
      && var op := h[|h| - 1];
         TcpFlow.EventAt(cfg, h, |h| - 1, op.flow, TcpFlow.SlowRttEvent) && q(op.flow, op.srttUs, op.cwnd)
  }

  /** The last sample raises a window-drop event, with its own window and that of the sample before it. */
  function DropHit(cfg: Config, q: (FlowKey, int, int) -> bool): seq<TcpFlow.Op> -> bool {
    (h: seq<TcpFlow.Op>) =>
      h != []
      && var op, earlier := h[|h| - 1], TcpFlow.Samples(h[..|h| - 1], h[|h| - 1].flow);
         TcpFlow.EventAt(cfg, h, |h| - 1, op.flow, TcpFlow.CwndDropEvent)
         && earlier != [] && earlier[|earlier| - 1].Sample? && q(op.flow, op.cwnd, earlier[|earlier| - 1].cwnd)
  }

  function SlowWhere(q: (FlowKey, int, int) -> bool): Event -> bool {
    (e: Event) => e.SlowTcpRtt? && q(e.flow, e.srttUs, e.cwnd)
  }

  function DropWhere(q: (FlowKey, int, int) -> bool): Event -> bool {
    (e: Event) => e.TcpCwndDrop? && q(e.flow, e.cwnd, e.prevCwnd)
  }

  lemma SampleCounts(cfg: Config, flow: FlowKey, v: TcpFlow.Value, now: u64, q: (FlowKey, int, int) -> bool)
    ensures Count(SampleEvents(cfg, flow, v, now), SlowWhere(q))
         == if TcpFlow.SlowRtt(cfg, v, now) && q(flow, v.srttUs, v.cwnd) then 1 else 0
    ensures Count(SampleEvents(cfg, flow, v, now), DropWhere(q))
         == if TcpFlow.CwndDrop(cfg, v, now) && q(flow, v.cwnd, v.prevCwnd) then 1 else 0
  {
    var slow, drop := SlowTcpRtt(flow, v.srttUs, v.cwnd), TcpCwndDrop(flow, v.cwnd, v.prevCwnd);
    var slows := EventsWhen(TcpFlow.SlowRtt(cfg, v, now), slow);
    var drops := EventsWhen(TcpFlow.CwndDrop(cfg, v, now), drop);
    CountConcat(slows, drops, SlowWhere(q));
    CountConcat(slows, drops, DropWhere(q));
    CountWhen(TcpFlow.SlowRtt(cfg, v, now), slow, SlowWhere(q));
    CountWhen(TcpFlow.CwndDrop(cfg, v, now), drop, SlowWhere(q));
    CountWhen(TcpFlow.SlowRtt(cfg, v, now), slow, DropWhere(q));
    CountWhen(TcpFlow.CwndDrop(cfg, v, now), drop, DropWhere(q));
  }

  /** Whether and with which values the last operation of a history raises the two events. */
  lemma SampleValues(cfg: Config, h: seq<TcpFlow.Op>, q: (FlowKey, int, int) -> bool)
    requires h != [] && h[|h| - 1].Sample?
    ensures var n := |h| - 1;
            var v := TcpFlow.SampleAt(cfg, h, n);
            && (SlowHit(cfg, q)(h) <==> TcpFlow.SlowRtt(cfg, v, h[n].now) && q(h[n].flow, v.srttUs, v.cwnd))
            && (DropHit(cfg, q)(h) <==> TcpFlow.CwndDrop(cfg, v, h[n].now) && q(h[n].flow, v.cwnd, v.prevCwnd))
  {
    var n := |h| - 1;
    TcpFlow.EntryIsHistory(cfg, h[..n], h[n].flow);
  }

  lemma SampleIdle(cfg: Config, ops: seq<P.Op>, q: (FlowKey, int, int) -> bool)
    requires ops != [] && !ops[|ops| - 1].Received? && P.TcpFlowOp(ops[|ops| - 1]).Some?
    ensures !SlowHit(cfg, q)(P.Project(ops, P.TcpFlowOp)) && !DropHit(cfg, q)(P.Project(ops, P.TcpFlowOp))
  {
    P.ProjectStep(ops, P.TcpFlowOp);
  }

  lemma SampleLast(ops: seq<P.Op>)
    requires ops != [] && ops[|ops| - 1].Received?
    ensures var op, h := ops[|ops| - 1], P.Project(ops, P.TcpFlowOp);
            && h != [] && h[|h| - 1] == TcpFlow.Sample(op.flow, op.srttUs, op.cwnd, op.now)
            && h[..|h| - 1] == P.Project(ops[..|ops| - 1], P.TcpFlowOp)
  {
    P.ProjectStep(ops, P.TcpFlowOp);
  }

  lemma SampleSeen(cfg: Config, ncpu: nat, ops: seq<P.Op>)
    requires ops != [] && ops[|ops| - 1].Received?
    ensures var s, op, h := P.Run(cfg, ncpu, ops[..|ops| - 1]), ops[|ops| - 1], P.Project(ops, P.TcpFlowOp);
            && h != [] && h[|h| - 1] == TcpFlow.Sample(op.flow, op.srttUs, op.cwnd, op.now)
            && TcpFlow.SampleAt(cfg, h, |h| - 1)
               == TcpFlow.Carried(Lookup(s.tcpFlows, op.flow), op.srttUs, op.cwnd, op.now)
  {
    SampleLast(ops);
    P.TcpFlowsAreProjection(cfg, ncpu, ops[..|ops| - 1]);
  }

  lemma SamplesAgree(cfg: Config, ncpu: nat, ops: seq<P.Op>, q: (FlowKey, int, int) -> bool)
    requires ops != []
    ensures LastAgrees(cfg, ncpu, ops, P.TcpFlowOp, SlowWhere(q), SlowHit(cfg, q))
    ensures LastAgrees(cfg, ncpu, ops, P.TcpFlowOp, DropWhere(q), DropHit(cfg, q))
  {
    var n := |ops| - 1;
    var s, op := P.Run(cfg, ncpu, ops[..n]), ops[n];
    if op.Received? {
      SampleSeen(cfg, ncpu, ops);
      SampleValues(cfg, P.Project(ops, P.TcpFlowOp), q);
      SampleCounts(cfg, op.flow, TcpFlow.Carried(Lookup(s.tcpFlows, op.flow), op.srttUs, op.cwnd, op.now), op.now, q);
    } else {
      Elsewhere(cfg, s, op, SlowWhere(q));
      Elsewhere(cfg, s, op, DropWhere(q));
      if P.TcpFlowOp(op).Some? {
        SampleIdle(cfg, ops, q);
      }
    }
  }

  /**
   SLOW_TCP_RTT and TCP_CWND_DROP over any run: the first carries the RTT and window of its sample,
   the second the windows of its sample and of the one before it.
   */
  lemma SamplesCarry(cfg: Config, ncpu: nat, ops: seq<P.Op>, q: (FlowKey, int, int) -> bool)
    ensures Count(Log(cfg, ncpu, ops), SlowWhere(q)) == Hits(P.Project(ops, P.TcpFlowOp), SlowHit(cfg, q))
    ensures Count(Log(cfg, ncpu, ops), DropWhere(q)) == Hits(P.Project(ops, P.TcpFlowOp), DropHit(cfg, q))
  {
    forall k | 0 < k <= |ops|
      ensures LastAgrees(cfg, ncpu, ops[..k], P.TcpFlowOp, SlowWhere(q), SlowHit(cfg, q))
      ensures LastAgrees(cfg, ncpu, ops[..k], P.TcpFlowOp, DropWhere(q), DropHit(cfg, q))
    {
      SamplesAgree(cfg, ncpu, ops[..k], q);
    }
    CountIsHits(cfg, ncpu, ops, P.TcpFlowOp, SlowWhere(q), SlowHit(cfg, q));
    CountIsHits(cfg, ncpu, ops, P.TcpFlowOp, DropWhere(q), DropHit(cfg, q));
  }

  // ---------------------------------------------------------------- connections

  /** The last transition ends a connection that lasted less than the setting, this long. */
  function ShortHit(cfg: Config, q: nat -> bool): seq<TcpLifecycle.Op> -> bool {
    (h: seq<TcpLifecycle.Op>) =>
      h != [] && TcpLifecycle.Timed(h, |h| - 1, cfg.shortTcpConnUs)
      && q(ElapsedUs(TcpLifecycle.LastEntry(h[..|h| - 1])[h[|h| - 1].sk], h[|h| - 1].now))
  }

  /** The last transition closes a connection that was being set up, between these states. */
  function FailHit(q: (int, int) -> bool): seq<TcpLifecycle.Op> -> bool {
    (h: seq<TcpLifecycle.Op>) =>
      h != []
      && var op := h[|h| - 1];
         op.Transition? && op.oldState in {2, 3, 12} && op.newState == 7 && q(op.oldState, op.newState)
  }

  function ShortWhere(q: nat -> bool): Event -> bool {
    (e: Event) => e.ShortTcpConn? && q(e.durUs)
  }

  function FailWhere(q: (int, int) -> bool): Event -> bool {
    (e: Event) => e.TcpConnectFail? && q(e.oldState, e.newState)
  }

  lemma ShortValues(cfg: Config, ncpu: nat, h: seq<TcpLifecycle.Op>, q: nat -> bool)
    requires h != [] && TcpLifecycle.Chained(h)
    ensures var s, op := TcpLifecycle.Run(cfg, ncpu, h[..|h| - 1]), h[|h| - 1];
            ShortHit(cfg, q)(h)
            <==> TcpLifecycle.Closes(s, op)
                 && 0 < ElapsedUs(s.life[op.sk], op.now) < cfg.shortTcpConnUs && q(ElapsedUs(s.life[op.sk], op.now))
  {
    var n := |h| - 1;
    TcpLifecycle.ClosesIsTimed(cfg, ncpu, h);
    if h[n].sk in TcpLifecycle.Run(cfg, ncpu, h[..n]).life {
      TcpLifecycle.LifeSinceLastEntry(cfg, ncpu, h[..n], h[n].sk);
    }
  }

  lemma LifecycleCounts(cfg: Config, s: P.State, op: P.Op, q: nat -> bool, states: (int, int) -> bool)
    requires op.SetState?
    ensures Count(EventsOf(cfg, s, op), ShortWhere(q))
         == if op.oldState == TCP_ESTABLISHED && op.newState != TCP_ESTABLISHED && op.sk in s.life
               && 0 < ElapsedUs(s.life[op.sk], op.now) < cfg.shortTcpConnUs && q(ElapsedUs(s.life[op.sk], op.now))
            then 1 else 0
    ensures Count(EventsOf(cfg, s, op), FailWhere(states))
         == if op.oldState in {2, 3, 12} && op.newState == 7 && states(op.oldState, op.newState) then 1 else 0
  {
    var fail := TcpConnectFail(op.flow, op.oldState, op.newState);
    CountOne(fail, ShortWhere(q));
    CountOne(fail, FailWhere(states));
    if op.sk in s.life {
      var short := ShortTcpConn(op.flow, ElapsedUs(s.life[op.sk], op.now));
      CountOne(short, ShortWhere(q));
      CountOne(short, FailWhere(states));
    }
  }

  lemma LifecycleIdle(cfg: Config, ops: seq<P.Op>, q: nat -> bool, states: (int, int) -> bool)
    requires ops != [] && !ops[|ops| - 1].SetState? && P.LifeOp(ops[|ops| - 1]).Some?
    ensures !ShortHit(cfg, q)(P.Project(ops, P.LifeOp)) && !FailHit(states)(P.Project(ops, P.LifeOp))
  {
    P.ProjectStep(ops, P.LifeOp);
  }

  lemma TransitionSeen(cfg: Config, ncpu: nat, ops: seq<P.Op>)
    requires ops != [] && ops[|ops| - 1].SetState?
    ensures var s, op, h := P.Run(cfg, ncpu, ops[..|ops| - 1]), ops[|ops| - 1], P.Project(ops, P.LifeOp);
            && h != []
            && h[|h| - 1] == TcpLifecycle.Transition(op.cpu, op.sk, op.oldState, op.newState, op.now)
            && s.life == TcpLifecycle.Run(cfg, ncpu, h[..|h| - 1]).life
  {
    P.ProjectStep(ops, P.LifeOp);
    P.LifeIsProjection(cfg, ncpu, ops[..|ops| - 1]);
  }

  lemma LifecycleAgrees(cfg: Config, ncpu: nat, ops: seq<P.Op>, q: nat -> bool, states: (int, int) -> bool)
    requires ops != []
    ensures TcpLifecycle.Chained(P.Project(ops, P.LifeOp)) ==>
              LastAgrees(cfg, ncpu, ops, P.LifeOp, ShortWhere(q), ShortHit(cfg, q))
    ensures LastAgrees(cfg, ncpu, ops, P.LifeOp, FailWhere(states), FailHit(states))
  {
    var n := |ops| - 1;
    var s, op := P.Run(cfg, ncpu, ops[..n]), ops[n];
    if op.SetState? {
      TransitionSeen(cfg, ncpu, ops);
      LifecycleCounts(cfg, s, op, q, states);
      if TcpLifecycle.Chained(P.Project(ops, P.LifeOp)) {
        ShortValues(cfg, ncpu, P.Project(ops, P.LifeOp), q);
      }
    } else {
      Elsewhere(cfg, s, op, ShortWhere(q));
      Elsewhere(cfg, s, op, FailWhere(states));
      if P.LifeOp(op).Some? {
        LifecycleIdle(cfg, ops, q, states);
      }
    }
  }

  lemma {:induction false} PrefixChained(ops: seq<P.Op>, k: nat)
    requires k <= |ops| && TcpLifecycle.Chained(P.Project(ops, P.LifeOp))
    ensures TcpLifecycle.Chained(P.Project(ops[..k], P.LifeOp))
  {
    if k < |ops| {
      var n := |ops| - 1;
      P.ProjectStep(ops, P.LifeOp);
      PrefixChained(ops[..n], k);
      assert ops[..n][..k] == ops[..k];
    } else {
      assert ops[..k] == ops;
    }
  }

  /**
   SHORT_TCP_CONN over runs whose transitions chain, and TCP_CONNECT_FAIL over any run: the first
   carries how long the connection lasted since its latest entry, the second the two states.
   */
  lemma ConnectionsCarry(cfg: Config, ncpu: nat, ops: seq<P.Op>, q: nat -> bool, states: (int, int) -> bool)
    ensures TcpLifecycle.Chained(P.Project(ops, P.LifeOp)) ==>
              Count(Log(cfg, ncpu, ops), ShortWhere(q)) == Hits(P.Project(ops, P.LifeOp), ShortHit(cfg, q))
    ensures Count(Log(cfg, ncpu, ops), FailWhere(states)) == Hits(P.Project(ops, P.LifeOp), FailHit(states))
  {
    if TcpLifecycle.Chained(P.Project(ops, P.LifeOp)) {
      forall k | 0 < k <= |ops| ensures LastAgrees(cfg, ncpu, ops[..k], P.LifeOp, ShortWhere(q), ShortHit(cfg, q)) {
        PrefixChained(ops, k);
        LifecycleAgrees(cfg, ncpu, ops[..k], q, states);
      }
      CountIsHits(cfg, ncpu, ops, P.LifeOp, ShortWhere(q), ShortHit(cfg, q));
    }
    forall k | 0 < k <= |ops| ensures LastAgrees(cfg, ncpu, ops[..k], P.LifeOp, FailWhere(states), FailHit(states)) {
      LifecycleAgrees(cfg, ncpu, ops[..k], q, states);
    }
    CountIsHits(cfg, ncpu, ops, P.LifeOp, FailWhere(states), FailHit(states));
  }

  // ---------------------------------------------------------------- DNS responses

  /** The last response answers a recorded query at or over the threshold later, this much later. */
  function SlowDnsHit(cfg: Config, q: (nat, nat) -> bool): seq<DnsMatcher.Op> -> bool {
    (h: seq<DnsMatcher.Op>) =>
      h != [] && h[|h| - 1].Response?
      && var op, asked := h[|h| - 1], Span.Run(DnsMatcher.Spans(h[..|h| - 1]));
         op.key in asked && ElapsedUs(asked[op.key], op.now) >= cfg.slowDnsUs
         && q(ElapsedUs(asked[op.key], op.now), op.rcode)
  }

  /** The last response carries one of the fifteen error codes. */
  function RcodeHit(q: nat -> bool): seq<DnsMatcher.Op> -> bool {
    (h: seq<DnsMatcher.Op>) => h != [] && h[|h| - 1].Response? && 0 < h[|h| - 1].rcode < 16 && q(h[|h| - 1].rcode)
  }

  function SlowDnsWhere(q: (nat, nat) -> bool): Event -> bool {
    (e: Event) => e.SlowDns? && q(e.latencyUs, e.rcode)
  }

  function RcodeWhere(q: nat -> bool): Event -> bool {
    (e: Event) => e.DnsRcodeError? && q(e.rcode)
  }

  lemma ResponseCounts(cfg: Config, flow: FlowKey, rcode: nat, latencyUs: Option<nat>, q: (nat, nat) -> bool,
                       codes: nat -> bool)
    ensures var es := DnsEvents(cfg, flow, Response(rcode, latencyUs));
            && Count(es, SlowDnsWhere(q))
               == (if latencyUs.Some? && latencyUs.value >= cfg.slowDnsUs && q(latencyUs.value, rcode) then 1 else 0)
            && Count(es, RcodeWhere(codes)) == if 0 < rcode < 16 && codes(rcode) then 1 else 0
  {
    var errors, slows := RcodeEvents(flow, rcode), SlowEvents(cfg, flow, rcode, latencyUs);
    CountConcat(errors, slows, SlowDnsWhere(q));
    CountConcat(errors, slows, RcodeWhere(codes));
    CountOne(DnsRcodeError(flow, rcode), SlowDnsWhere(q));
    CountOne(DnsRcodeError(flow, rcode), RcodeWhere(codes));
    if latencyUs.Some? {
      CountOne(SlowDns(flow, latencyUs.value, rcode), SlowDnsWhere(q));
      CountOne(SlowDns(flow, latencyUs.value, rcode), RcodeWhere(codes));
    }
  }

  /** The flow part of a packet submits none of these. */
  lemma PacketCounts(cfg: Config, s: P.State, op: P.Op, p: Event -> bool)
    requires op.Packet? && forall e :: p(e) ==> !e.LongUdpFlow?
    ensures Count(EventsOf(cfg, s, op), p) == Count(DnsEvents(cfg, op.flow, P.PartOf(s.pending, op.action, op.now)), p)
  {
    var long := LongEvents(s.udpFlows, op.flow, P.LongOf(cfg, s.udpFlows, op.flow, op.now));
    Hooks.PacketReports(cfg, s, op.cpu, op.flow, op.action, op.len, op.now);
    CountConcat(long, DnsEvents(cfg, op.flow, P.PartOf(s.pending, op.action, op.now)), p);
    NoneOf(long, p);
  }

  lemma PendingIsSpanMap(cfg: Config, ncpu: nat, ops: seq<P.Op>)
    ensures P.Run(cfg, ncpu, ops).pending == Span.Run(DnsMatcher.Spans(P.Project(ops, P.DnsOp)))
  {
    P.PendingIsProjection(cfg, ncpu, ops);
    DnsMatcher.PendingIsSpanMap(cfg, ncpu, P.Project(ops, P.DnsOp));
  }

  lemma ResponseLast(ops: seq<P.Op>)
    requires ops != [] && ops[|ops| - 1].Packet? && ops[|ops| - 1].action.ResponseSeen?
    ensures var op, h := ops[|ops| - 1], P.Project(ops, P.DnsOp);
            && h != [] && h[|h| - 1] == DnsMatcher.Response(op.cpu, op.action.key, op.action.rcode, op.now)
            && h[..|h| - 1] == P.Project(ops[..|ops| - 1], P.DnsOp)
  {
    P.ProjectStep(ops, P.DnsOp);
  }

  lemma ResponseSeen(cfg: Config, ncpu: nat, ops: seq<P.Op>)
    requires ops != [] && ops[|ops| - 1].Packet? && ops[|ops| - 1].action.ResponseSeen?
    ensures var s, op, h := P.Run(cfg, ncpu, ops[..|ops| - 1]), ops[|ops| - 1], P.Project(ops, P.DnsOp);
            && h != [] && h[|h| - 1] == DnsMatcher.Response(op.cpu, op.action.key, op.action.rcode, op.now)
            && s.pending == Span.Run(DnsMatcher.Spans(h[..|h| - 1]))
  {
    ResponseLast(ops);
    PendingIsSpanMap(cfg, ncpu, ops[..|ops| - 1]);
  }

  lemma DnsIdle(cfg: Config, ops: seq<P.Op>, q: (nat, nat) -> bool, codes: nat -> bool)
    requires ops != [] && P.DnsOp(ops[|ops| - 1]).Some? && !P.DnsOp(ops[|ops| - 1]).value.Response?
    ensures !SlowDnsHit(cfg, q)(P.Project(ops, P.DnsOp)) && !RcodeHit(codes)(P.Project(ops, P.DnsOp))
  {
    P.ProjectStep(ops, P.DnsOp);
  }

  lemma ResponseAgrees(cfg: Config, ncpu: nat, ops: seq<P.Op>, q: (nat, nat) -> bool, codes: nat -> bool)
    requires ops != [] && ops[|ops| - 1].Packet? && ops[|ops| - 1].action.ResponseSeen?
    ensures LastAgrees(cfg, ncpu, ops, P.DnsOp, SlowDnsWhere(q), SlowDnsHit(cfg, q))
    ensures LastAgrees(cfg, ncpu, ops, P.DnsOp, RcodeWhere(codes), RcodeHit(codes))
  {
    var n := |ops| - 1;
    var s, op := P.Run(cfg, ncpu, ops[..n]), ops[n];
    ResponseSeen(cfg, ncpu, ops);
    PacketCounts(cfg, s, op, SlowDnsWhere(q));
    PacketCounts(cfg, s, op, RcodeWhere(codes));
    ResponseCounts(cfg, op.flow, op.action.rcode, DnsMatcher.LatencyUs(s.pending, op.action.key, op.now), q, codes);
  }

  lemma NoResponseAgrees(cfg: Config, ncpu: nat, ops: seq<P.Op>, q: (nat, nat) -> bool, codes: nat -> bool)
    requires ops != [] && !(ops[|ops| - 1].Packet? && ops[|ops| - 1].action.ResponseSeen?)
    ensures LastAgrees(cfg, ncpu, ops, P.DnsOp, SlowDnsWhere(q), SlowDnsHit(cfg, q))
    ensures LastAgrees(cfg, ncpu, ops, P.DnsOp, RcodeWhere(codes), RcodeHit(codes))
  {
    var n := |ops| - 1;
    var s, op := P.Run(cfg, ncpu, ops[..n]), ops[n];
    if op.Packet? {
      PacketCounts(cfg, s, op, SlowDnsWhere(q));
      PacketCounts(cfg, s, op, RcodeWhere(codes));
    } else {
      Elsewhere(cfg, s, op, SlowDnsWhere(q));
      Elsewhere(cfg, s, op, RcodeWhere(codes));
    }
    if P.DnsOp(op).Some? {
      DnsIdle(cfg, ops, q, codes);
    }
  }

  lemma DnsAgrees(cfg: Config, ncpu: nat, ops: seq<P.Op>, q: (nat, nat) -> bool, codes: nat -> bool)
    requires ops != []
    ensures LastAgrees(cfg, ncpu, ops, P.DnsOp, SlowDnsWhere(q), SlowDnsHit(cfg, q))
    ensures LastAgrees(cfg, ncpu, ops, P.DnsOp, RcodeWhere(codes), RcodeHit(codes))
  {
    if ops[|ops| - 1].Packet? && ops[|ops| - 1].action.ResponseSeen? {
      ResponseAgrees(cfg, ncpu, ops, q, codes);
    } else {
      NoResponseAgrees(cfg, ncpu, ops, q, codes);
    }
  }

  /**
   SLOW_DNS and DNS_RCODE_ERROR over any run: the first carries the time since the query it answers
   and the response's code, the second the code.
   */
  lemma ResponsesCarry(cfg: Config, ncpu: nat, ops: seq<P.Op>, q: (nat, nat) -> bool, codes: nat -> bool)
    ensures Count(Log(cfg, ncpu, ops), SlowDnsWhere(q)) == Hits(P.Project(ops, P.DnsOp), SlowDnsHit(cfg, q))
    ensures Count(Log(cfg, ncpu, ops), RcodeWhere(codes)) == Hits(P.Project(ops, P.DnsOp), RcodeHit(codes))
  {
    forall k | 0 < k <= |ops|
      ensures LastAgrees(cfg, ncpu, ops[..k], P.DnsOp, SlowDnsWhere(q), SlowDnsHit(cfg, q))
      ensures LastAgrees(cfg, ncpu, ops[..k], P.DnsOp, RcodeWhere(codes), RcodeHit(codes))
    {
      DnsAgrees(cfg, ncpu, ops[..k], q, codes);
    }
    CountIsHits(cfg, ncpu, ops, P.DnsOp, SlowDnsWhere(q), SlowDnsHit(cfg, q));
    CountIsHits(cfg, ncpu, ops, P.DnsOp, RcodeWhere(codes), RcodeHit(codes));
  }
}
