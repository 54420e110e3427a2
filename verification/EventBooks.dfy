/**
 The events of whole runs: how many of each kind are submitted, with which values, against the
 counters and against the history.
 */
module EventBooks {
  import opened Base
  import opened Config
  import opened Keys
  import opened Histogram
  import opened PerCpu
  import opened Events
  import Span
  import RunQueue
  import UdpFlows
  import TcpLifecycle
  import P = Program

  lemma CountOne(e: Event, p: Event -> bool)
    ensures Count([e], p) == if p(e) then 1 else 0
  {
    assert [e][..0] == [];
  }

  lemma {:induction false} CountConcat(a: seq<Event>, b: seq<Event>, p: Event -> bool)
    ensures Count(a + b, p) == Count(a, p) + Count(b, p)
  {
    if b == [] {
      assert a + b == a;
    } else {
      assert (a + b)[..|a + b| - 1] == a + b[..|b| - 1];
      CountConcat(a, b[..|b| - 1], p);
    }
  }

  lemma CountWhen(cond: bool, e: Event, p: Event -> bool)
    ensures Count(EventsWhen(cond, e), p) == if cond && p(e) then 1 else 0
  {
    CountOne(e, p);
  }

  /** Which operations submit which kinds of events. */
  predicate Submits(op: P.Op, e: Event) {
    match e
    case SlowTcpRtt(_, _, _) | TcpCwndDrop(_, _, _) => op.Received?
    case RetransBurst(_, _, _) => op.Retransmit?
    case ShortTcpConn(_, _) | TcpConnectFail(_, _, _) => op.SetState?
    case SlowDns(_, _, _) | DnsRcodeError(_, _) | LongUdpFlow(_, _, _) => op.Packet?
    case HighRunqlat(_, _) => op.SwitchIn?
  }

  lemma PacketKinds(cfg: Config, s: P.State, op: P.Op)
    requires op.Packet?
    ensures forall i :: 0 <= i < |EventsOf(cfg, s, op)| ==> Submits(op, EventsOf(cfg, s, op)[i])
  {
    var long := LongEvents(s.udpFlows, op.flow, P.LongOf(cfg, s.udpFlows, op.flow, op.now));
    var dns := DnsEvents(cfg, op.flow, P.PartOf(s.pending, op.action, op.now));
    assert forall i :: 0 <= i < |long| ==> Submits(op, long[i]);
    assert forall i :: 0 <= i < |dns| ==> Submits(op, dns[i]);
    assert EventsOf(cfg, s, op) == long + dns;
  }

  lemma Kinds(cfg: Config, s: P.State, op: P.Op)
    ensures forall i :: 0 <= i < |EventsOf(cfg, s, op)| ==> Submits(op, EventsOf(cfg, s, op)[i])
  {
    if op.Packet? {
      PacketKinds(cfg, s, op);
    }
  }

  lemma {:induction false} NoneOf(es: seq<Event>, p: Event -> bool)
    requires forall i :: 0 <= i < |es| ==> !p(es[i])
    ensures Count(es, p) == 0
  {
    if es != [] {
      NoneOf(es[..|es| - 1], p);
    }
  }

  /** An operation submits no event of a kind that is not its own. */
  lemma Elsewhere(cfg: Config, s: P.State, op: P.Op, p: Event -> bool)
    requires forall e :: p(e) ==> !Submits(op, e)
    ensures Count(EventsOf(cfg, s, op), p) == 0
  {
    Kinds(cfg, s, op);
    NoneOf(EventsOf(cfg, s, op), p);
  }

  // ---------------------------------------------------------------- events that go with a counter

  /** Every operation submits as many events of a kind as it adds to a cell. */
  ghost predicate GoTogether(cfg: Config, p: Event -> bool, c: Cell) {
    forall s: P.State, op: P.Op :: Count(EventsOf(cfg, s, op), p) == P.EffectOf(cfg, s, op, c)
  }

  lemma {:induction false} CountIsTotal(cfg: Config, ncpu: nat, ops: seq<P.Op>, p: Event -> bool, c: Cell)
    requires P.CpusExist(ncpu, ops) && GoTogether(cfg, p, c)
    ensures Count(Log(cfg, ncpu, ops), p) == Total(P.Run(cfg, ncpu, ops).mems, c)
  {
    if ops == [] {
      TotalBlank(ncpu, c);
    } else {
      var n := |ops| - 1;
      var s := P.Run(cfg, ncpu, ops[..n]);
      CountIsTotal(cfg, ncpu, ops[..n], p, c);
      P.StepTotal(cfg, s, ops[n], c);
      CountConcat(Log(cfg, ncpu, ops[..n]), EventsOf(cfg, s, ops[n]), p);
    }
  }

  /** Kinds of events that come with one increment of a counter each. */
  datatype Counted = BurstCounted | ShortCounted | FailCounted | LongCounted | SlowCounted | ErrorCounted
    | RcodeCounted(rcode: nat)

  function KindOf(k: Counted): Event -> bool {
    (e: Event) =>
      match k
      case BurstCounted => e.RetransBurst?
      case ShortCounted => e.ShortTcpConn?
      case FailCounted => e.TcpConnectFail?
      case LongCounted => e.LongUdpFlow?
      case SlowCounted => e.SlowDns?
      case ErrorCounted => e.DnsRcodeError?
      case RcodeCounted(r) => e.DnsRcodeError? && e.rcode == r
  }

  function CellOf(k: Counted): Cell {
    match k
    case BurstCounted => RetransBurstTotal
    case ShortCounted => ShortLivedTotal
    case FailCounted => ConnectFailedTotal
    case LongCounted => LongFlowTotal
    case SlowCounted => SlowTotal
    case ErrorCounted => RcodeErrorTotal
    case RcodeCounted(r) => Rcode(r)
  }

  lemma RetransmitAgrees(cfg: Config, s: P.State, op: P.Op, k: Counted)
    requires op.Retransmit?
    ensures Count(EventsOf(cfg, s, op), KindOf(k)) == P.EffectOf(cfg, s, op, CellOf(k))
  {
    var burst := P.BurstOf(cfg, s.retrans, op.flow, op.now);
    RetransmitEffect(burst, CellOf(k));
    forall e { CountWhen(burst, e, KindOf(k)); }
  }

  lemma ReceivedAgrees(cfg: Config, s: P.State, op: P.Op, k: Counted)
    requires op.Received?
    ensures Count(EventsOf(cfg, s, op), KindOf(k)) == P.EffectOf(cfg, s, op, CellOf(k))
  {
    assert P.WriterOf(CellOf(k)) != P.ByReceived;
    P.ReceivedForeign(op.srttUs, op.cwnd, CellOf(k));
    Elsewhere(cfg, s, op, KindOf(k));
  }

  lemma SetStateAgrees(cfg: Config, s: P.State, op: P.Op, k: Counted)
    requires op.SetState?
    ensures Count(EventsOf(cfg, s, op), KindOf(k)) == P.EffectOf(cfg, s, op, CellOf(k))
  {
    var dur := TcpLifecycle.DurationUs(s.life, op.sk, op.now);
    SetStateEffect(cfg, op.oldState, op.newState, dur, CellOf(k));
    LifecycleEffect(cfg, op.oldState, op.newState, dur, CellOf(k));
    if dur.Some? {
      CountOne(ShortTcpConn(op.flow, dur.value), KindOf(k));
    }
    CountOne(TcpConnectFail(op.flow, op.oldState, op.newState), KindOf(k));
  }

  lemma LongPartAgrees(t: UdpFlows.Table, cfg: Config, flow: FlowKey, now: u64, k: Counted)
    ensures var longUs := P.LongOf(cfg, t, flow, now);
            Count(LongEvents(t, flow, longUs), KindOf(k)) == EffectAll(PacketWrites(longUs), CellOf(k))
  {
    var longUs := P.LongOf(cfg, t, flow, now);
    PacketEffect(longUs, CellOf(k));
    if longUs.Some? {
      CountOne(LongUdpFlow(flow, longUs.value, t[flow].packets + 1), KindOf(k));
    }
  }

  lemma DnsPartAgrees(cfg: Config, flow: FlowKey, part: DnsPart, k: Counted)
    requires k.RcodeCounted? ==> 0 < k.rcode < 16
    ensures Count(DnsEvents(cfg, flow, part), KindOf(k)) == EffectAll(DnsWrites(cfg, part), CellOf(k))
  {
    match part
    case NoDns =>
    case Query => EffectOne(Inc(QueryTotal), CellOf(k));
    case Response(rcode, latencyUs) =>
      ResponseEffect(cfg, rcode, latencyUs, CellOf(k));
      LatencyEffect(cfg, latencyUs, CellOf(k));
      CountConcat(RcodeEvents(flow, rcode), SlowEvents(cfg, flow, rcode, latencyUs), KindOf(k));
      CountOne(DnsRcodeError(flow, rcode), KindOf(k));
      if latencyUs.Some? {
        CountOne(SlowDns(flow, latencyUs.value, rcode), KindOf(k));
      }
  }

  lemma PacketAgrees(cfg: Config, s: P.State, op: P.Op, k: Counted)
    requires op.Packet? && (k.RcodeCounted? ==> 0 < k.rcode < 16)
    ensures Count(EventsOf(cfg, s, op), KindOf(k)) == P.EffectOf(cfg, s, op, CellOf(k))
  {
    var longUs, part := P.LongOf(cfg, s.udpFlows, op.flow, op.now), P.PartOf(s.pending, op.action, op.now);
    CountConcat(LongEvents(s.udpFlows, op.flow, longUs), DnsEvents(cfg, op.flow, part), KindOf(k));
    LongPartAgrees(s.udpFlows, cfg, op.flow, op.now, k);
    DnsPartAgrees(cfg, op.flow, part, k);
    EffectConcat(PacketWrites(longUs), DnsWrites(cfg, part), CellOf(k));
  }

  lemma SwitchAgrees(cfg: Config, s: P.State, op: P.Op, k: Counted)
    requires op.SwitchIn?
    ensures Count(EventsOf(cfg, s, op), KindOf(k)) == P.EffectOf(cfg, s, op, CellOf(k))
  {
    var l := RunQueue.RunqlatUs(s.runq, op.pid, op.now);
    if l.Some? {
      EffectOne(Inc(Runqlat(Bucket(l.value))), CellOf(k));
      CountOne(HighRunqlat(l.value, op.pid), KindOf(k));
    }
  }

  lemma KindsGoTogether(cfg: Config, k: Counted)
    requires k.RcodeCounted? ==> 0 < k.rcode < 16
    ensures GoTogether(cfg, KindOf(k), CellOf(k))
  {
    forall s: P.State, op: P.Op ensures Count(EventsOf(cfg, s, op), KindOf(k)) == P.EffectOf(cfg, s, op, CellOf(k)) {
      match op
      case Retransmit(_, _, _) => RetransmitAgrees(cfg, s, op, k);
      case Received(_, _, _, _, _) => ReceivedAgrees(cfg, s, op, k);
      case SetState(_, _, _, _, _, _) => SetStateAgrees(cfg, s, op, k);
      case Packet(_, _, _, _, _) => PacketAgrees(cfg, s, op, k);
      case SwitchIn(_, _, _) => SwitchAgrees(cfg, s, op, k);
      case Wakeup(_, _) =>
      case Lose(_) =>
    }
  }

  /**
   In every run the bursts, short connections, failed connects, long flows and slow responses
   reported are as many as the counters say, and so are the rcode errors, in all and for each code.
   */
  lemma EventsMatchCounters(cfg: Config, ncpu: nat, ops: seq<P.Op>, rcode: nat)
    requires P.CpusExist(ncpu, ops) && 0 < rcode < 16
    ensures var mems, log := P.Run(cfg, ncpu, ops).mems, Log(cfg, ncpu, ops);
            && Count(log, (e: Event) => e.RetransBurst?) == Total(mems, RetransBurstTotal)
            && Count(log, (e: Event) => e.ShortTcpConn?) == Total(mems, ShortLivedTotal)
            && Count(log, (e: Event) => e.TcpConnectFail?) == Total(mems, ConnectFailedTotal)
            && Count(log, (e: Event) => e.LongUdpFlow?) == Total(mems, LongFlowTotal)
            && Count(log, (e: Event) => e.SlowDns?) == Total(mems, SlowTotal)
            && Count(log, (e: Event) => e.DnsRcodeError?) == Total(mems, RcodeErrorTotal)
            && Count(log, (e: Event) => e.DnsRcodeError? && e.rcode == rcode) == Total(mems, Rcode(rcode))
  {
    var log := Log(cfg, ncpu, ops);
    OneKind(cfg, ncpu, ops, BurstCounted, (e: Event) => e.RetransBurst?);
    OneKind(cfg, ncpu, ops, ShortCounted, (e: Event) => e.ShortTcpConn?);
    OneKind(cfg, ncpu, ops, FailCounted, (e: Event) => e.TcpConnectFail?);
    OneKind(cfg, ncpu, ops, LongCounted, (e: Event) => e.LongUdpFlow?);
    OneKind(cfg, ncpu, ops, SlowCounted, (e: Event) => e.SlowDns?);
    OneKind(cfg, ncpu, ops, ErrorCounted, (e: Event) => e.DnsRcodeError?);
    OneKind(cfg, ncpu, ops, RcodeCounted(rcode), (e: Event) => e.DnsRcodeError? && e.rcode == rcode);
  }

  lemma OneKind(cfg: Config, ncpu: nat, ops: seq<P.Op>, k: Counted, p: Event -> bool)
    requires P.CpusExist(ncpu, ops) && (k.RcodeCounted? ==> 0 < k.rcode < 16)
    requires forall e :: p(e) <==> KindOf(k)(e)
    ensures Count(Log(cfg, ncpu, ops), p) == Total(P.Run(cfg, ncpu, ops).mems, CellOf(k))
  {
    KindsGoTogether(cfg, k);
    CountIsTotal(cfg, ncpu, ops, KindOf(k), CellOf(k));
    CountSame(Log(cfg, ncpu, ops), p, KindOf(k));
  }

  lemma {:induction false} CountSame(es: seq<Event>, p: Event -> bool, q: Event -> bool)
    requires forall e :: p(e) <==> q(e)
    ensures Count(es, p) == Count(es, q)
  {
    if es != [] {
      CountSame(es[..|es| - 1], p, q);
    }
  }

  // ---------------------------------------------------------------- the values events carry

  /** A HIGH_RUNQLAT event whose latency satisfies `q`. */
  function HighWhere(q: nat -> bool): Event -> bool {
    (e: Event) => e.HighRunqlat? && q(e.runqlatUs)
  }

  /** The span operation of the run queue an operation amounts to, if any. */
  function RunqSpan(op: P.Op): Option<Span.Op<nat>> {
    if P.RunqOp(op).Some? then RunQueue.AsSpan(P.RunqOp(op).value) else None
  }

  function HighGuard(cfg: Config, q: nat -> bool): (u64, u64) -> bool {
    (start: u64, now: u64) => now > start && (now - start) / 1000 >= cfg.highRunqlatUs && q((now - start) / 1000)
  }

  function HighHit(cfg: Config, runq: map<nat, u64>, span: Option<Span.Op<nat>>, q: nat -> bool): nat {
    if span.Some? then Span.Hit(runq, span.value, HighGuard(cfg, q)) else 0
  }

  lemma SwitchReports(cfg: Config, runq: map<nat, u64>, pid: nat, now: u64, q: nat -> bool)
    ensures Count(SwitchEvents(cfg, pid, RunQueue.RunqlatUs(runq, pid, now)), HighWhere(q))
         == Span.Hit(runq, Span.Finish(pid, now), HighGuard(cfg, q))
  {
    var l := RunQueue.RunqlatUs(runq, pid, now);
    if l.Some? {
      CountOne(HighRunqlat(l.value, pid), HighWhere(q));
    }
  }

  /** What one operation reports of the run queue, whatever the state. */
  lemma HighStep(cfg: Config, s: P.State, op: P.Op, q: nat -> bool)
    ensures Count(EventsOf(cfg, s, op), HighWhere(q)) == HighHit(cfg, s.runq, RunqSpan(op), q)
  {
    if op.SwitchIn? {
      SwitchReports(cfg, s.runq, op.pid, op.now, q);
    } else {
      Elsewhere(cfg, s, op, HighWhere(q));
    }
  }

  lemma SpansGrow(ops: seq<P.Op>)
    requires ops != []
    ensures var n := |ops| - 1;
            var before := RunQueue.Spans(P.Project(ops[..n], P.RunqOp));
            RunQueue.Spans(P.Project(ops, P.RunqOp))
            == if RunqSpan(ops[n]).Some? then before + [RunqSpan(ops[n]).value] else before
  {
    P.ProjectStep(ops, P.RunqOp);
  }

  lemma MatchedGrow(cfg: Config, ops: seq<P.Op>, q: nat -> bool)
    requires ops != []
    ensures var n := |ops| - 1;
            var before := RunQueue.Spans(P.Project(ops[..n], P.RunqOp));
            Span.MatchedWhere(RunQueue.Spans(P.Project(ops, P.RunqOp)), HighGuard(cfg, q))
            == Span.MatchedWhere(before, HighGuard(cfg, q)) + HighHit(cfg, Span.Run(before), RunqSpan(ops[n]), q)
  {
    SpansGrow(ops);
    var n := |ops| - 1;
    if RunqSpan(ops[n]).Some? {
      Span.MatchedSnoc(RunQueue.Spans(P.Project(ops[..n], P.RunqOp)), RunqSpan(ops[n]).value, HighGuard(cfg, q));
    }
  }

  lemma RunqIsSpanMap(cfg: Config, ncpu: nat, ops: seq<P.Op>)
    ensures P.Run(cfg, ncpu, ops).runq == Span.Run(RunQueue.Spans(P.Project(ops, P.RunqOp)))
  {
    P.RunqIsProjection(cfg, ncpu, ops);
    RunQueue.StartIsSpanMap(ncpu, P.Project(ops, P.RunqOp));
  }

  lemma {:induction false} HighIsMatched(cfg: Config, ncpu: nat, ops: seq<P.Op>, q: nat -> bool)
    ensures Count(Log(cfg, ncpu, ops), HighWhere(q))
         == Span.MatchedWhere(RunQueue.Spans(P.Project(ops, P.RunqOp)), HighGuard(cfg, q))
  {
    if ops != [] {
      var n := |ops| - 1;
      var s := P.Run(cfg, ncpu, ops[..n]);
      HighIsMatched(cfg, ncpu, ops[..n], q);
      CountConcat(Log(cfg, ncpu, ops[..n]), EventsOf(cfg, s, ops[n]), HighWhere(q));
      RunqIsSpanMap(cfg, ncpu, ops[..n]);
      HighStep(cfg, s, ops[n], q);
      MatchedGrow(cfg, ops, q);
    }
  }

  /**
   Which run-queue latencies are reported: those of the switches that came later than their wakeup, by
   the threshold or more. `q` picks the values out, so the reported values are these and no others.
   */
  lemma {:induction false} HighRunqlatExactly(cfg: Config, ncpu: nat, ops: seq<P.Op>, q: nat -> bool)
    ensures Count(Log(cfg, ncpu, ops), (e: Event) => e.HighRunqlat? && q(e.runqlatUs))
         == Span.MatchedWhere(RunQueue.Spans(P.Project(ops, P.RunqOp)), (start: u64, now: u64) =>
                                now > start && (now - start) / 1000 >= cfg.highRunqlatUs && q((now - start) / 1000))
  {
    var over := (start: u64, now: u64) =>
      now > start && (now - start) / 1000 >= cfg.highRunqlatUs && q((now - start) / 1000);
    HighIsMatched(cfg, ncpu, ops, q);
    CountSame(Log(cfg, ncpu, ops), (e: Event) => e.HighRunqlat? && q(e.runqlatUs), HighWhere(q));
    Span.MatchedSame(RunQueue.Spans(P.Project(ops, P.RunqOp)), over, HighGuard(cfg, q));
  }
}
