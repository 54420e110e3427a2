/**
 What each hook does, field by field and in plain arithmetic: the map entries it leaves, the events it
 submits, and by how much every cell of its CPU moves. State numbers and widths are written out.
 */
module Hooks {
  import opened Base
  import opened Config
  import opened Keys
  import opened Histogram
  import opened PerCpu
  import opened Events
  import Retrans
  import TcpFlow
  import TcpLifecycle
  import UdpFlows
  import Parser
  import P = Program

  function Bit(cond: bool): int {
    if cond then 1 else 0
  }

  /** The other CPUs keep their cells, and cell `c` of this CPU moves by `delta`. */
  predicate Moved(before: seq<CpuMem>, after: seq<CpuMem>, cpu: nat, c: Cell, delta: int) {
    && |before| == |after| && cpu < |before|
    && after[..cpu] == before[..cpu] && after[cpu + 1..] == before[cpu + 1..]
    && Get(after[cpu], c) == Get(before[cpu], c) + delta
  }

  lemma HookMoves(cfg: Config, s: P.State, op: P.Op, c: Cell)
    requires P.OnCpu(op) && op.cpu < |s.mems|
    ensures Moved(s.mems, P.Next(cfg, s, op).mems, op.cpu, c, P.EffectOf(cfg, s, op, c))
  {
    var hook := P.HookOf(cfg, s, op);
    if hook.Some? {
      ApplyAllGet(s.mems[op.cpu], WritesOf(cfg, hook.value), c);
    }
  }

  /** `nd_tcp_retransmit_skb`: the window of the flow, its burst, and the entry of the last sample. */
  lemma RetransmitHook(cfg: Config, s: P.State, cpu: nat, flow: FlowKey, now: u64)
    ensures
      var op := P.Retransmit(cpu, flow, now);
      var r := P.Next(cfg, s, op);
      var known := flow in s.retrans;
      var stays := known && now > s.retrans[flow].firstSeen
                   && now - s.retrans[flow].firstSeen <= cfg.retransBurstWindowNs;
      var first := if stays then s.retrans[flow].firstSeen else now;
      var count := if stays then s.retrans[flow].count + 1 else 1;
      var last := if known then s.retrans[flow].lastEvent else 0;
      var burst := count >= cfg.retransBurstCount
                   && now > (last + cfg.eventCooldownNs) % 0x1_0000_0000_0000_0000;
      && r == s.(mems := r.mems, retrans := r.retrans, tcpFlows := r.tcpFlows)
      && r.retrans == s.retrans[flow := Retrans.Value(first, now, count, if burst then now else last)]
      && r.tcpFlows == (if flow in s.tcpFlows
                        then s.tcpFlows[flow := s.tcpFlows[flow].(retransCount := s.tcpFlows[flow].retransCount + 1,
                                                                  lastSeen := now)]
                        else s.tcpFlows)
      && EventsOf(cfg, s, op) == (if burst then [RetransBurst(flow, count, cfg.retransBurstWindowNs)] else [])
  {
  }

  /** Its cells: retrans_total, and retrans_burst_total with each event. */
  lemma RetransmitCells(cfg: Config, s: P.State, cpu: nat, flow: FlowKey, now: u64, c: Cell)
    requires cpu < |s.mems|
    ensures var op := P.Retransmit(cpu, flow, now);
            Moved(s.mems, P.Next(cfg, s, op).mems, cpu, c,
                  Bit(c == RetransTotal) + Bit(EventsOf(cfg, s, op) != [] && c == RetransBurstTotal))
  {
    HookMoves(cfg, s, P.Retransmit(cpu, flow, now), c);
    RetransmitEffect(P.BurstOf(cfg, s.retrans, flow, now), c);
  }

  /** `nd_tcp_rcv_established`, its cells: one RTT and one window sample, each bucket with its counter. */
  lemma ReceivedCells(cfg: Config, s: P.State, cpu: nat, flow: FlowKey, srttUs: SrttUs, cwnd: u32, now: u64, c: Cell)
    requires cpu < |s.mems|
    ensures Moved(s.mems, P.Next(cfg, s, P.Received(cpu, flow, srttUs, cwnd, now)).mems, cpu, c,
                  Bit(srttUs > 0 && (c == Srtt(Bucket(srttUs)) || c == RttSampleTotal))
                  + Bit(cwnd > 0 && (c == Cwnd(Bucket(cwnd)) || c == CwndSampleTotal)))
  {
    HookMoves(cfg, s, P.Received(cpu, flow, srttUs, cwnd, now), c);
    RcvEstablishedEffect(srttUs, cwnd, c);
  }

  /** Its flow entry and its two events. */
  lemma ReceivedHook(cfg: Config, s: P.State, cpu: nat, flow: FlowKey, srttUs: SrttUs, cwnd: u32, now: u64)
    ensures
      var op := P.Received(cpu, flow, srttUs, cwnd, now);
      var known := flow in s.tcpFlows;
      var prev := if known then s.tcpFlows[flow].cwnd else 0;
      var lastRtt := if known then s.tcpFlows[flow].lastRttEvent else 0;
      var lastCwnd := if known then s.tcpFlows[flow].lastCwndEvent else 0;
      var slow := srttUs >= cfg.slowTcpRttUs
                  && now > (lastRtt + cfg.eventCooldownNs) % 0x1_0000_0000_0000_0000;
      var drop := prev > 0 && cwnd > 0 && cwnd * 100 <= prev * cfg.cwndDropPercent % 0x1_0000_0000_0000_0000
                  && now > (lastCwnd + cfg.eventCooldownNs) % 0x1_0000_0000_0000_0000;
      var r := P.Next(cfg, s, op);
      && r == s.(mems := r.mems, tcpFlows := r.tcpFlows)
      && r.tcpFlows
         == s.tcpFlows[flow := TcpFlow.Value(now, if slow then now else lastRtt, if drop then now else lastCwnd,
                                             srttUs, cwnd, prev, if known then s.tcpFlows[flow].retransCount else 0)]
      && EventsOf(cfg, s, op)
         == (if slow then [SlowTcpRtt(flow, srttUs, cwnd)] else [])
          + (if drop then [TcpCwndDrop(flow, cwnd, prev)] else [])
  {
  }

  /** `nd_inet_sock_set_state`: the lifetime entry and the two events. */
  lemma SetStateHook(cfg: Config, s: P.State, cpu: nat, sk: TcpLifecycle.Sock, flow: FlowKey,
                     oldState: int, newState: int, now: u64)
    ensures
      var op := P.SetState(cpu, sk, flow, oldState, newState, now);
      var r := P.Next(cfg, s, op);
      var closes := oldState == 1 && newState != 1 && sk in s.life;
      var us := if closes && now > s.life[sk] then (now - s.life[sk]) / 1000 else 0;
      && r == s.(mems := r.mems, life := r.life)
      && r.life == (if newState == 1 then s.life[sk := now] else if oldState == 1 then s.life - {sk} else s.life)
      && EventsOf(cfg, s, op)
         == (if closes && 0 < us < cfg.shortTcpConnUs then [ShortTcpConn(flow, us)] else [])
          + (if (oldState == 2 || oldState == 3 || oldState == 12) && newState == 7
             then [TcpConnectFail(flow, oldState, newState)] else [])
  {
  }

  lemma SetStateEffects(cfg: Config, oldState: int, newState: int, durUs: Option<nat>, c: Cell)
    ensures
      var closes := oldState == 1 && newState != 1 && durUs.Some?;
      EffectAll(SetStateWrites(cfg, oldState, newState, durUs), c)
      == Bit(0 <= newState < 16 && c == Delta(newState)) - Bit(0 <= oldState < 16 && c == Delta(oldState))
       + Bit(0 <= newState < 16 && c == DeltaUpdates(newState))
       + Bit(0 <= oldState < 16 && c == DeltaUpdates(oldState))
       + Bit((newState == 2 || newState == 3) && c == ConnectAttemptTotal)
       + Bit(closes && c == ClosedTotal)
       + Bit(closes && 0 < durUs.value < cfg.shortTcpConnUs && c == ShortLivedTotal)
       + Bit((oldState == 2 || oldState == 3 || oldState == 12) && newState == 7 && c == ConnectFailedTotal)
  {
    SetStateEffect(cfg, oldState, newState, durUs, c);
    LifecycleEffect(cfg, oldState, newState, durUs, c);
  }

  /** Its cells: two deltas, and the counters of an attempt, a close, a short close or a failure. */
  lemma SetStateCells(cfg: Config, s: P.State, cpu: nat, sk: TcpLifecycle.Sock, flow: FlowKey,
                      oldState: int, newState: int, now: u64, c: Cell)
    requires cpu < |s.mems|
    ensures
      var closes := oldState == 1 && newState != 1 && sk in s.life;
      var us := if sk in s.life && now > s.life[sk] then (now - s.life[sk]) / 1000 else 0;
      Moved(s.mems, P.Next(cfg, s, P.SetState(cpu, sk, flow, oldState, newState, now)).mems, cpu, c,
            Bit(0 <= newState < 16 && c == Delta(newState)) - Bit(0 <= oldState < 16 && c == Delta(oldState))
            + Bit(0 <= newState < 16 && c == DeltaUpdates(newState))
            + Bit(0 <= oldState < 16 && c == DeltaUpdates(oldState))
            + Bit((newState == 2 || newState == 3) && c == ConnectAttemptTotal)
            + Bit(closes && c == ClosedTotal)
            + Bit(closes && 0 < us < cfg.shortTcpConnUs && c == ShortLivedTotal)
            + Bit((oldState == 2 || oldState == 3 || oldState == 12) && newState == 7 && c == ConnectFailedTotal))
  {
    HookMoves(cfg, s, P.SetState(cpu, sk, flow, oldState, newState, now), c);
    SetStateEffects(cfg, oldState, newState, TcpLifecycle.DurationUs(s.life, sk, now), c);
  }

  /** The flow part of `nd_parse_ipv4_udp`: the entry, and when and what it reports. */
  lemma PacketFlow(cfg: Config, s: P.State, cpu: nat, flow: FlowKey, action: Parser.DnsAction, len: nat, now: u64)
    ensures
      var r := P.Next(cfg, s, P.Packet(cpu, flow, action, len, now));
      var known := flow in s.udpFlows;
      var us := if known && now > s.udpFlows[flow].firstSeen then (now - s.udpFlows[flow].firstSeen) / 1000 else 0;
      var long := known && us >= cfg.longUdpFlowUs
                  && now > (s.udpFlows[flow].lastEvent + cfg.eventCooldownNs) % 0x1_0000_0000_0000_0000;
      && r == s.(mems := r.mems, udpFlows := r.udpFlows, pending := r.pending)
      && r.udpFlows == s.udpFlows[flow :=
           if known
           then UdpFlows.Flow(s.udpFlows[flow].firstSeen, now, if long then now else s.udpFlows[flow].lastEvent,
                              s.udpFlows[flow].packets + 1, s.udpFlows[flow].bytes + len)
           else UdpFlows.Flow(now, now, 0, 1, len)]
      && P.LongOf(cfg, s.udpFlows, flow, now) == (if long then Some(us) else None)
      && LongEvents(s.udpFlows, flow, P.LongOf(cfg, s.udpFlows, flow, now))
         == (if long then [LongUdpFlow(flow, us, s.udpFlows[flow].packets + 1)] else [])
  {
  }

  /** The DNS part: the pending map, and when and what it reports. */
  lemma PacketDns(cfg: Config, s: P.State, cpu: nat, flow: FlowKey, action: Parser.DnsAction, len: nat, now: u64)
    ensures
      var r := P.Next(cfg, s, P.Packet(cpu, flow, action, len, now));
      match action
      case NotDns =>
        && r.pending == s.pending
        && DnsEvents(cfg, flow, P.PartOf(s.pending, action, now)) == []
      case QuerySeen(key) =>
        && r.pending == s.pending[key := now]
        && DnsEvents(cfg, flow, P.PartOf(s.pending, action, now)) == []
      case ResponseSeen(key, rcode) =>
        var us := if key in s.pending && now > s.pending[key] then (now - s.pending[key]) / 1000 else 0;
        && r.pending == s.pending - {key}
        && DnsEvents(cfg, flow, P.PartOf(s.pending, action, now))
           == (if 0 < rcode < 16 then [DnsRcodeError(flow, rcode)] else [])
            + (if key in s.pending && us >= cfg.slowDnsUs then [SlowDns(flow, us, rcode)] else [])
  {
  }

  /** The events of a packet are those of its two parts, in this order. */
  lemma PacketReports(cfg: Config, s: P.State, cpu: nat, flow: FlowKey, action: Parser.DnsAction, len: nat, now: u64)
    ensures EventsOf(cfg, s, P.Packet(cpu, flow, action, len, now))
         == LongEvents(s.udpFlows, flow, P.LongOf(cfg, s.udpFlows, flow, now))
          + DnsEvents(cfg, flow, P.PartOf(s.pending, action, now))
  {
  }

  lemma DatagramCells(cfg: Config, long: Option<nat>, part: DnsPart, c: Cell)
    ensures EffectAll(WritesOf(cfg, Datagram(long, part)), c)
         == Bit(c == PacketTotal)
          + Bit(long.Some? && (c == UdpDuration(Bucket(long.value)) || c == LongFlowTotal))
          + EffectAll(DnsWrites(cfg, part), c)
  {
    EffectConcat(PacketWrites(long), DnsWrites(cfg, part), c);
    PacketEffect(long, c);
  }

  /** The cells of a packet: packet_total, a reported flow, a query, or a response and its latency. */
  lemma PacketCells(cfg: Config, s: P.State, cpu: nat, flow: FlowKey, action: Parser.DnsAction, len: nat, now: u64,
                    c: Cell)
    requires cpu < |s.mems|
    ensures
      var long := P.LongOf(cfg, s.udpFlows, flow, now);
      Moved(s.mems, P.Next(cfg, s, P.Packet(cpu, flow, action, len, now)).mems, cpu, c,
            Bit(c == PacketTotal)
            + Bit(long.Some? && (c == UdpDuration(Bucket(long.value)) || c == LongFlowTotal))
            + DnsDelta(cfg, s.pending, action, now, c))
  {
    HookMoves(cfg, s, P.Packet(cpu, flow, action, len, now), c);
    DatagramCells(cfg, P.LongOf(cfg, s.udpFlows, flow, now), P.PartOf(s.pending, action, now), c);
  }

  /** What the DNS part of a packet writes to a cell. */
  function DnsDelta(cfg: Config, pending: map<DnsKey, u64>, action: Parser.DnsAction, now: u64, c: Cell): int {
    EffectAll(DnsWrites(cfg, P.PartOf(pending, action, now)), c)
  }

  /** The DNS cells of a packet: a query, or a response with its rcode, latency and slowness. */
  lemma DnsPartCells(cfg: Config, pending: map<DnsKey, u64>, action: Parser.DnsAction, now: u64, c: Cell)
    ensures
      var matched := action.ResponseSeen? && action.key in pending;
      var us := if matched && now > pending[action.key] then (now - pending[action.key]) / 1000 else 0;
      DnsDelta(cfg, pending, action, now, c)
      == Bit(action.QuerySeen? && c == QueryTotal)
       + Bit(action.ResponseSeen? && c == ResponseTotal)
       + Bit(action.ResponseSeen? && action.rcode < 16 && c == Rcode(action.rcode))
       + Bit(action.ResponseSeen? && 0 < action.rcode < 16 && c == RcodeErrorTotal)
       + Bit(matched && us > 0 && c == DnsLatency(Bucket(us)))
       + Bit(matched && us >= cfg.slowDnsUs && c == SlowTotal)
  {
    match P.PartOf(pending, action, now)
    case NoDns =>
    case Query => EffectOne(Inc(QueryTotal), c);
    case Response(rcode, latencyUs) =>
      ResponseEffect(cfg, rcode, latencyUs, c);
      LatencyEffect(cfg, latencyUs, c);
  }

  /** `nd_sched_switch`: the start map and the latency event. */
  lemma SwitchHook(cfg: Config, s: P.State, cpu: nat, pid: nat, now: u64)
    ensures
      var op := P.SwitchIn(cpu, pid, now);
      var r := P.Next(cfg, s, op);
      var late := pid != 0 && pid in s.runq && now > s.runq[pid];
      var us := if late then (now - s.runq[pid]) / 1000 else 0;
      && r == s.(mems := r.mems, runq := r.runq)
      && r.runq == (if pid == 0 then s.runq else s.runq - {pid})
      && EventsOf(cfg, s, op) == (if late && us >= cfg.highRunqlatUs then [HighRunqlat(us, pid)] else [])
  {
  }

  /** Its cell: the bucket of the latency, when the clock has advanced since the wakeup. */
  lemma SwitchCells(cfg: Config, s: P.State, cpu: nat, pid: nat, now: u64, c: Cell)
    requires cpu < |s.mems|
    ensures
      var late := pid != 0 && pid in s.runq && now > s.runq[pid];
      var us := if late then (now - s.runq[pid]) / 1000 else 0;
      Moved(s.mems, P.Next(cfg, s, P.SwitchIn(cpu, pid, now)).mems, cpu, c, Bit(late && c == Runqlat(Bucket(us))))
  {
    HookMoves(cfg, s, P.SwitchIn(cpu, pid, now), c);
    if pid != 0 && pid in s.runq && now > s.runq[pid] {
      EffectOne(Inc(Runqlat(Bucket((now - s.runq[pid]) / 1000))), c);
    }
  }

  /** `nd_sched_wakeup_common`, and the loss of an entry. */
  lemma OtherSteps(cfg: Config, s: P.State, pid: nat, now: u64, e: P.Entry)
    ensures P.Next(cfg, s, P.Wakeup(pid, now)) == (if pid == 0 then s else s.(runq := s.runq[pid := now]))
    ensures P.Next(cfg, s, P.Lose(e))
         == match e
            case LifeEntry(sk) => s.(life := s.life - {sk})
            case TcpFlowEntry(flow) => s.(tcpFlows := s.tcpFlows - {flow})
            case RetransEntry(flow) => s.(retrans := s.retrans - {flow})
            case PendingEntry(key, _) => s.(pending := s.pending - {key})
            case UdpFlowEntry(flow) => s.(udpFlows := s.udpFlows - {flow})
            case RunqEntry(pid') => s.(runq := s.runq - {pid'})
    ensures EventsOf(cfg, s, P.Wakeup(pid, now)) == [] && EventsOf(cfg, s, P.Lose(e)) == []
  {
  }
}
