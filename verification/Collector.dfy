/**
 The kernel program as one object: its maps are fields, its hooks are methods that update them in
 place. Each hook is proved to take its maps through the step its table module specifies and to make
 exactly the per-CPU writes listed for it.
 */
module Collector {
  import opened Base
  import opened Config
  import opened Keys
  import opened Histogram
  import opened PerCpu
  import Retrans
  import TcpFlow
  import TcpLifecycle
  import UdpFlows
  import Span
  import DnsMatcher
  import RunQueue
  import Parser
  import Program
  import opened Events

  lemma RunWritesConcat(mems: seq<CpuMem>, cpu: nat, a: seq<Write>, b: seq<Write>)
    requires cpu < |mems|
    ensures RunWrites(RunWrites(mems, cpu, a), cpu, b) == RunWrites(mems, cpu, a + b)
  {
    ApplyAllConcat(mems[cpu], a, b);
  }

  lemma {:induction false} ApplyAllConcat(m: CpuMem, a: seq<Write>, b: seq<Write>)
    ensures ApplyAll(ApplyAll(m, a), b) == ApplyAll(m, a + b)
    decreases |a|
  {
    if a == [] {
      assert a + b == b;
    } else {
      assert (a + b)[1..] == a[1..] + b;
      ApplyAllConcat(Apply(m, a[0]), a[1..], b);
    }
  }

  class Collector {
    const cfg: Config                           // nd_config, as nd_get_config returns it
    var cpus: seq<CpuMem>                       // the per-CPU maps
    var connLife: map<TcpLifecycle.Sock, u64>   // nd_tcp_conn_life
    var tcpFlows: TcpFlow.Table                 // nd_tcp_flow_latest
    var retrans: Retrans.Table                  // nd_tcp_retrans_by_flow
    var dnsPending: map<DnsKey, u64>            // nd_dns_pending
    var udpFlows: UdpFlows.Table                // nd_udp_flows
    var runqStart: map<nat, u64>                // nd_runq_start
    var events: seq<Event>                      // nd_events

    /** The maps, as a state of the step machine. */
    ghost function Now(): Program.State
      reads this
    {
      Program.State(cpus, connLife, tcpFlows, retrans, dnsPending, udpFlows, runqStart)
    }

    constructor (settings: Option<Config>, ncpu: nat)
      ensures cfg == GetConfig(settings) && events == [] && Now() == Program.Boot(ncpu)
    {
      cfg := GetConfig(settings);
      cpus := Blank(ncpu);
      connLife, tcpFlows, retrans := map[], map[], map[];
      dnsPending, udpFlows, runqStart := map[], map[], map[];
      events := [];
    }

    /** The counter and delta helpers: one write to this CPU's slot. */
    method Put(cpu: nat, w: Write, ghost before: seq<CpuMem>, ghost done: seq<Write>)
      returns (ghost now: seq<Write>)
      requires cpu < |cpus| == |before| && cpus == RunWrites(before, cpu, done)
      modifies this`cpus
      ensures now == done + [w]
      ensures |cpus| == |before| && cpus == RunWrites(before, cpu, now)
    {
      cpus := cpus[cpu := Apply(cpus[cpu], w)];
      now := done + [w];
      assert [w][1..] == [];
      assert ApplyAll(ApplyAll(before[cpu], done), [w]) == cpus[cpu];
      RunWritesConcat(before, cpu, done, [w]);
    }

    /** A sample: its bucket first, then its counter. */
    method PutSample(cpu: nat, bucket: Counter, counter: Counter)
      requires cpu < |cpus|
      modifies this`cpus
      ensures cpus == RunWrites(old(cpus), cpu, [Inc(bucket), Inc(counter)])
    {
      ghost var before, ws := cpus, [];
      ws := Put(cpu, Inc(bucket), before, ws);
      ws := Put(cpu, Inc(counter), before, ws);
      assert ws == [Inc(bucket), Inc(counter)];
    }

    /** `nd_tcp_retransmit_skb`. */
    method TcpRetransmitSkb(cpu: nat, ipv4: bool, flow: FlowKey, now: u64)
      requires cpu < |cpus|
      modifies this`cpus, this`retrans, this`tcpFlows, this`events
      ensures !ipv4 ==> Now() == old(Now()) && events == old(events)
      ensures ipv4 ==>
                var v := Retrans.Window(cfg, Lookup(old(retrans), flow), now);
                var burst := Retrans.Fires(cfg, v, now);
                && retrans == Retrans.Next(cfg, old(retrans), Retrans.Retransmit(flow, now))
                && tcpFlows == TcpFlow.Next(cfg, old(tcpFlows), TcpFlow.Retransmit(flow, now))
                && cpus == RunWrites(old(cpus), cpu, WritesOf(cfg, PerCpu.Retransmit(burst)))
                && events == old(events) + EventsWhen(burst, RetransBurst(flow, v.count, cfg.retransBurstWindowNs))
      ensures ipv4 ==> Now() == Program.Next(cfg, old(Now()), Program.Retransmit(cpu, flow, now))
      ensures ipv4 ==> events == old(events) + EventsOf(cfg, old(Now()), Program.Retransmit(cpu, flow, now))
    {
      if ipv4 {
        DetectBurst(cpu, flow, now);
        TouchFlow(flow, now);
      }
    }

    /** The window of the flow, its counters and its event. */
    method DetectBurst(cpu: nat, flow: FlowKey, now: u64)
      requires cpu < |cpus|
      modifies this`cpus, this`retrans, this`events
      ensures var v := Retrans.Window(cfg, Lookup(old(retrans), flow), now);
              var burst := Retrans.Fires(cfg, v, now);
              && retrans == Retrans.Next(cfg, old(retrans), Retrans.Retransmit(flow, now))
              && cpus == RunWrites(old(cpus), cpu, RetransmitWrites(burst))
              && events == old(events) + EventsWhen(burst, RetransBurst(flow, v.count, cfg.retransBurstWindowNs))
    {
      ghost var before, ws := cpus, [];
      ws := Put(cpu, Inc(RetransTotal), before, ws);
      var newv := Retrans.Value(now, now, 1, 0);
      if flow in retrans {
        var oldv := retrans[flow];
        if now > oldv.firstSeen && now - oldv.firstSeen <= cfg.retransBurstWindowNs {
          newv := newv.(firstSeen := oldv.firstSeen, count := oldv.count + 1);
        }
        newv := newv.(lastEvent := oldv.lastEvent);
      }
      if newv.count >= cfg.retransBurstCount && now > Add64(newv.lastEvent, cfg.eventCooldownNs) {
        ws := Put(cpu, Inc(RetransBurstTotal), before, ws);
        events := events + [RetransBurst(flow, newv.count, cfg.retransBurstWindowNs)];
        newv := newv.(lastEvent := now);
      }
      assert ws == RetransmitWrites(|ws| == 2);
      retrans := retrans[flow := newv];
    }

    /** A retransmit of a flow that has an entry in nd_tcp_flow_latest. */
    method TouchFlow(flow: FlowKey, now: u64)
      modifies this`tcpFlows
      ensures tcpFlows == TcpFlow.Next(cfg, old(tcpFlows), TcpFlow.Retransmit(flow, now))
    {
      if flow in tcpFlows {
        var tv := tcpFlows[flow];
        tcpFlows := tcpFlows[flow := tv.(retransCount := tv.retransCount + 1, lastSeen := now)];
      }
    }

    /** `nd_tcp_rcv_established`; `srttRaw` is the kernel's field, scaled by 8. */
    method TcpRcvEstablished(cpu: nat, ipv4: bool, flow: FlowKey, srttRaw: u32, cwnd: u32, now: u64)
      requires cpu < |cpus|
      modifies this`cpus, this`tcpFlows, this`events
      ensures !ipv4 ==> cpus == old(cpus) && tcpFlows == old(tcpFlows) && events == old(events)
      ensures ipv4 ==>
                var srttUs := srttRaw / 8;
                var v := TcpFlow.Carried(Lookup(old(tcpFlows), flow), srttUs, cwnd, now);
                && tcpFlows == TcpFlow.Next(cfg, old(tcpFlows), TcpFlow.Sample(flow, srttUs, cwnd, now))
                && cpus == RunWrites(old(cpus), cpu, WritesOf(cfg, RcvEstablished(srttUs, cwnd)))
                && events == old(events) + SampleEvents(cfg, flow, v, now)
      ensures ipv4 ==> Now() == Program.Next(cfg, old(Now()), Program.Received(cpu, flow, srttRaw / 8, cwnd, now))
      ensures ipv4 ==>
                events == old(events) + EventsOf(cfg, old(Now()), Program.Received(cpu, flow, srttRaw / 8, cwnd, now))
    {
      if !ipv4 {
        return;
      }
      var srttUs: SrttUs := srttRaw / 8;
      BumpSamples(cpu, srttUs, cwnd);
      UpdateFlow(flow, srttUs, cwnd, now);
    }

    /** The two histogram samples, bucket first. */
    method BumpSamples(cpu: nat, srttUs: SrttUs, cwnd: u32)
      requires cpu < |cpus|
      modifies this`cpus
      ensures cpus == RunWrites(old(cpus), cpu, RcvEstablishedWrites(srttUs, cwnd))
    {
      ghost var c0 := cpus;
      if srttUs > 0 {
        var b := Log2Bucket(srttUs);
        PutSample(cpu, Srtt(b), RttSampleTotal);
      }
      ghost var first := When(srttUs > 0, [Inc(Srtt(Bucket(srttUs))), Inc(RttSampleTotal)]);
      ghost var second := When(cwnd > 0, [Inc(Cwnd(Bucket(cwnd))), Inc(CwndSampleTotal)]);
      assert cpus == RunWrites(c0, cpu, first);
      if cwnd > 0 {
        var b := Log2Bucket(cwnd);
        PutSample(cpu, Cwnd(b), CwndSampleTotal);
      }
      RunWritesConcat(c0, cpu, first, second);
    }

    /** The flow entry and its two events. */
    method UpdateFlow(flow: FlowKey, srttUs: u32, cwnd: u32, now: u64)
      modifies this`tcpFlows, this`events
      ensures tcpFlows == TcpFlow.Next(cfg, old(tcpFlows), TcpFlow.Sample(flow, srttUs, cwnd, now))
      ensures events == old(events)
                + SampleEvents(cfg, flow, TcpFlow.Carried(Lookup(old(tcpFlows), flow), srttUs, cwnd, now), now)
    {
      var newv := TcpFlow.Value(now, 0, 0, srttUs, cwnd, 0, 0);
      if flow in tcpFlows {
        var oldv := tcpFlows[flow];
        newv := newv.(prevCwnd := oldv.cwnd, retransCount := oldv.retransCount,
                      lastRttEvent := oldv.lastRttEvent, lastCwndEvent := oldv.lastCwndEvent);
      }
      if srttUs >= cfg.slowTcpRttUs && now > Add64(newv.lastRttEvent, cfg.eventCooldownNs) {
        events := events + [SlowTcpRtt(flow, srttUs, cwnd)];
        newv := newv.(lastRttEvent := now);
      }
      if newv.prevCwnd > 0 && cwnd > 0 {
        var lhs := cwnd * 100;
        var rhs := TcpFlow.Scaled(newv.prevCwnd, cfg.cwndDropPercent);
        if lhs <= rhs && now > Add64(newv.lastCwndEvent, cfg.eventCooldownNs) {
          events := events + [TcpCwndDrop(flow, cwnd, newv.prevCwnd)];
          newv := newv.(lastCwndEvent := now);
        }
      }
      tcpFlows := tcpFlows[flow := newv];
    }

    /** `nd_tcp_state_delta_add`. */
    method StateDeltaAdd(cpu: nat, state: int, delta: Unit)
      requires cpu < |cpus|
      modifies this`cpus
      ensures cpus == RunWrites(old(cpus), cpu, DeltaWrites(state, delta))
    {
      if state < 0 || state >= TCP_STATES {
        return;
      }
      ghost var ws := Put(cpu, AddDelta(state, delta), cpus, []);
      assert ws == DeltaWrites(state, delta);
    }

    /** `nd_inet_sock_set_state`. */
    method InetSockSetState(cpu: nat, ipv4: bool, sk: TcpLifecycle.Sock, flow: FlowKey,
                            oldState: int, newState: int, now: u64)
      requires cpu < |cpus|
      modifies this`cpus, this`connLife, this`events
      ensures !ipv4 ==> Now() == old(Now()) && events == old(events)
      ensures ipv4 ==>
                var s := TcpLifecycle.Next(cfg, TcpLifecycle.State(old(cpus), old(connLife)),
                                           TcpLifecycle.Transition(cpu, sk, oldState, newState, now));
                && cpus == s.mems && connLife == s.life
                && events == old(events) + LifecycleEvents(cfg, flow, old(connLife), sk, oldState, newState, now)
      ensures ipv4 ==> Now() == Program.Next(cfg, old(Now()), Program.SetState(cpu, sk, flow, oldState, newState, now))
      ensures ipv4 ==>
                events == old(events)
                        + EventsOf(cfg, old(Now()), Program.SetState(cpu, sk, flow, oldState, newState, now))
    {
      if ipv4 {
        ghost var c0, dur := cpus, TcpLifecycle.DurationUs(connLife, sk, now);
        CountTransition(cpu, oldState, newState);
        TrackConnection(cpu, sk, flow, oldState, newState, now);
        RunWritesConcat(c0, cpu, DeltaWrites(oldState, -1) + DeltaWrites(newState, 1) + AttemptWrites(newState),
                        LifecycleWrites(cfg, oldState, newState, dur));
        TransitionIsStep(cfg, old(Now()), cpu, sk, flow, oldState, newState, now);
      }
    }

    /** The two deltas and the attempt counter. */
    method CountTransition(cpu: nat, oldState: int, newState: int)
      requires cpu < |cpus|
      modifies this`cpus
      ensures cpus == RunWrites(old(cpus), cpu,
                                DeltaWrites(oldState, -1) + DeltaWrites(newState, 1) + AttemptWrites(newState))
    {
      ghost var c0 := cpus;
      StateDeltaAdd(cpu, oldState, -1);
      StateDeltaAdd(cpu, newState, 1);
      RunWritesConcat(c0, cpu, DeltaWrites(oldState, -1), DeltaWrites(newState, 1));
      ghost var c2 := cpus;
      if newState == TCP_SYN_SENT || newState == TCP_SYN_RECV {
        ghost var ws := Put(cpu, Inc(ConnectAttemptTotal), cpus, []);
        assert ws == AttemptWrites(newState);
      }
      assert cpus == RunWrites(c2, cpu, AttemptWrites(newState));
      RunWritesConcat(c0, cpu, DeltaWrites(oldState, -1) + DeltaWrites(newState, 1), AttemptWrites(newState));
    }

    /** The branches of the hook after the counters: open, close, or fail. */
    method TrackConnection(cpu: nat, sk: TcpLifecycle.Sock, flow: FlowKey, oldState: int, newState: int, now: u64)
      requires cpu < |cpus|
      modifies this`cpus, this`connLife, this`events
      ensures cpus == RunWrites(old(cpus), cpu, LifecycleWrites(cfg, oldState, newState,
                                                                TcpLifecycle.DurationUs(old(connLife), sk, now)))
      ensures connLife == TcpLifecycle.NextLife(old(connLife),
                                                TcpLifecycle.Transition(cpu, sk, oldState, newState, now))
      ensures events == old(events) + LifecycleEvents(cfg, flow, old(connLife), sk, oldState, newState, now)
    {
      ghost var before, ws := cpus, [];
      if newState == TCP_ESTABLISHED {
        connLife := connLife[sk := now];
        return;
      }
      if oldState == TCP_ESTABLISHED {
        if sk in connLife {
          var durUs := 0;
          if now > connLife[sk] {
            durUs := (now - connLife[sk]) / 1000;
          }
          ws := Put(cpu, Inc(ClosedTotal), before, ws);
          if durUs > 0 && durUs < cfg.shortTcpConnUs {
            ws := Put(cpu, Inc(ShortLivedTotal), before, ws);
            events := events + [ShortTcpConn(flow, durUs)];
          }
          assert ws == CloseWrites(cfg, Some(durUs));
        }
        connLife := connLife - {sk};
        return;
      }
      if IsSynState(oldState) && newState == TCP_CLOSE {
        ws := Put(cpu, Inc(ConnectFailedTotal), before, ws);
        assert ws == [Inc(ConnectFailedTotal)];
        events := events + [TcpConnectFail(flow, oldState, newState)];
      }
    }

    /** `nd_sched_wakeup_common`. */
    method SchedWakeup(pid: nat, now: u64)
      modifies this`runqStart
      ensures runqStart == RunQueue.NextStart(old(runqStart), RunQueue.Wakeup(pid, now))
      ensures Now() == Program.Next(cfg, old(Now()), Program.Wakeup(pid, now))
    {
      if pid == 0 {
        return;
      }
      runqStart := runqStart[pid := now];
    }

    /** `nd_sched_switch`. */
    method SchedSwitch(cpu: nat, pid: nat, now: u64)
      requires cpu < |cpus|
      modifies this`cpus, this`runqStart, this`events
      ensures pid == 0 ==> Now() == old(Now()) && events == old(events)
      ensures pid != 0 ==> events == old(events) + SwitchEvents(cfg, pid, RunQueue.RunqlatUs(old(runqStart), pid, now))
      ensures Now() == Program.Next(cfg, old(Now()), Program.SwitchIn(cpu, pid, now))
      ensures events == old(events) + EventsOf(cfg, old(Now()), Program.SwitchIn(cpu, pid, now))
      ensures pid != 0 && pid in old(runqStart) ==>
                var s := old(runqStart)[pid];
                events == old(events) + (if now > s && (now - s) / 1000 >= cfg.highRunqlatUs
                                         then [HighRunqlat((now - s) / 1000, pid)] else [])
      ensures pid == 0 || pid !in old(runqStart) ==> events == old(events)
    {
      if pid != 0 {
        ConsumeWakeup(cpu, pid, now);
      }
    }

    /** The run-queue sample. */
    method BumpRunqlat(cpu: nat, runqlatUs: u64)
      requires cpu < |cpus|
      modifies this`cpus
      ensures cpus == RunWrites(old(cpus), cpu, SwitchWrites(Some(runqlatUs)))
    {
      var b := Log2Bucket(runqlatUs);
      ghost var ws := Put(cpu, Inc(Runqlat(b)), cpus, []);
      assert ws == SwitchWrites(Some(runqlatUs));
    }

    /** The lookup, the sample and the delete for a task that is not idle. */
    method ConsumeWakeup(cpu: nat, pid: nat, now: u64)
      requires cpu < |cpus| && pid != 0
      modifies this`cpus, this`runqStart, this`events
      ensures var l := RunQueue.RunqlatUs(old(runqStart), pid, now);
              && cpus == RunWrites(old(cpus), cpu, SwitchWrites(l))
              && runqStart == RunQueue.NextStart(old(runqStart), RunQueue.SwitchIn(cpu, pid, now))
              && events == old(events) + SwitchEvents(cfg, pid, l)
    {
      if pid !in runqStart {
        return;
      }
      var start := runqStart[pid];
      if now > start {
        var runqlatUs := (now - start) / 1000;
        BumpRunqlat(cpu, runqlatUs);
        if runqlatUs >= cfg.highRunqlatUs {
          events := events + [HighRunqlat(runqlatUs, pid)];
        }
      }
      runqStart := runqStart - {pid};
    }

    /** The flow part of `nd_parse_ipv4_udp` after packet_total: one packet of a flow. */
    method UdpFlowPacket(cpu: nat, flow: FlowKey, now: u64, len: nat)
      requires cpu < |cpus|
      modifies this`cpus, this`udpFlows, this`events
      ensures udpFlows == UdpFlows.Next(cfg, old(udpFlows), UdpFlows.Packet(flow, now, len))
      ensures var longUs := Program.LongOf(cfg, old(udpFlows), flow, now);
              && cpus == RunWrites(old(cpus), cpu, LongFlowWrites(longUs))
              && events == old(events) + LongEvents(old(udpFlows), flow, longUs)
    {
      if flow !in udpFlows {
        udpFlows := udpFlows[flow := UdpFlows.Flow(now, now, 0, 1, len)];
        return;
      }
      var uv := udpFlows[flow];
      uv := uv.(lastSeen := now, packets := uv.packets + 1, bytes := uv.bytes + len);
      var durUs := 0;
      if now > uv.firstSeen {
        durUs := (now - uv.firstSeen) / 1000;
      }
      if durUs >= cfg.longUdpFlowUs && now > Add64(uv.lastEvent, cfg.eventCooldownNs) {
        var b := Log2Bucket(durUs);
        PutSample(cpu, UdpDuration(b), LongFlowTotal);
        events := events + [LongUdpFlow(flow, durUs, uv.packets)];
        uv := uv.(lastEvent := now);
      }
      udpFlows := udpFlows[flow := uv];
    }

    /** The query branch of `nd_parse_ipv4_udp`. */
    method DnsQuery(cpu: nat, key: DnsKey, now: u64)
      requires cpu < |cpus|
      modifies this`cpus, this`dnsPending
      ensures cpus == RunWrites(old(cpus), cpu, DnsWrites(cfg, DnsPart.Query))
      ensures dnsPending == Span.Next(old(dnsPending), Span.Start(key, now))
    {
      ghost var ws := Put(cpu, Inc(QueryTotal), cpus, []);
      assert ws == DnsWrites(cfg, DnsPart.Query);
      dnsPending := dnsPending[key := now];
    }

    /** The response branch of `nd_parse_ipv4_udp`. */
    method DnsResponse(cpu: nat, flow: FlowKey, key: DnsKey, rcode: nat, now: u64)
      requires cpu < |cpus|
      modifies this`cpus, this`dnsPending, this`events
      ensures var latencyUs := DnsMatcher.LatencyUs(old(dnsPending), key, now);
              && cpus == RunWrites(old(cpus), cpu, ResponseWrites(cfg, rcode, latencyUs))
              && events == old(events) + RcodeEvents(flow, rcode) + SlowEvents(cfg, flow, rcode, latencyUs)
      ensures dnsPending == Span.Next(old(dnsPending), Span.Finish(key, now))
    {
      ghost var c0 := cpus;
      CountResponse(cpu, flow, rcode);
      MatchPending(cpu, flow, key, rcode, now);
      RunWritesConcat(c0, cpu, [Inc(ResponseTotal)] + RcodeWrites(rcode),
                      LatencyWrites(cfg, DnsMatcher.LatencyUs(old(dnsPending), key, now)));
    }

    method CountResponse(cpu: nat, flow: FlowKey, rcode: nat)
      requires cpu < |cpus|
      modifies this`cpus, this`events
      ensures cpus == RunWrites(old(cpus), cpu, [Inc(ResponseTotal)] + RcodeWrites(rcode))
      ensures events == old(events) + RcodeEvents(flow, rcode)
    {
      ghost var c0 := cpus;
      ghost var ws := Put(cpu, Inc(ResponseTotal), c0, []);
      assert ws == [Inc(ResponseTotal)];
      CountRcode(cpu, flow, rcode);
      RunWritesConcat(c0, cpu, [Inc(ResponseTotal)], RcodeWrites(rcode));
    }

    method CountRcode(cpu: nat, flow: FlowKey, rcode: nat)
      requires cpu < |cpus|
      modifies this`cpus, this`events
      ensures cpus == RunWrites(old(cpus), cpu, RcodeWrites(rcode))
      ensures events == old(events) + RcodeEvents(flow, rcode)
    {
      if rcode < DNS_RCODES {
        ghost var before, ws := cpus, [];
        ws := Put(cpu, Inc(Rcode(rcode)), before, ws);
        if rcode != 0 {
          ws := Put(cpu, Inc(RcodeErrorTotal), before, ws);
          events := events + [DnsRcodeError(flow, rcode)];
        }
        assert ws == RcodeWrites(rcode);
      }
    }

    method MatchPending(cpu: nat, flow: FlowKey, key: DnsKey, rcode: nat, now: u64)
      requires cpu < |cpus|
      modifies this`cpus, this`dnsPending, this`events
      ensures var latencyUs := DnsMatcher.LatencyUs(old(dnsPending), key, now);
              && cpus == RunWrites(old(cpus), cpu, LatencyWrites(cfg, latencyUs))
              && events == old(events) + SlowEvents(cfg, flow, rcode, latencyUs)
      ensures dnsPending == old(dnsPending) - {key}
    {
      if key in dnsPending {
        ghost var before, ws := cpus, [];
        var latencyUs := 0;
        if now > dnsPending[key] {
          latencyUs := (now - dnsPending[key]) / 1000;
        }
        if latencyUs > 0 {
          var b := Log2Bucket(latencyUs);
          ws := Put(cpu, Inc(DnsLatency(b)), before, ws);
        }
        if latencyUs >= cfg.slowDnsUs {
          ws := Put(cpu, Inc(SlowTotal), before, ws);
          events := events + [SlowDns(flow, latencyUs, rcode)];
        }
        assert ws == LatencyWrites(cfg, Some(latencyUs));
        dnsPending := dnsPending - {key};
      }
    }

    /** `nd_tc_ingress` and `nd_tc_egress`: parse, then handle what was accepted. */
    method TcPacket(cpu: nat, data: seq<Parser.byte>, len: nat, ifindex: nat, direction: Direction, now: u64)
      requires cpu < |cpus|
      modifies this`cpus, this`udpFlows, this`dnsPending, this`events
      ensures Parser.Parse(data).None? ==>
                cpus == old(cpus) && udpFlows == old(udpFlows) && dnsPending == old(dnsPending) && events == old(events)
      ensures Parser.Parse(data).Some? ==>
                var d := Parser.Parse(data).value;
                var flow, action := Parser.FlowOf(ifindex, direction, d), Parser.Classify(ifindex, d);
                && udpFlows == UdpFlows.Next(cfg, old(udpFlows), UdpFlows.Packet(flow, now, len))
                && dnsPending == PendingAfter(old(dnsPending), action, now)
                && cpus == RunWrites(old(cpus), cpu,
                                     WritesOf(cfg, PacketHook(cfg, old(udpFlows), old(dnsPending), flow, action, now)))
                && events == old(events) + PacketEvents(cfg, old(udpFlows), old(dnsPending), flow, action, now)
      ensures Parser.Parse(data).Some? ==>
                var d := Parser.Parse(data).value;
                var flow, action := Parser.FlowOf(ifindex, direction, d), Parser.Classify(ifindex, d);
                Now() == Program.Next(cfg, old(Now()), Program.Packet(cpu, flow, action, len, now))
      ensures Parser.Parse(data).Some? ==>
                var d := Parser.Parse(data).value;
                var flow, action := Parser.FlowOf(ifindex, direction, d), Parser.Classify(ifindex, d);
                events == old(events) + EventsOf(cfg, old(Now()), Program.Packet(cpu, flow, action, len, now))
    {
      var parsed := Parser.Parse(data);
      if parsed.Some? {
        var d := parsed.value;
        Accepted(cpu, Parser.FlowOf(ifindex, direction, d), Parser.Classify(ifindex, d), now, len);
      }
    }

    /** Accounts an accepted packet to its flow, then looks at DNS. */
    method Accepted(cpu: nat, flow: FlowKey, action: Parser.DnsAction, now: u64, len: nat)
      requires cpu < |cpus|
      modifies this`cpus, this`udpFlows, this`dnsPending, this`events
      ensures udpFlows == UdpFlows.Next(cfg, old(udpFlows), UdpFlows.Packet(flow, now, len))
      ensures dnsPending == PendingAfter(old(dnsPending), action, now)
      ensures cpus == RunWrites(old(cpus), cpu,
                                WritesOf(cfg, PacketHook(cfg, old(udpFlows), old(dnsPending), flow, action, now)))
      ensures events == old(events) + PacketEvents(cfg, old(udpFlows), old(dnsPending), flow, action, now)
    {
      ghost var c0 := cpus;
      UdpPacket(cpu, flow, now, len);
      TcDns(cpu, flow, action, now);
      ghost var longUs := Program.LongOf(cfg, old(udpFlows), flow, now);
      ghost var part := Program.PartOf(old(dnsPending), action, now);
      RunWritesConcat(c0, cpu, PacketWrites(longUs), DnsWrites(cfg, part));
      DatagramWrites(cfg, longUs, part);
    }

    method UdpPacket(cpu: nat, flow: FlowKey, now: u64, len: nat)
      requires cpu < |cpus|
      modifies this`cpus, this`udpFlows, this`events
      ensures udpFlows == UdpFlows.Next(cfg, old(udpFlows), UdpFlows.Packet(flow, now, len))
      ensures var longUs := Program.LongOf(cfg, old(udpFlows), flow, now);
              && cpus == RunWrites(old(cpus), cpu, PacketWrites(longUs))
              && events == old(events) + LongEvents(old(udpFlows), flow, longUs)
    {
      ghost var c0 := cpus;
      ghost var ws := Put(cpu, Inc(PacketTotal), c0, []);
      assert ws == [Inc(PacketTotal)];
      UdpFlowPacket(cpu, flow, now, len);
      RunWritesConcat(c0, cpu, [Inc(PacketTotal)], LongFlowWrites(Program.LongOf(cfg, old(udpFlows), flow, now)));
    }

    method TcDns(cpu: nat, flow: FlowKey, action: Parser.DnsAction, now: u64)
      requires cpu < |cpus|
      modifies this`cpus, this`dnsPending, this`events
      ensures dnsPending == PendingAfter(old(dnsPending), action, now)
      ensures var part := Program.PartOf(old(dnsPending), action, now);
              && cpus == RunWrites(old(cpus), cpu, DnsWrites(cfg, part))
              && events == old(events) + DnsEvents(cfg, flow, part)
    {
      match action
      case NotDns =>
      case QuerySeen(key) =>
        DnsQuery(cpu, key, now);
      case ResponseSeen(key, rcode) =>
        DnsResponse(cpu, flow, key, rcode, now);
    }
  }

  lemma DatagramWrites(cfg: Config, longUs: Option<nat>, part: DnsPart)
    ensures WritesOf(cfg, Datagram(longUs, part)) == PacketWrites(longUs) + DnsWrites(cfg, part)
  {
  }

  /** A transition of the lifecycle table is a step of the program. */
  lemma TransitionIsStep(cfg: Config, s: Program.State, cpu: nat, sk: TcpLifecycle.Sock, flow: FlowKey,
                         oldState: int, newState: int, now: u64)
    requires cpu < |s.mems|
    ensures var l := TcpLifecycle.Next(cfg, TcpLifecycle.State(s.mems, s.life),
                                       TcpLifecycle.Transition(cpu, sk, oldState, newState, now));
            Program.Next(cfg, s, Program.SetState(cpu, sk, flow, oldState, newState, now))
            == s.(mems := l.mems, life := l.life)
  {
  }

  /** The handler run of an accepted packet, with what it found in the maps. */
  function PacketHook(cfg: Config, flows: UdpFlows.Table, pending: map<DnsKey, u64>, flow: FlowKey,
                      action: Parser.DnsAction, now: u64): Hook
  {
    Datagram(Program.LongOf(cfg, flows, flow, now), Program.PartOf(pending, action, now))
  }

  function PendingAfter(pending: map<DnsKey, u64>, action: Parser.DnsAction, now: u64): map<DnsKey, u64> {
    match action
    case NotDns => pending
    case QuerySeen(key) => Span.Next(pending, Span.Start(key, now))
    case ResponseSeen(key, _) => Span.Next(pending, Span.Finish(key, now))
  }
}
