/** The records the hooks submit to the ring buffer, as a function of what they find in the maps. */
module Events {
  import opened Base
  import opened Config
  import opened Keys
  import opened PerCpu
  import Retrans
  import TcpFlow
  import TcpLifecycle
  import UdpFlows
  import RunQueue
  import Parser
  import Program

  /** Submitted ring-buffer records, with the fields each kind of event fills in. */
  datatype Event =
    | SlowTcpRtt(flow: FlowKey, srttUs: int, cwnd: int)
    | TcpCwndDrop(flow: FlowKey, cwnd: int, prevCwnd: int)
    | RetransBurst(flow: FlowKey, count: nat, windowNs: u64)
    | ShortTcpConn(flow: FlowKey, durUs: nat)
    | TcpConnectFail(flow: FlowKey, oldState: int, newState: int)
    | SlowDns(flow: FlowKey, latencyUs: nat, rcode: nat)
    | DnsRcodeError(flow: FlowKey, rcode: nat)
    | LongUdpFlow(flow: FlowKey, durUs: nat, packets: nat)
    | HighRunqlat(runqlatUs: nat, pid: nat)

  function EventsWhen(cond: bool, e: Event): seq<Event> {
    if cond then [e] else []
  }

  function LongEvents(t: UdpFlows.Table, flow: FlowKey, longUs: Option<nat>): seq<Event> {
    if longUs.Some? && flow in t then [LongUdpFlow(flow, longUs.value, t[flow].packets + 1)] else []
  }

  function SwitchEvents(cfg: Config, pid: nat, runqlatUs: Option<nat>): seq<Event> {
    if runqlatUs.Some? && runqlatUs.value >= cfg.highRunqlatUs then [HighRunqlat(runqlatUs.value, pid)] else []
  }

  function RcodeEvents(flow: FlowKey, rcode: nat): seq<Event> {
    EventsWhen(0 < rcode < DNS_RCODES, DnsRcodeError(flow, rcode))
  }

  function SlowEvents(cfg: Config, flow: FlowKey, rcode: nat, latencyUs: Option<nat>): seq<Event> {
    if latencyUs.Some? && latencyUs.value >= cfg.slowDnsUs then [SlowDns(flow, latencyUs.value, rcode)] else []
  }

  function DnsEvents(cfg: Config, flow: FlowKey, part: DnsPart): seq<Event> {
    match part
    case Response(rcode, latencyUs) => RcodeEvents(flow, rcode) + SlowEvents(cfg, flow, rcode, latencyUs)
    case _ => []
  }

  function SampleEvents(cfg: Config, flow: FlowKey, v: TcpFlow.Value, now: u64): seq<Event> {
    EventsWhen(TcpFlow.SlowRtt(cfg, v, now), SlowTcpRtt(flow, v.srttUs, v.cwnd))
    + EventsWhen(TcpFlow.CwndDrop(cfg, v, now), TcpCwndDrop(flow, v.cwnd, v.prevCwnd))
  }

  function LifecycleEvents(cfg: Config, flow: FlowKey, life: map<TcpLifecycle.Sock, u64>, sk: TcpLifecycle.Sock,
                           oldState: int, newState: int, now: u64): seq<Event>
  {
    if newState == TCP_ESTABLISHED then []
    else if oldState == TCP_ESTABLISHED then
      var dur := TcpLifecycle.DurationUs(life, sk, now);
      if dur.Some? && 0 < dur.value < cfg.shortTcpConnUs then [ShortTcpConn(flow, dur.value)] else []
    else EventsWhen(IsSynState(oldState) && newState == TCP_CLOSE, TcpConnectFail(flow, oldState, newState))
  }

  function PacketEvents(cfg: Config, flows: UdpFlows.Table, pending: map<DnsKey, u64>, flow: FlowKey,
                        action: Parser.DnsAction, now: u64): seq<Event>
  {
    LongEvents(flows, flow, Program.LongOf(cfg, flows, flow, now))
    + DnsEvents(cfg, flow, Program.PartOf(pending, action, now))
  }

  /** The events of one operation of the program, in order. */
  function EventsOf(cfg: Config, s: Program.State, op: Program.Op): seq<Event> {
    match op
    case Retransmit(_, flow, now) =>
      var v := Retrans.Window(cfg, Lookup(s.retrans, flow), now);
      EventsWhen(Retrans.Fires(cfg, v, now), RetransBurst(flow, v.count, cfg.retransBurstWindowNs))
    case Received(_, flow, srttUs, cwnd, now) =>
      SampleEvents(cfg, flow, TcpFlow.Carried(Lookup(s.tcpFlows, flow), srttUs, cwnd, now), now)
    case SetState(_, sk, flow, oldState, newState, now) =>
      LifecycleEvents(cfg, flow, s.life, sk, oldState, newState, now)
    case Packet(_, flow, action, _, now) => PacketEvents(cfg, s.udpFlows, s.pending, flow, action, now)
    case SwitchIn(_, pid, now) =>
      if pid == 0 then [] else SwitchEvents(cfg, pid, RunQueue.RunqlatUs(s.runq, pid, now))
    case _ => []
  }

  /** All events of a run. */
  function Log(cfg: Config, ncpu: nat, ops: seq<Program.Op>): seq<Event> {
    if ops == [] then []
    else
      var n := |ops| - 1;
      Log(cfg, ncpu, ops[..n]) + EventsOf(cfg, Program.Run(cfg, ncpu, ops[..n]), ops[n])
  }

  function Count(es: seq<Event>, p: Event -> bool): nat {
    if es == [] then 0 else Count(es[..|es| - 1], p) + if p(es[|es| - 1]) then 1 else 0
  }
}
