/**
 The whole kernel program as one step machine: every hook reads and updates its maps and writes the
 per-CPU memory of its CPU, and entries are lost to the collector or to eviction at any time. The
 table modules are its projections, so their theorems hold of one run of the whole together.
 */
module Program {
  import opened Base
  import opened Config
  import opened Keys
  import opened Histogram
  import opened PerCpu
  import Retrans
  import TcpFlow
  import TcpLifecycle
  import UdpFlows
  import Span
  import SpanHistogram
  import DnsMatcher
  import RunQueue
  import Parser

  datatype State = State(
    mems: seq<CpuMem>,
    life: map<TcpLifecycle.Sock, u64>,
    tcpFlows: TcpFlow.Table,
    retrans: Retrans.Table,
    pending: map<DnsKey, u64>,
    udpFlows: UdpFlows.Table,
    runq: map<nat, u64>
  )

  /** An entry of one of the hash maps. */
  datatype Entry =
    | LifeEntry(sk: TcpLifecycle.Sock)
    | TcpFlowEntry(flow: FlowKey)
    | RetransEntry(flow: FlowKey)
    | PendingEntry(key: DnsKey, cause: Span.Cause)
    | UdpFlowEntry(flow: FlowKey)
    | RunqEntry(pid: nat)

  datatype Op =
    | Retransmit(cpu: nat, flow: FlowKey, now: u64)
    | Received(cpu: nat, flow: FlowKey, srttUs: SrttUs, cwnd: u32, now: u64)
    | SetState(cpu: nat, sk: TcpLifecycle.Sock, flow: FlowKey, oldState: int, newState: int, now: u64)
    | Packet(cpu: nat, flow: FlowKey, action: Parser.DnsAction, len: nat, now: u64)
    | Wakeup(pid: nat, now: u64)
    | SwitchIn(cpu: nat, pid: nat, now: u64)
    | Lose(entry: Entry)

  // ---------------------------------------------------------------- what each table sees

  function LifeOp(op: Op): Option<TcpLifecycle.Op> {
    match op
    case SetState(cpu, sk, _, oldState, newState, now) =>
      Some(TcpLifecycle.Transition(cpu, sk, oldState, newState, now))
    case Lose(LifeEntry(sk)) => Some(TcpLifecycle.EvictLife(sk))
    case _ => None
  }

  function TcpFlowOp(op: Op): Option<TcpFlow.Op> {
    match op
    case Received(_, flow, srttUs, cwnd, now) => Some(TcpFlow.Sample(flow, srttUs, cwnd, now))
    case Retransmit(_, flow, now) => Some(TcpFlow.Retransmit(flow, now))
    case Lose(TcpFlowEntry(flow)) => Some(TcpFlow.Evict(flow))
    case _ => None
  }

  function RetransOp(op: Op): Option<Retrans.Op> {
    match op
    case Retransmit(_, flow, now) => Some(Retrans.Retransmit(flow, now))
    case Lose(RetransEntry(flow)) => Some(Retrans.Evict(flow))
    case _ => None
  }

  function DnsOp(op: Op): Option<DnsMatcher.Op> {
    match op
    case Packet(cpu, _, QuerySeen(key), _, now) => Some(DnsMatcher.Query(cpu, key, now))
    case Packet(cpu, _, ResponseSeen(key, rcode), _, now) => Some(DnsMatcher.Response(cpu, key, rcode, now))
    case Lose(PendingEntry(key, cause)) => Some(DnsMatcher.Drop(key, cause))
    case _ => None
  }

  function UdpOp(op: Op): Option<UdpFlows.Op> {
    match op
    case Packet(_, flow, _, len, now) => Some(UdpFlows.Packet(flow, now, len))
    case Lose(UdpFlowEntry(flow)) => Some(UdpFlows.Remove(flow))
    case _ => None
  }

  function RunqOp(op: Op): Option<RunQueue.Op> {
    match op
    case Wakeup(pid, now) => Some(RunQueue.Wakeup(pid, now))
    case SwitchIn(cpu, pid, now) => Some(RunQueue.SwitchIn(cpu, pid, now))
    case Lose(RunqEntry(pid)) => Some(RunQueue.EvictStart(pid))
    case _ => None
  }

  // ---------------------------------------------------------------- the step machine

  function LongOf(cfg: Config, t: UdpFlows.Table, flow: FlowKey, now: u64): Option<nat> {
    if flow in t then UdpFlows.LongUs(cfg, t[flow], now) else None
  }

  /** What the DNS part of a packet contributes to the handler's writes. */
  function PartOf(pending: map<DnsKey, u64>, action: Parser.DnsAction, now: u64): DnsPart {
    match action
    case NotDns => NoDns
    case QuerySeen(_) => DnsPart.Query
    case ResponseSeen(key, rcode) => DnsPart.Response(rcode, DnsMatcher.LatencyUs(pending, key, now))
  }

  function BurstOf(cfg: Config, t: Retrans.Table, flow: FlowKey, now: u64): bool {
    Retrans.Fires(cfg, Retrans.Window(cfg, Lookup(t, flow), now), now)
  }

  /** The handler run an operation amounts to, with what it finds in the maps. */
  function HookOf(cfg: Config, s: State, op: Op): Option<Hook> {
    match op
    case Retransmit(_, flow, now) => Some(PerCpu.Retransmit(BurstOf(cfg, s.retrans, flow, now)))
    case Received(_, _, srttUs, cwnd, _) => Some(RcvEstablished(srttUs, cwnd))
    case SetState(_, sk, _, oldState, newState, now) =>
      Some(PerCpu.SetState(oldState, newState, TcpLifecycle.DurationUs(s.life, sk, now)))
    case Packet(_, flow, action, _, now) =>
      Some(Datagram(LongOf(cfg, s.udpFlows, flow, now), PartOf(s.pending, action, now)))
    case SwitchIn(_, pid, now) => if pid == 0 then None else Some(Switch(RunQueue.RunqlatUs(s.runq, pid, now)))
    case _ => None
  }

  function Next(cfg: Config, s: State, op: Op): (r: State)
    ensures |r.mems| == |s.mems|
  {
    var hook := HookOf(cfg, s, op);
    State(
      if hook.Some? && op.cpu < |s.mems| then RunWrites(s.mems, op.cpu, WritesOf(cfg, hook.value)) else s.mems,
      if LifeOp(op).Some? then TcpLifecycle.NextLife(s.life, LifeOp(op).value) else s.life,
      if TcpFlowOp(op).Some? then TcpFlow.Next(cfg, s.tcpFlows, TcpFlowOp(op).value) else s.tcpFlows,
      if RetransOp(op).Some? then Retrans.Next(cfg, s.retrans, RetransOp(op).value) else s.retrans,
      if DnsOp(op).Some? then Span.Next(s.pending, DnsMatcher.AsSpan(DnsOp(op).value)) else s.pending,
      if UdpOp(op).Some? then UdpFlows.Next(cfg, s.udpFlows, UdpOp(op).value) else s.udpFlows,
      if RunqOp(op).Some? then RunQueue.NextStart(s.runq, RunqOp(op).value) else s.runq
    )
  }

  function Boot(ncpu: nat): State {
    State(Blank(ncpu), map[], map[], map[], map[], map[], map[])
  }

  function Run(cfg: Config, ncpu: nat, ops: seq<Op>): (s: State)
    ensures |s.mems| == ncpu
  {
    if ops == [] then Boot(ncpu) else Next(cfg, Run(cfg, ncpu, ops[..|ops| - 1]), ops[|ops| - 1])
  }

  predicate OnCpu(op: Op) {
    !op.Wakeup? && !op.Lose?
  }

  ghost predicate CpusExist(ncpu: nat, ops: seq<Op>) {
    forall i :: 0 <= i < |ops| && OnCpu(ops[i]) ==> ops[i].cpu < ncpu
  }

  // ---------------------------------------------------------------- projections

  /** The operations of a run that a table sees, as it sees them. */
  function Project<T>(ops: seq<Op>, view: Op -> Option<T>): seq<T> {
    if ops == [] then []
    else
      var n := |ops| - 1;
      Project(ops[..n], view) + if view(ops[n]).Some? then [view(ops[n]).value] else []
  }

  lemma ProjectStep<T>(ops: seq<Op>, view: Op -> Option<T>)
    requires ops != []
    ensures var n, all := |ops| - 1, Project(ops, view);
            if view(ops[n]).Some?
            then all != [] && all[..|all| - 1] == Project(ops[..n], view) && all[|all| - 1] == view(ops[n]).value
            else all == Project(ops[..n], view)
  {
  }

  lemma {:induction false} LifeIsProjection(cfg: Config, ncpu: nat, ops: seq<Op>)
    ensures Run(cfg, ncpu, ops).life == TcpLifecycle.Run(cfg, ncpu, Project(ops, LifeOp)).life
  {
    if ops != [] {
      LifeIsProjection(cfg, ncpu, ops[..|ops| - 1]);
      ProjectStep(ops, LifeOp);
    }
  }

  lemma {:induction false} TcpFlowsAreProjection(cfg: Config, ncpu: nat, ops: seq<Op>)
    ensures Run(cfg, ncpu, ops).tcpFlows == TcpFlow.Run(cfg, Project(ops, TcpFlowOp))
  {
    if ops != [] {
      TcpFlowsAreProjection(cfg, ncpu, ops[..|ops| - 1]);
      ProjectStep(ops, TcpFlowOp);
    }
  }

  lemma {:induction false} RetransIsProjection(cfg: Config, ncpu: nat, ops: seq<Op>)
    ensures Run(cfg, ncpu, ops).retrans == Retrans.Run(cfg, Project(ops, RetransOp))
  {
    if ops != [] {
      RetransIsProjection(cfg, ncpu, ops[..|ops| - 1]);
      ProjectStep(ops, RetransOp);
    }
  }

  lemma {:induction false} PendingIsProjection(cfg: Config, ncpu: nat, ops: seq<Op>)
    ensures Run(cfg, ncpu, ops).pending == DnsMatcher.Run(cfg, ncpu, Project(ops, DnsOp)).pending
  {
    if ops != [] {
      PendingIsProjection(cfg, ncpu, ops[..|ops| - 1]);
      ProjectStep(ops, DnsOp);
    }
  }

  lemma {:induction false} UdpFlowsAreProjection(cfg: Config, ncpu: nat, ops: seq<Op>)
    ensures Run(cfg, ncpu, ops).udpFlows == UdpFlows.Run(cfg, Project(ops, UdpOp))
  {
    if ops != [] {
      UdpFlowsAreProjection(cfg, ncpu, ops[..|ops| - 1]);
      ProjectStep(ops, UdpOp);
    }
  }

  lemma {:induction false} RunqIsProjection(cfg: Config, ncpu: nat, ops: seq<Op>)
    ensures Run(cfg, ncpu, ops).runq == RunQueue.Run(ncpu, Project(ops, RunqOp)).start
  {
    if ops != [] {
      RunqIsProjection(cfg, ncpu, ops[..|ops| - 1]);
      ProjectStep(ops, RunqOp);
    }
  }

  /** Every map of the program is the table its module describes, run on the operations that concern it. */
  lemma TablesAreProjections(cfg: Config, ncpu: nat, ops: seq<Op>)
    ensures var s := Run(cfg, ncpu, ops);
            && s.life == TcpLifecycle.Run(cfg, ncpu, Project(ops, LifeOp)).life
            && s.tcpFlows == TcpFlow.Run(cfg, Project(ops, TcpFlowOp))
            && s.retrans == Retrans.Run(cfg, Project(ops, RetransOp))
            && s.pending == DnsMatcher.Run(cfg, ncpu, Project(ops, DnsOp)).pending
            && s.udpFlows == UdpFlows.Run(cfg, Project(ops, UdpOp))
            && s.runq == RunQueue.Run(ncpu, Project(ops, RunqOp)).start
  {
    LifeIsProjection(cfg, ncpu, ops);
    TcpFlowsAreProjection(cfg, ncpu, ops);
    RetransIsProjection(cfg, ncpu, ops);
    PendingIsProjection(cfg, ncpu, ops);
    UdpFlowsAreProjection(cfg, ncpu, ops);
    RunqIsProjection(cfg, ncpu, ops);
  }

  // ---------------------------------------------------------------- who writes what

  /** The hook, or the part of the packet hook, that writes a cell. */
  datatype Writer = ByReceived | ByRetransmit | BySetState | ByFlow | ByDns | BySwitch

  function WriterOf(c: Cell): Writer {
    match c
    case RttSampleTotal | CwndSampleTotal | Srtt(_) | Cwnd(_) => ByReceived
    case RetransTotal | RetransBurstTotal => ByRetransmit
    case ClosedTotal | ShortLivedTotal | ConnectAttemptTotal | ConnectFailedTotal | Delta(_) | DeltaUpdates(_) =>
      BySetState
    case PacketTotal | LongFlowTotal | UdpDuration(_) => ByFlow
    case QueryTotal | ResponseTotal | RcodeErrorTotal | SlowTotal | Rcode(_) | DnsLatency(_) => ByDns
    case Runqlat(_) => BySwitch
  }

  predicate Writes(h: Hook, w: Writer) {
    match h
    case RcvEstablished(_, _) => w == ByReceived
    case Retransmit(_) => w == ByRetransmit
    case SetState(_, _, _) => w == BySetState
    case Datagram(_, _) => w == ByFlow || w == ByDns
    case Switch(_) => w == BySwitch
  }

  lemma FlowPartForeign(longUs: Option<nat>, c: Cell)
    requires WriterOf(c) != ByFlow
    ensures EffectAll(PacketWrites(longUs), c) == 0
  {
    PacketEffect(longUs, c);
  }

  lemma LatencyForeign(cfg: Config, latencyUs: Option<nat>, c: Cell)
    requires WriterOf(c) != ByDns
    ensures EffectAll(LatencyWrites(cfg, latencyUs), c) == 0
  {
    LatencyEffect(cfg, latencyUs, c);
  }

  lemma DnsPartForeign(cfg: Config, dns: DnsPart, c: Cell)
    requires WriterOf(c) != ByDns
    ensures EffectAll(DnsWrites(cfg, dns), c) == 0
  {
    match dns
    case NoDns =>
    case Query => EffectOne(Inc(QueryTotal), c);
    case Response(rcode, latencyUs) =>
      LatencyForeign(cfg, latencyUs, c);
      ResponseEffect(cfg, rcode, latencyUs, c);
  }

  lemma DatagramEffect(cfg: Config, longUs: Option<nat>, dns: DnsPart, c: Cell)
    ensures EffectAll(WritesOf(cfg, Datagram(longUs, dns)), c)
         == (if WriterOf(c) == ByFlow then EffectAll(PacketWrites(longUs), c)
             else if WriterOf(c) == ByDns then EffectAll(DnsWrites(cfg, dns), c)
             else 0)
  {
    EffectConcat(PacketWrites(longUs), DnsWrites(cfg, dns), c);
    if WriterOf(c) != ByFlow {
      FlowPartForeign(longUs, c);
    }
    if WriterOf(c) != ByDns {
      DnsPartForeign(cfg, dns, c);
    }
  }

  lemma SetStateForeign(cfg: Config, oldState: int, newState: int, durUs: Option<nat>, c: Cell)
    requires WriterOf(c) != BySetState
    ensures EffectAll(SetStateWrites(cfg, oldState, newState, durUs), c) == 0
  {
    LifecycleEffect(cfg, oldState, newState, durUs, c);
    SetStateEffect(cfg, oldState, newState, durUs, c);
  }

  lemma ReceivedForeign(srttUs: SrttUs, cwnd: u32, c: Cell)
    requires WriterOf(c) != ByReceived
    ensures EffectAll(RcvEstablishedWrites(srttUs, cwnd), c) == 0
  {
    RcvEstablishedEffect(srttUs, cwnd, c);
  }

  lemma SwitchForeign(latencyUs: Option<nat>, c: Cell)
    requires WriterOf(c) != BySwitch
    ensures EffectAll(SwitchWrites(latencyUs), c) == 0
  {
    if latencyUs.Some? {
      EffectOne(Inc(Runqlat(Bucket(latencyUs.value))), c);
    }
  }

  /** A hook leaves the cells of the others alone. */
  lemma ForeignCell(cfg: Config, h: Hook, c: Cell)
    requires !Writes(h, WriterOf(c))
    ensures EffectAll(WritesOf(cfg, h), c) == 0
  {
    match h
    case RcvEstablished(srttUs, cwnd) => ReceivedForeign(srttUs, cwnd, c);
    case Retransmit(burst) => RetransmitEffect(burst, c);
    case SetState(oldState, newState, durUs) => SetStateForeign(cfg, oldState, newState, durUs, c);
    case Datagram(longUs, dns) => DatagramEffect(cfg, longUs, dns, c);
    case Switch(latencyUs) => SwitchForeign(latencyUs, c);
  }

  /** How one operation moves the cross-CPU total of a cell. */
  function EffectOf(cfg: Config, s: State, op: Op, c: Cell): int {
    var hook := HookOf(cfg, s, op);
    if hook.Some? then EffectAll(WritesOf(cfg, hook.value), c) else 0
  }

  lemma StepTotal(cfg: Config, s: State, op: Op, c: Cell)
    requires OnCpu(op) ==> op.cpu < |s.mems|
    ensures Total(Next(cfg, s, op).mems, c) == Total(s.mems, c) + EffectOf(cfg, s, op, c)
  {
    var hook := HookOf(cfg, s, op);
    if hook.Some? {
      TotalAfter(s.mems, op.cpu, WritesOf(cfg, hook.value), c);
    }
  }

  // ---------------------------------------------------------------- the counters of each table

  lemma DnsRunStep(cfg: Config, ncpu: nat, ops: seq<Op>)
    requires ops != []
    ensures var n := |ops| - 1;
            var d, op := DnsMatcher.Run(cfg, ncpu, Project(ops[..n], DnsOp)), DnsOp(ops[n]);
            DnsMatcher.Run(cfg, ncpu, Project(ops, DnsOp)) == if op.Some? then DnsMatcher.Next(cfg, d, op.value) else d
  {
    ProjectStep(ops, DnsOp);
  }

  lemma DnsEffect(cfg: Config, s: State, op: Op, c: Cell)
    requires WriterOf(c) == ByDns
    ensures EffectOf(cfg, s, op, c)
         == if DnsOp(op).Some? then EffectAll(DnsMatcher.Writes(cfg, s.pending, DnsOp(op).value), c) else 0
  {
    var hook := HookOf(cfg, s, op);
    if op.Packet? {
      DatagramEffect(cfg, hook.value.longUs, hook.value.dns, c);
    } else if hook.Some? {
      ForeignCell(cfg, hook.value, c);
    }
  }

  lemma DnsStep(cfg: Config, s: State, d: DnsMatcher.State, op: Op, c: Cell)
    requires WriterOf(c) == ByDns && s.pending == d.pending && |s.mems| == |d.mems|
    requires OnCpu(op) ==> op.cpu < |s.mems|
    ensures Total(Next(cfg, s, op).mems, c) - Total(s.mems, c)
         == if DnsOp(op).Some? then Total(DnsMatcher.Next(cfg, d, DnsOp(op).value).mems, c) - Total(d.mems, c) else 0
  {
    StepTotal(cfg, s, op, c);
    DnsEffect(cfg, s, op, c);
    if DnsOp(op).Some? {
      DnsMatcher.StepTotal(cfg, d, DnsOp(op).value, c);
    }
  }

  /** The DNS cells of the program are those of the matcher. */
  lemma {:induction false} DnsTotals(cfg: Config, ncpu: nat, ops: seq<Op>, c: Cell)
    requires CpusExist(ncpu, ops) && WriterOf(c) == ByDns
    ensures Total(Run(cfg, ncpu, ops).mems, c) == Total(DnsMatcher.Run(cfg, ncpu, Project(ops, DnsOp)).mems, c)
  {
    if ops != [] {
      var n := |ops| - 1;
      DnsTotals(cfg, ncpu, ops[..n], c);
      PendingIsProjection(cfg, ncpu, ops[..n]);
      DnsRunStep(cfg, ncpu, ops);
      DnsStep(cfg, Run(cfg, ncpu, ops[..n]), DnsMatcher.Run(cfg, ncpu, Project(ops[..n], DnsOp)), ops[n], c);
    }
  }

  lemma LifeRunStep(cfg: Config, ncpu: nat, ops: seq<Op>)
    requires ops != []
    ensures var n := |ops| - 1;
            var l, op := TcpLifecycle.Run(cfg, ncpu, Project(ops[..n], LifeOp)), LifeOp(ops[n]);
            TcpLifecycle.Run(cfg, ncpu, Project(ops, LifeOp))
            == if op.Some? then TcpLifecycle.Next(cfg, l, op.value) else l
  {
    ProjectStep(ops, LifeOp);
  }

  lemma LifeStep(cfg: Config, s: State, l: TcpLifecycle.State, op: Op, c: Cell)
    requires WriterOf(c) == BySetState && s.life == l.life && |s.mems| == |l.mems|
    requires OnCpu(op) ==> op.cpu < |s.mems|
    ensures Total(Next(cfg, s, op).mems, c) - Total(s.mems, c)
         == if LifeOp(op).Some? then Total(TcpLifecycle.Next(cfg, l, LifeOp(op).value).mems, c) - Total(l.mems, c)
            else 0
  {
    StepTotal(cfg, s, op, c);
    var hook := HookOf(cfg, s, op);
    if op.SetState? {
      TotalAfter(l.mems, op.cpu, WritesOf(cfg, hook.value), c);
    } else if hook.Some? {
      ForeignCell(cfg, hook.value, c);
    }
  }

  /** The lifecycle cells of the program are those of the lifecycle machine. */
  lemma {:induction false} LifeTotals(cfg: Config, ncpu: nat, ops: seq<Op>, c: Cell)
    requires CpusExist(ncpu, ops) && WriterOf(c) == BySetState
    ensures Total(Run(cfg, ncpu, ops).mems, c) == Total(TcpLifecycle.Run(cfg, ncpu, Project(ops, LifeOp)).mems, c)
  {
    if ops != [] {
      var n := |ops| - 1;
      LifeTotals(cfg, ncpu, ops[..n], c);
      LifeIsProjection(cfg, ncpu, ops[..n]);
      LifeRunStep(cfg, ncpu, ops);
      LifeStep(cfg, Run(cfg, ncpu, ops[..n]), TcpLifecycle.Run(cfg, ncpu, Project(ops[..n], LifeOp)), ops[n], c);
    }
  }

  lemma RunqRunStep(ncpu: nat, ops: seq<Op>)
    requires ops != []
    ensures var n := |ops| - 1;
            var q, op := RunQueue.Run(ncpu, Project(ops[..n], RunqOp)), RunqOp(ops[n]);
            RunQueue.Run(ncpu, Project(ops, RunqOp)) == if op.Some? then RunQueue.Next(q, op.value) else q
  {
    ProjectStep(ops, RunqOp);
  }

  lemma RunqStep(cfg: Config, s: State, q: RunQueue.State, op: Op, c: Cell)
    requires WriterOf(c) == BySwitch && s.runq == q.start && |s.mems| == |q.mems|
    requires OnCpu(op) ==> op.cpu < |s.mems|
    ensures Total(Next(cfg, s, op).mems, c) - Total(s.mems, c)
         == if RunqOp(op).Some? then Total(RunQueue.Next(q, RunqOp(op).value).mems, c) - Total(q.mems, c) else 0
  {
    StepTotal(cfg, s, op, c);
    var hook := HookOf(cfg, s, op);
    if op.SwitchIn? && op.pid != 0 {
      TotalAfter(q.mems, op.cpu, WritesOf(cfg, hook.value), c);
    } else if hook.Some? {
      ForeignCell(cfg, hook.value, c);
    }
  }

  /** The run-queue histogram of the program is that of the run-queue matcher. */
  lemma {:induction false} RunqTotals(cfg: Config, ncpu: nat, ops: seq<Op>, c: Cell)
    requires CpusExist(ncpu, ops) && WriterOf(c) == BySwitch
    ensures Total(Run(cfg, ncpu, ops).mems, c) == Total(RunQueue.Run(ncpu, Project(ops, RunqOp)).mems, c)
  {
    if ops != [] {
      var n := |ops| - 1;
      RunqTotals(cfg, ncpu, ops[..n], c);
      RunqIsProjection(cfg, ncpu, ops[..n]);
      RunqRunStep(ncpu, ops);
      RunqStep(cfg, Run(cfg, ncpu, ops[..n]), RunQueue.Run(ncpu, Project(ops[..n], RunqOp)), ops[n], c);
    }
  }

  /** The duration of the long-flow event an operation raises, if any. */
  function LongBy(cfg: Config, s: State, op: Op): Option<nat> {
    if op.Packet? then LongOf(cfg, s.udpFlows, op.flow, op.now) else None
  }

  function BucketHit(duration: Option<nat>, b: nat): nat {
    if duration.Some? && Bucket(duration.value) == b then 1 else 0
  }

  lemma FlowEffect(cfg: Config, s: State, op: Op, c: Cell)
    requires WriterOf(c) == ByFlow
    ensures EffectOf(cfg, s, op, c) == if op.Packet? then EffectAll(PacketWrites(LongBy(cfg, s, op)), c) else 0
  {
    var hook := HookOf(cfg, s, op);
    if op.Packet? {
      DatagramEffect(cfg, hook.value.longUs, hook.value.dns, c);
    } else if hook.Some? {
      ForeignCell(cfg, hook.value, c);
    }
  }

  lemma FlowCellStep(cfg: Config, s: State, op: Op, c: Cell)
    requires WriterOf(c) == ByFlow && (OnCpu(op) ==> op.cpu < |s.mems|)
    ensures Total(Next(cfg, s, op).mems, c)
         == Total(s.mems, c) + if op.Packet? then EffectAll(PacketWrites(LongBy(cfg, s, op)), c) else 0
  {
    StepTotal(cfg, s, op, c);
    FlowEffect(cfg, s, op, c);
  }

  /** How a packet moves a cell of the flow part. */
  function FlowDelta(packet: bool, longUs: Option<nat>, c: Cell): nat {
    match c
    case PacketTotal => if packet then 1 else 0
    case LongFlowTotal => if longUs.Some? then 1 else 0
    case UdpDuration(b) => BucketHit(longUs, b)
    case _ => 0
  }

  /** How one operation moves the UDP cells. */
  lemma UdpStep(cfg: Config, s: State, op: Op, c: Cell)
    requires WriterOf(c) == ByFlow && (OnCpu(op) ==> op.cpu < |s.mems|)
    ensures Total(Next(cfg, s, op).mems, c) == Total(s.mems, c) + FlowDelta(op.Packet?, LongBy(cfg, s, op), c)
  {
    FlowCellStep(cfg, s, op, c);
    PacketEffect(LongBy(cfg, s, op), c);
  }

  /** The event a packet raises in the program is the one its table describes. */
  lemma LongIsProjection(cfg: Config, ncpu: nat, ops: seq<Op>)
    requires ops != [] && UdpOp(ops[|ops| - 1]).Some?
    ensures var n, flows := |ops| - 1, Project(ops, UdpOp);
            flows != [] && UdpFlows.LongAt(cfg, flows, |flows| - 1) == LongBy(cfg, Run(cfg, ncpu, ops[..n]), ops[n])
  {
    ProjectStep(ops, UdpOp);
    UdpFlowsAreProjection(cfg, ncpu, ops[..|ops| - 1]);
  }

  function Appended(durations: seq<nat>, duration: Option<nat>): seq<nat> {
    if duration.Some? then durations + [duration.value] else durations
  }

  lemma AppendedCounts(durations: seq<nat>, duration: Option<nat>, b: nat)
    ensures |Appended(durations, duration)| == |durations| + (if duration.Some? then 1 else 0)
    ensures CountBucket(Appended(durations, duration), b) == CountBucket(durations, b) + BucketHit(duration, b)
  {
    if duration.Some? {
      assert Appended(durations, duration)[..|durations|] == durations;
    }
  }

  /** What the flow table's history says about a cell of the flow part. */
  function FlowTotal(cfg: Config, flows: seq<UdpFlows.Op>, c: Cell): nat {
    match c
    case PacketTotal => UdpFlows.PacketTotal(flows)
    case LongFlowTotal => |UdpFlows.LongDurations(cfg, flows)|
    case UdpDuration(b) => CountBucket(UdpFlows.LongDurations(cfg, flows), b)
    case _ => 0
  }

  lemma FlowTotalSnoc(cfg: Config, flows: seq<UdpFlows.Op>, c: Cell)
    requires flows != []
    ensures var n := |flows| - 1;
            FlowTotal(cfg, flows, c)
            == FlowTotal(cfg, flows[..n], c) + FlowDelta(flows[n].Packet?, UdpFlows.LongAt(cfg, flows, n), c)
  {
    var n := |flows| - 1;
    var shown, long := UdpFlows.LongDurations(cfg, flows[..n]), UdpFlows.LongAt(cfg, flows, n);
    assert UdpFlows.LongDurations(cfg, flows) == Appended(shown, long) by {
      assert shown + [] == shown;
    }
    AppendedCounts(shown, long, if c.UdpDuration? then c.b else 0);
  }

  lemma FlowTotalSeen(cfg: Config, ncpu: nat, ops: seq<Op>, c: Cell)
    requires ops != [] && UdpOp(ops[|ops| - 1]).Some?
    ensures var n := |ops| - 1;
            FlowTotal(cfg, Project(ops, UdpOp), c)
            == FlowTotal(cfg, Project(ops[..n], UdpOp), c)
             + FlowDelta(ops[n].Packet?, LongBy(cfg, Run(cfg, ncpu, ops[..n]), ops[n]), c)
  {
    var flows := Project(ops, UdpOp);
    LongIsProjection(cfg, ncpu, ops);
    FlowTotalSnoc(cfg, flows, c);
    ProjectStep(ops, UdpOp);
    assert flows[|flows| - 1].Packet? == ops[|ops| - 1].Packet?;
  }

  /** What one operation adds to the flow table's history. */
  lemma FlowTotalStep(cfg: Config, ncpu: nat, ops: seq<Op>, c: Cell)
    requires ops != []
    ensures var n := |ops| - 1;
            FlowTotal(cfg, Project(ops, UdpOp), c)
            == FlowTotal(cfg, Project(ops[..n], UdpOp), c)
             + FlowDelta(ops[n].Packet?, LongBy(cfg, Run(cfg, ncpu, ops[..n]), ops[n]), c)
  {
    if UdpOp(ops[|ops| - 1]).Some? {
      FlowTotalSeen(cfg, ncpu, ops, c);
    } else {
      ProjectStep(ops, UdpOp);
    }
  }

  /** The UDP counters and buckets count the packets and the events of the flow table's history. */
  lemma {:induction false} FlowTotals(cfg: Config, ncpu: nat, ops: seq<Op>, c: Cell)
    requires CpusExist(ncpu, ops) && WriterOf(c) == ByFlow
    ensures Total(Run(cfg, ncpu, ops).mems, c) == FlowTotal(cfg, Project(ops, UdpOp), c)
  {
    if ops == [] {
      TotalBlank(ncpu, c);
    } else {
      var n := |ops| - 1;
      FlowTotals(cfg, ncpu, ops[..n], c);
      UdpStep(cfg, Run(cfg, ncpu, ops[..n]), ops[n], c);
      FlowTotalStep(cfg, ncpu, ops, c);
    }
  }

  lemma UdpTotals(cfg: Config, ncpu: nat, ops: seq<Op>, b: nat)
    requires CpusExist(ncpu, ops)
    ensures UdpCounted(cfg, Run(cfg, ncpu, ops).mems, Project(ops, UdpOp), b)
  {
    FlowTotals(cfg, ncpu, ops, PacketTotal);
    FlowTotals(cfg, ncpu, ops, LongFlowTotal);
    FlowTotals(cfg, ncpu, ops, UdpDuration(b));
  }

  ghost predicate UdpCounted(cfg: Config, mems: seq<CpuMem>, flows: seq<UdpFlows.Op>, b: nat) {
    && Total(mems, PacketTotal) == UdpFlows.PacketTotal(flows)
    && Total(mems, LongFlowTotal) == |UdpFlows.LongDurations(cfg, flows)|
    && Total(mems, UdpDuration(b)) == CountBucket(UdpFlows.LongDurations(cfg, flows), b)
  }

  lemma DurationBucket(cfg: Config, ncpu: nat, ops: seq<Op>, b: nat)
    requires CpusExist(ncpu, ops) && b < HIST_BUCKETS
    ensures HistTotals(Run(cfg, ncpu, ops).mems, UdpHist)[b]
         == Tally(UdpFlows.LongDurations(cfg, Project(ops, UdpOp)))[b]
  {
    FlowTotals(cfg, ncpu, ops, UdpDuration(b));
  }

  /** The duration histogram is the tally of the durations reported. */
  lemma DurationsTallied(cfg: Config, ncpu: nat, ops: seq<Op>)
    requires CpusExist(ncpu, ops)
    ensures HistTotals(Run(cfg, ncpu, ops).mems, UdpHist) == Tally(UdpFlows.LongDurations(cfg, Project(ops, UdpOp)))
  {
    var totals := HistTotals(Run(cfg, ncpu, ops).mems, UdpHist);
    var tally := Tally(UdpFlows.LongDurations(cfg, Project(ops, UdpOp)));
    forall b: nat | b < HIST_BUCKETS ensures totals[b] == tally[b] {
      DurationBucket(cfg, ncpu, ops, b);
    }
  }

  lemma RetransStep(cfg: Config, s: State, op: Op, c: Cell)
    requires WriterOf(c) == ByRetransmit && (OnCpu(op) ==> op.cpu < |s.mems|)
    ensures Total(Next(cfg, s, op).mems, c)
         == Total(s.mems, c)
          + if !op.Retransmit? then 0
            else if c == RetransTotal || BurstOf(cfg, s.retrans, op.flow, op.now) then 1 else 0
  {
    StepTotal(cfg, s, op, c);
    var hook := HookOf(cfg, s, op);
    if op.Retransmit? {
      RetransmitEffect(BurstOf(cfg, s.retrans, op.flow, op.now), c);
    } else if hook.Some? {
      ForeignCell(cfg, hook.value, c);
    }
  }

  /** What one operation adds to the detector's history. */
  lemma RetransHistoryStep(cfg: Config, ncpu: nat, ops: seq<Op>)
    requires ops != []
    ensures var n := |ops| - 1;
            var op, history, before := ops[n], Project(ops, RetransOp), Project(ops[..n], RetransOp);
            var burst := op.Retransmit? && BurstOf(cfg, Run(cfg, ncpu, ops[..n]).retrans, op.flow, op.now);
            && Retrans.Retransmits(history) == Retrans.Retransmits(before) + (if op.Retransmit? then 1 else 0)
            && Retrans.Bursts(cfg, history) == Retrans.Bursts(cfg, before) + if burst then 1 else 0
  {
    ProjectStep(ops, RetransOp);
    RetransIsProjection(cfg, ncpu, ops[..|ops| - 1]);
  }

  /** The retransmission counters count the retransmits and the bursts of the detector's history. */
  lemma {:induction false} RetransTotals(cfg: Config, ncpu: nat, ops: seq<Op>)
    requires CpusExist(ncpu, ops)
    ensures var mems, history := Run(cfg, ncpu, ops).mems, Project(ops, RetransOp);
            && Total(mems, RetransTotal) == Retrans.Retransmits(history)
            && Total(mems, RetransBurstTotal) == Retrans.Bursts(cfg, history)
  {
    if ops == [] {
      TotalBlank(ncpu, RetransTotal);
      TotalBlank(ncpu, RetransBurstTotal);
    } else {
      var n := |ops| - 1;
      var s := Run(cfg, ncpu, ops[..n]);
      RetransTotals(cfg, ncpu, ops[..n]);
      RetransStep(cfg, s, ops[n], RetransTotal);
      RetransStep(cfg, s, ops[n], RetransBurstTotal);
      RetransHistoryStep(cfg, ncpu, ops);
    }
  }

  // ---------------------------------------------------------------- the books of the whole

  lemma {:induction false} ProjectedCpusExist(ncpu: nat, ops: seq<Op>)
    requires CpusExist(ncpu, ops)
    ensures DnsMatcher.CpusExist(ncpu, Project(ops, DnsOp))
    ensures TcpLifecycle.CpusExist(ncpu, Project(ops, LifeOp))
    ensures RunQueue.CpusExist(ncpu, Project(ops, RunqOp))
  {
    if ops != [] {
      ProjectedCpusExist(ncpu, ops[..|ops| - 1]);
    }
  }

  /**
   The UDP books over any run of the whole program. packet_total is the packets of the live flows and
   those flows held when they were deleted, and the duration histogram counts the reported durations
   directly, which with nonzero settings are the spans of the reported flows. With a monotone clock
   long_flow_total and the silent flows are the flows exceeding the threshold and the repeated events;
   with a threshold longer than the cooldown long_flow_total is those flows exactly when none lasts.
   */
  lemma UdpBooks(cfg: Config, ncpu: nat, ops: seq<Op>, i: nat)
    requires CpusExist(ncpu, ops) && i < HIST_BUCKETS - 1
    ensures var s, flows := Run(cfg, ncpu, ops), Project(ops, UdpOp);
            && Total(s.mems, PacketTotal)
               == MapSum(UdpFlows.PacketCounts(s.udpFlows)) + UdpFlows.RemovedPackets(cfg, flows)
            && Sum(HistTotals(s.mems, UdpHist)[..i + 1]) == CountLe(UdpFlows.LongDurations(cfg, flows), Pow2(i))
            && (AllSet(cfg) ==> UdpFlows.LongDurations(cfg, flows) == UdpFlows.ReportedSpans(cfg, flows))
    ensures var s, flows := Run(cfg, ncpu, ops), Project(ops, UdpOp);
            AllSet(cfg) && UdpFlows.ClockMonotone(flows) ==>
              && Total(s.mems, LongFlowTotal) + UdpFlows.SilentFlows(cfg, flows)
                 == UdpFlows.Exceeding(cfg, flows) + UdpFlows.Repeated(cfg, flows)
              && (UdpFlows.NoOverflow(cfg, flows) && cfg.longUdpFlowUs * 1000 > cfg.eventCooldownNs ==>
                    (Total(s.mems, LongFlowTotal) == UdpFlows.Exceeding(cfg, flows)
                     <==> forall i, j :: !UdpFlows.Lasts(cfg, flows, i, j)))
  {
    var flows := Project(ops, UdpOp);
    UdpTotals(cfg, ncpu, ops, 0);
    DurationsTallied(cfg, ncpu, ops);
    UdpFlowsAreProjection(cfg, ncpu, ops);
    UdpFlows.PacketsConserved(cfg, flows);
    ExportIsDirectCounting(UdpFlows.LongDurations(cfg, flows), i);
    if AllSet(cfg) {
      UdpFlows.DurationsAreSpans(cfg, flows);
    }
    if AllSet(cfg) && UdpFlows.ClockMonotone(flows) {
      UdpFlows.LongFlowsExactly(cfg, flows);
      if UdpFlows.NoOverflow(cfg, flows) && cfg.longUdpFlowUs * 1000 > cfg.eventCooldownNs {
        UdpFlows.CountedOnceExactly(cfg, flows);
      }
    }
  }

  lemma DnsHistogramAgrees(cfg: Config, ncpu: nat, ops: seq<Op>)
    requires CpusExist(ncpu, ops)
    ensures HistTotals(Run(cfg, ncpu, ops).mems, DnsHist)
         == HistTotals(DnsMatcher.Run(cfg, ncpu, Project(ops, DnsOp)).mems, DnsHist)
  {
    var a, b := Run(cfg, ncpu, ops).mems, DnsMatcher.Run(cfg, ncpu, Project(ops, DnsOp)).mems;
    forall i | 0 <= i < HIST_BUCKETS ensures HistTotals(a, DnsHist)[i] == HistTotals(b, DnsHist)[i] {
      DnsTotals(cfg, ncpu, ops, DnsLatency(i));
    }
  }

  /** The books of the DNS counters: where the queries went, and how the counters are ordered. */
  ghost predicate DnsBalanced(mems: seq<CpuMem>, pending: nat, spans: seq<Span.Op<DnsKey>>) {
    && Total(mems, QueryTotal)
       == Span.Matched(spans) + Span.Overwritten(spans) + Span.Dropped(spans, Span.Expired)
        + Span.Dropped(spans, Span.Evicted) + pending
    && Total(mems, SlowTotal) <= Sum(HistTotals(mems, DnsHist)) <= Span.Matched(spans)
    && Span.Matched(spans) <= Min(Total(mems, QueryTotal), Total(mems, ResponseTotal))
  }

  lemma MatcherBalanced(cfg: Config, ncpu: nat, history: seq<DnsMatcher.Op>)
    requires AllSet(cfg) && DnsMatcher.CpusExist(ncpu, history)
    ensures var d := DnsMatcher.Run(cfg, ncpu, history); DnsBalanced(d.mems, |d.pending|, DnsMatcher.Spans(history))
  {
    DnsMatcher.DnsAccounts(cfg, ncpu, history);
  }

  lemma SameBooks(s: State, d: DnsMatcher.State, spans: seq<Span.Op<DnsKey>>)
    requires DnsBalanced(d.mems, |d.pending|, spans)
    requires s.pending == d.pending && HistTotals(s.mems, DnsHist) == HistTotals(d.mems, DnsHist)
    requires Total(s.mems, QueryTotal) == Total(d.mems, QueryTotal)
    requires Total(s.mems, ResponseTotal) == Total(d.mems, ResponseTotal)
    requires Total(s.mems, SlowTotal) == Total(d.mems, SlowTotal)
    ensures DnsBalanced(s.mems, |s.pending|, spans)
  {
  }

  lemma DnsCellsAgree(cfg: Config, ncpu: nat, ops: seq<Op>)
    requires CpusExist(ncpu, ops)
    ensures var s, d := Run(cfg, ncpu, ops), DnsMatcher.Run(cfg, ncpu, Project(ops, DnsOp));
            && HistTotals(s.mems, DnsHist) == HistTotals(d.mems, DnsHist)
            && Total(s.mems, QueryTotal) == Total(d.mems, QueryTotal)
            && Total(s.mems, ResponseTotal) == Total(d.mems, ResponseTotal)
            && Total(s.mems, SlowTotal) == Total(d.mems, SlowTotal)
  {
    DnsHistogramAgrees(cfg, ncpu, ops);
    DnsTotals(cfg, ncpu, ops, QueryTotal);
    DnsTotals(cfg, ncpu, ops, ResponseTotal);
    DnsTotals(cfg, ncpu, ops, SlowTotal);
  }

  lemma DnsCounters(cfg: Config, ncpu: nat, ops: seq<Op>)
    requires AllSet(cfg) && CpusExist(ncpu, ops)
    ensures var s := Run(cfg, ncpu, ops); DnsBalanced(s.mems, |s.pending|, DnsMatcher.Spans(Project(ops, DnsOp)))
  {
    var history := Project(ops, DnsOp);
    ProjectedCpusExist(ncpu, ops);
    MatcherBalanced(cfg, ncpu, history);
    PendingIsProjection(cfg, ncpu, ops);
    DnsCellsAgree(cfg, ncpu, ops);
    SameBooks(Run(cfg, ncpu, ops), DnsMatcher.Run(cfg, ncpu, history), DnsMatcher.Spans(history));
  }

  lemma DnsLatencies(cfg: Config, ncpu: nat, ops: seq<Op>, i: nat)
    requires CpusExist(ncpu, ops) && i < HIST_BUCKETS - 1
    ensures Sum(HistTotals(Run(cfg, ncpu, ops).mems, DnsHist)[..i + 1])
         == Span.MatchedWhere(DnsMatcher.Spans(Project(ops, DnsOp)),
                              SpanHistogram.WithinUs(DnsMatcher.Measurable(), Pow2(i)))
  {
    ProjectedCpusExist(ncpu, ops);
    DnsHistogramAgrees(cfg, ncpu, ops);
    DnsMatcher.LatencyIsDirectCounting(cfg, ncpu, Project(ops, DnsOp), i);
  }

  /** query_total and the latency histogram over any run of the whole program. */
  lemma DnsBooks(cfg: Config, ncpu: nat, ops: seq<Op>, i: nat)
    requires AllSet(cfg) && CpusExist(ncpu, ops) && i < HIST_BUCKETS - 1
    ensures var s, spans := Run(cfg, ncpu, ops), DnsMatcher.Spans(Project(ops, DnsOp));
            && Total(s.mems, QueryTotal)
               == Span.Matched(spans) + Span.Overwritten(spans) + Span.Dropped(spans, Span.Expired)
                + Span.Dropped(spans, Span.Evicted) + |s.pending|
            && Total(s.mems, SlowTotal) <= Sum(HistTotals(s.mems, DnsHist)) <= Span.Matched(spans)
            && Span.Matched(spans) <= Min(Total(s.mems, QueryTotal), Total(s.mems, ResponseTotal))
            && Sum(HistTotals(s.mems, DnsHist)[..i + 1])
               == Span.MatchedWhere(spans, SpanHistogram.WithinUs(DnsMatcher.Measurable(), Pow2(i)))
  {
    DnsCounters(cfg, ncpu, ops);
    DnsLatencies(cfg, ncpu, ops, i);
  }

  /** Connection entries over any run of the whole program. */
  lemma LifeBooks(cfg: Config, ncpu: nat, ops: seq<Op>)
    requires CpusExist(ncpu, ops)
    ensures var s, history := Run(cfg, ncpu, ops), Project(ops, LifeOp);
            TcpLifecycle.Count(history, TcpLifecycle.Into({TCP_ESTABLISHED}))
            == Total(s.mems, ClosedTotal) + |s.life|
             + TcpLifecycle.Evicted(cfg, ncpu, history) + TcpLifecycle.Replaced(cfg, ncpu, history)
  {
    ProjectedCpusExist(ncpu, ops);
    LifeIsProjection(cfg, ncpu, ops);
    LifeTotals(cfg, ncpu, ops, ClosedTotal);
    TcpLifecycle.LifeConserved(cfg, ncpu, Project(ops, LifeOp));
  }

  /** The gauge of a state over any run of the whole program in which the sockets' transitions chain. */
  lemma GaugeBooks(cfg: Config, ncpu: nat, ops: seq<Op>, st: int)
    requires CpusExist(ncpu, ops) && 0 <= st < TCP_STATES && TcpLifecycle.Chained(Project(ops, LifeOp))
    ensures var history := Project(ops, LifeOp);
            Total(Run(cfg, ncpu, ops).mems, Delta(st))
            == |TcpLifecycle.SocksIn(TcpLifecycle.Last(history), {st})|
             - |TcpLifecycle.SocksIn(TcpLifecycle.First(history), {st})|
  {
    ProjectedCpusExist(ncpu, ops);
    LifeTotals(cfg, ncpu, ops, Delta(st));
    TcpLifecycle.GaugeTelescopes(cfg, ncpu, Project(ops, LifeOp), st);
  }

  lemma RunqHistogramAgrees(cfg: Config, ncpu: nat, ops: seq<Op>)
    requires CpusExist(ncpu, ops)
    ensures HistTotals(Run(cfg, ncpu, ops).mems, RunqHist)
         == HistTotals(RunQueue.Run(ncpu, Project(ops, RunqOp)).mems, RunqHist)
  {
    var a, b := Run(cfg, ncpu, ops).mems, RunQueue.Run(ncpu, Project(ops, RunqOp)).mems;
    forall i | 0 <= i < HIST_BUCKETS ensures HistTotals(a, RunqHist)[i] == HistTotals(b, RunqHist)[i] {
      RunqTotals(cfg, ncpu, ops, Runqlat(i));
    }
  }

  /** Recorded wakeups and the run-queue histogram over any run of the whole program. */
  lemma RunqBooks(cfg: Config, ncpu: nat, ops: seq<Op>, i: nat)
    requires CpusExist(ncpu, ops) && i < HIST_BUCKETS - 1
    ensures var s, spans := Run(cfg, ncpu, ops), RunQueue.Spans(Project(ops, RunqOp));
            && Span.Starts(spans)
               == Sum(HistTotals(s.mems, RunqHist)) + Span.MatchedWhere(spans, RunQueue.NotAdvanced())
                + Span.Overwritten(spans) + Span.Dropped(spans, Span.Evicted) + |s.runq|
            && Sum(HistTotals(s.mems, RunqHist)[..i + 1])
               == Span.MatchedWhere(spans, SpanHistogram.WithinUs(RunQueue.Advanced(), Pow2(i)))
  {
    var history := Project(ops, RunqOp);
    ProjectedCpusExist(ncpu, ops);
    RunqIsProjection(cfg, ncpu, ops);
    RunqHistogramAgrees(cfg, ncpu, ops);
    RunQueue.WakeupsConserved(ncpu, history);
    RunQueue.RunqlatIsDirectCounting(ncpu, history, i);
  }
}
