/**
 Per-CPU memory: the counter structs, histograms and state deltas of one CPU as cells, the
 single-cell writes the handlers issue, and the list of writes each handler issues in program order.
 */
module PerCpu {
  import opened Base
  import opened Config
  import opened Keys
  import opened Histogram

  datatype Cell =
    // nd_tcp_counters
    | ClosedTotal | ShortLivedTotal | ConnectAttemptTotal | ConnectFailedTotal
    | RetransTotal | RetransBurstTotal | RttSampleTotal | CwndSampleTotal
    // nd_dns_counters
    | QueryTotal | ResponseTotal | RcodeErrorTotal | SlowTotal
    // nd_udp_counters
    | PacketTotal | LongFlowTotal
    // nd_dns_rcode_total and the five histograms
    | Rcode(r: nat)
    | Srtt(b: nat) | Cwnd(b: nat) | DnsLatency(b: nat) | Runqlat(b: nat) | UdpDuration(b: nat)
    // nd_tcp_state_delta; DeltaUpdates counts the additions and exists in the model only
    | Delta(state: int) | DeltaUpdates(state: int)

  /** The kernel keeps the smoothed RTT in 32 bits scaled by 8; the hook shifts it right by three. */
  type SrttUs = x: int | 0 <= x < 0x2000_0000

  /** A state delta moves by one at a time. */
  type Unit = d: int | -1 <= d <= 1

  type Counter = c: Cell | !c.Delta? && !c.DeltaUpdates? witness ClosedTotal

  datatype Write = Inc(cell: Counter) | AddDelta(state: int, delta: Unit)

  type CpuMem = map<Cell, int>

  function Get(m: CpuMem, c: Cell): int {
    if c in m then m[c] else 0
  }

  function Apply(m: CpuMem, w: Write): CpuMem {
    match w
    case Inc(c) => m[c := Get(m, c) + 1]
    case AddDelta(s, d) => m[Delta(s) := Get(m, Delta(s)) + d][DeltaUpdates(s) := Get(m, DeltaUpdates(s)) + 1]
  }

  function ApplyAll(m: CpuMem, ws: seq<Write>): CpuMem
    decreases |ws|
  {
    if ws == [] then m else ApplyAll(Apply(m, ws[0]), ws[1..])
  }

  function Effect(w: Write, c: Cell): int {
    match w
    case Inc(c') => if c' == c then 1 else 0
    case AddDelta(s, d) => if c == Delta(s) then d else if c == DeltaUpdates(s) then 1 else 0
  }

  function EffectAll(ws: seq<Write>, c: Cell): int {
    if ws == [] then 0 else Effect(ws[0], c) + EffectAll(ws[1..], c)
  }

  lemma ApplyGet(m: CpuMem, w: Write, c: Cell)
    ensures Get(Apply(m, w), c) == Get(m, c) + Effect(w, c)
  {
  }

  lemma {:induction false} ApplyAllGet(m: CpuMem, ws: seq<Write>, c: Cell)
    ensures Get(ApplyAll(m, ws), c) == Get(m, c) + EffectAll(ws, c)
    decreases |ws|
  {
    if ws != [] {
      ApplyAllGet(Apply(m, ws[0]), ws[1..], c);
    }
  }

  lemma {:induction false} EffectConcat(a: seq<Write>, b: seq<Write>, c: Cell)
    ensures EffectAll(a + b, c) == EffectAll(a, c) + EffectAll(b, c)
  {
    if a == [] {
      assert a + b == b;
    } else {
      assert (a + b)[1..] == a[1..] + b;
      EffectConcat(a[1..], b, c);
    }
  }

  /** What userspace exports for a cell: the sum of its slots over all CPUs. */
  function Total(mems: seq<CpuMem>, c: Cell): int {
    Sum(Slots(mems, c))
  }

  function Slots(mems: seq<CpuMem>, c: Cell): seq<int> {
    seq(|mems|, i requires 0 <= i < |mems| => Get(mems[i], c))
  }

  function RunWrites(mems: seq<CpuMem>, cpu: nat, ws: seq<Write>): (r: seq<CpuMem>)
    requires cpu < |mems|
    ensures |r| == |mems|
  {
    mems[cpu := ApplyAll(mems[cpu], ws)]
  }

  /** Whichever CPU a handler runs on, the cross-CPU total moves by the effect of its writes. */
  lemma TotalAfter(mems: seq<CpuMem>, cpu: nat, ws: seq<Write>, c: Cell)
    requires cpu < |mems|
    ensures Total(RunWrites(mems, cpu, ws), c) == Total(mems, c) + EffectAll(ws, c)
  {
    var s := Slots(mems, c);
    ApplyAllGet(mems[cpu], ws, c);
    SumUpdate(s, cpu, s[cpu] + EffectAll(ws, c));
    assert Slots(RunWrites(mems, cpu, ws), c) == s[cpu := s[cpu] + EffectAll(ws, c)];
  }

  function Blank(ncpu: nat): (mems: seq<CpuMem>)
    ensures |mems| == ncpu
  {
    seq(ncpu, _ => map[])
  }

  lemma TotalBlank(ncpu: nat, c: Cell)
    ensures Total(Blank(ncpu), c) == 0
  {
    SumZero(Slots(Blank(ncpu), c));
  }

  // ---------------------------------------------------------------- the five histograms

  datatype Hist = SrttHist | CwndHist | DnsHist | RunqHist | UdpHist

  function HistCell(h: Hist, b: nat): Cell {
    match h
    case SrttHist => Srtt(b)
    case CwndHist => Cwnd(b)
    case DnsHist => DnsLatency(b)
    case RunqHist => Runqlat(b)
    case UdpHist => UdpDuration(b)
  }

  /** The cross-CPU totals of the buckets of a histogram. */
  function HistTotals(mems: seq<CpuMem>, kind: Hist): (counts: seq<int>)
    ensures |counts| == HIST_BUCKETS
  {
    seq(HIST_BUCKETS, b requires 0 <= b => Total(mems, HistCell(kind, b)))
  }

  // ---------------------------------------------------------------- handler write lists

  function When(cond: bool, ws: seq<Write>): seq<Write> {
    if cond then ws else []
  }

  /** `nd_tcp_rcv_established`: each sample goes to its bucket first, then to its counter. */
  function RcvEstablishedWrites(srttUs: SrttUs, cwnd: u32): seq<Write> {
    When(srttUs > 0, [Inc(Srtt(Bucket(srttUs))), Inc(RttSampleTotal)])
    + When(cwnd > 0, [Inc(Cwnd(Bucket(cwnd))), Inc(CwndSampleTotal)])
  }

  function RetransmitWrites(burst: bool): seq<Write> {
    [Inc(RetransTotal)] + When(burst, [Inc(RetransBurstTotal)])
  }

  /** `nd_tcp_state_delta_add`: states outside the array are ignored. */
  function DeltaWrites(state: int, delta: Unit): seq<Write> {
    When(0 <= state < TCP_STATES, [AddDelta(state, delta)])
  }

  function CloseWrites(cfg: Config, durUs: Option<nat>): seq<Write> {
    match durUs
    case None => []
    case Some(d) => [Inc(ClosedTotal)] + When(0 < d < cfg.shortTcpConnUs, [Inc(ShortLivedTotal)])
  }

  /** The branch `nd_inet_sock_set_state` takes after the delta updates. */
  function LifecycleWrites(cfg: Config, oldState: int, newState: int, durUs: Option<nat>): seq<Write> {
    if newState == TCP_ESTABLISHED then []
    else if oldState == TCP_ESTABLISHED then CloseWrites(cfg, durUs)
    else When(IsSynState(oldState) && newState == TCP_CLOSE, [Inc(ConnectFailedTotal)])
  }

  function AttemptWrites(newState: int): seq<Write> {
    When(newState == TCP_SYN_SENT || newState == TCP_SYN_RECV, [Inc(ConnectAttemptTotal)])
  }

  /** `nd_inet_sock_set_state`; `durUs` is the lifetime found in `nd_tcp_conn_life`, if any. */
  function SetStateWrites(cfg: Config, oldState: int, newState: int, durUs: Option<nat>): seq<Write> {
    DeltaWrites(oldState, -1) + DeltaWrites(newState, 1) + AttemptWrites(newState)
    + LifecycleWrites(cfg, oldState, newState, durUs)
  }

  function LongFlowWrites(longUs: Option<nat>): seq<Write> {
    match longUs
    case None => []
    case Some(d) => [Inc(UdpDuration(Bucket(d))), Inc(LongFlowTotal)]
  }

  /** The flow part of `nd_parse_ipv4_udp`; `longUs` is the duration reported, if any. */
  function PacketWrites(longUs: Option<nat>): seq<Write> {
    [Inc(PacketTotal)] + LongFlowWrites(longUs)
  }

  function LatencyWrites(cfg: Config, latencyUs: Option<nat>): seq<Write> {
    match latencyUs
    case None => []
    case Some(l) =>
      When(l > 0, [Inc(DnsLatency(Bucket(l)))]) + When(l >= cfg.slowDnsUs, [Inc(SlowTotal)])
  }

  function RcodeWrites(rcode: nat): seq<Write> {
    When(rcode < DNS_RCODES, [Inc(Rcode(rcode))] + When(rcode != 0, [Inc(RcodeErrorTotal)]))
  }

  /** The response part of `nd_parse_ipv4_udp`; `latencyUs` is set when a pending query matched. */
  function ResponseWrites(cfg: Config, rcode: nat, latencyUs: Option<nat>): seq<Write> {
    [Inc(ResponseTotal)] + RcodeWrites(rcode) + LatencyWrites(cfg, latencyUs)
  }

  /** `nd_sched_switch`; `latencyUs` is set when a wakeup matched and the clock had advanced. */
  function SwitchWrites(latencyUs: Option<nat>): seq<Write> {
    match latencyUs
    case None => []
    case Some(l) => [Inc(Runqlat(Bucket(l)))]
  }

  // ---------------------------------------------------------------- one handler run

  datatype DnsPart = NoDns | Query | Response(rcode: nat, latencyUs: Option<nat>)

  /** One run of a handler, with what it found in the shared maps. */
  datatype Hook =
    | RcvEstablished(srttUs: SrttUs, cwnd: u32)
    | Retransmit(burst: bool)
    | SetState(oldState: int, newState: int, durUs: Option<nat>)
    | Datagram(longUs: Option<nat>, dns: DnsPart)
    | Switch(runqlatUs: Option<nat>)

  function DnsWrites(cfg: Config, dns: DnsPart): seq<Write> {
    match dns
    case NoDns => []
    case Query => [Inc(QueryTotal)]
    case Response(rcode, latencyUs) => ResponseWrites(cfg, rcode, latencyUs)
  }

  /** Every per-CPU write of a handler run, in program order, under the effective thresholds. */
  function WritesOf(cfg: Config, h: Hook): seq<Write> {
    match h
    case RcvEstablished(srttUs, cwnd) => RcvEstablishedWrites(srttUs, cwnd)
    case Retransmit(burst) => RetransmitWrites(burst)
    case SetState(oldState, newState, durUs) => SetStateWrites(cfg, oldState, newState, durUs)
    case Datagram(longUs, dns) => PacketWrites(longUs) + DnsWrites(cfg, dns)
    case Switch(latencyUs) => SwitchWrites(latencyUs)
  }

  // ---------------------------------------------------------------- effects of the write lists

  lemma EffectOne(w: Write, c: Cell)
    ensures EffectAll([w], c) == Effect(w, c)
  {
    assert [w][1..] == [];
    assert EffectAll([w], c) == Effect(w, c) + EffectAll([], c);
  }

  lemma EffectPair(w: Write, x: Write, c: Cell)
    ensures EffectAll([w, x], c) == Effect(w, c) + Effect(x, c)
  {
    assert [w, x] == [w] + [x];
    EffectConcat([w], [x], c);
    EffectOne(w, c);
    EffectOne(x, c);
  }

  lemma RcvEstablishedEffect(srttUs: SrttUs, cwnd: u32, c: Cell)
    ensures EffectAll(RcvEstablishedWrites(srttUs, cwnd), c)
         == (if srttUs > 0 && c in {Srtt(Bucket(srttUs)), RttSampleTotal} then 1 else 0)
          + (if cwnd > 0 && c in {Cwnd(Bucket(cwnd)), CwndSampleTotal} then 1 else 0)
  {
    var x, y := [Inc(Srtt(Bucket(srttUs))), Inc(RttSampleTotal)], [Inc(Cwnd(Bucket(cwnd))), Inc(CwndSampleTotal)];
    EffectConcat(When(srttUs > 0, x), When(cwnd > 0, y), c);
    EffectPair(x[0], x[1], c);
    EffectPair(y[0], y[1], c);
  }

  lemma RetransmitEffect(burst: bool, c: Cell)
    ensures EffectAll(RetransmitWrites(burst), c)
         == (if c == RetransTotal then 1 else 0) + (if burst && c == RetransBurstTotal then 1 else 0)
  {
    EffectConcat([Inc(RetransTotal)], When(burst, [Inc(RetransBurstTotal)]), c);
    EffectOne(Inc(RetransTotal), c);
    EffectOne(Inc(RetransBurstTotal), c);
  }

  lemma PacketEffect(longUs: Option<nat>, c: Cell)
    ensures EffectAll(PacketWrites(longUs), c)
         == (if c == PacketTotal then 1 else 0)
          + (if longUs.Some? && c in {UdpDuration(Bucket(longUs.value)), LongFlowTotal} then 1 else 0)
  {
    EffectOne(Inc(PacketTotal), c);
    if longUs.Some? {
      var tail := [Inc(UdpDuration(Bucket(longUs.value))), Inc(LongFlowTotal)];
      EffectConcat([Inc(PacketTotal)], tail, c);
      EffectPair(tail[0], tail[1], c);
    } else {
      assert PacketWrites(longUs) == [Inc(PacketTotal)];
    }
  }

  lemma LatencyEffect(cfg: Config, latencyUs: Option<nat>, c: Cell)
    ensures EffectAll(LatencyWrites(cfg, latencyUs), c)
         == (if latencyUs.Some? && latencyUs.value > 0 && c == DnsLatency(Bucket(latencyUs.value)) then 1 else 0)
          + (if latencyUs.Some? && latencyUs.value >= cfg.slowDnsUs && c == SlowTotal then 1 else 0)
  {
    if latencyUs.Some? {
      var l := latencyUs.value;
      EffectConcat(When(l > 0, [Inc(DnsLatency(Bucket(l)))]), When(l >= cfg.slowDnsUs, [Inc(SlowTotal)]), c);
      EffectOne(Inc(DnsLatency(Bucket(l))), c);
      EffectOne(Inc(SlowTotal), c);
    }
  }

  lemma RcodeEffect(rcode: nat, c: Cell)
    ensures EffectAll(RcodeWrites(rcode), c)
         == (if rcode < DNS_RCODES && c == Rcode(rcode) then 1 else 0)
          + (if 0 < rcode < DNS_RCODES && c == RcodeErrorTotal then 1 else 0)
  {
    EffectConcat([Inc(Rcode(rcode))], When(rcode != 0, [Inc(RcodeErrorTotal)]), c);
    EffectOne(Inc(Rcode(rcode)), c);
    EffectOne(Inc(RcodeErrorTotal), c);
  }

  lemma ResponseEffect(cfg: Config, rcode: nat, latencyUs: Option<nat>, c: Cell)
    ensures EffectAll(ResponseWrites(cfg, rcode, latencyUs), c)
         == (if c == ResponseTotal then 1 else 0)
          + (if rcode < DNS_RCODES && c == Rcode(rcode) then 1 else 0)
          + (if 0 < rcode < DNS_RCODES && c == RcodeErrorTotal then 1 else 0)
          + EffectAll(LatencyWrites(cfg, latencyUs), c)
  {
    var head, code := [Inc(ResponseTotal)], RcodeWrites(rcode);
    EffectConcat(head, code, c);
    EffectConcat(head + code, LatencyWrites(cfg, latencyUs), c);
    EffectOne(Inc(ResponseTotal), c);
    RcodeEffect(rcode, c);
  }

  lemma LifecycleEffect(cfg: Config, oldState: int, newState: int, durUs: Option<nat>, c: Cell)
    ensures
      var closes := oldState == TCP_ESTABLISHED && newState != TCP_ESTABLISHED && durUs.Some?;
      EffectAll(LifecycleWrites(cfg, oldState, newState, durUs), c)
      == (if c == ClosedTotal && closes then 1 else 0)
       + (if c == ShortLivedTotal && closes && 0 < durUs.value < cfg.shortTcpConnUs then 1 else 0)
       + (if c == ConnectFailedTotal && IsSynState(oldState) && newState == TCP_CLOSE then 1 else 0)
  {
    EffectOne(Inc(ConnectFailedTotal), c);
    if durUs.Some? {
      EffectConcat([Inc(ClosedTotal)], When(0 < durUs.value < cfg.shortTcpConnUs, [Inc(ShortLivedTotal)]), c);
      EffectOne(Inc(ClosedTotal), c);
      EffectOne(Inc(ShortLivedTotal), c);
    }
  }

  lemma SetStateEffect(cfg: Config, oldState: int, newState: int, durUs: Option<nat>, c: Cell)
    ensures EffectAll(SetStateWrites(cfg, oldState, newState, durUs), c)
         == (if 0 <= oldState < TCP_STATES then Effect(AddDelta(oldState, -1), c) else 0)
          + (if 0 <= newState < TCP_STATES then Effect(AddDelta(newState, 1), c) else 0)
          + (if c == ConnectAttemptTotal && newState in {TCP_SYN_SENT, TCP_SYN_RECV} then 1 else 0)
          + EffectAll(LifecycleWrites(cfg, oldState, newState, durUs), c)
  {
    var a, b := DeltaWrites(oldState, -1), DeltaWrites(newState, 1);
    var attempt := AttemptWrites(newState);
    EffectConcat(a, b, c);
    EffectConcat(a + b, attempt, c);
    EffectConcat(a + b + attempt, LifecycleWrites(cfg, oldState, newState, durUs), c);
    EffectOne(AddDelta(oldState, -1), c);
    EffectOne(AddDelta(newState, 1), c);
    EffectOne(Inc(ConnectAttemptTotal), c);
  }

  lemma SwitchEffect(latencyUs: Option<nat>, b: nat)
    ensures EffectAll(SwitchWrites(latencyUs), Runqlat(b))
         == if latencyUs.Some? && Bucket(latencyUs.value) == b then 1 else 0
  {
    if latencyUs.Some? {
      EffectOne(Inc(Runqlat(Bucket(latencyUs.value))), Runqlat(b));
    }
  }
}
