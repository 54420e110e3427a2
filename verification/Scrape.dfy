/**
 The reading side: `Snapshot` reads per-CPU memory one slot at a time, without a lock, while the
 handlers keep writing.
 */
module Scrape {
  import opened Base
  import opened Config
  import opened Keys
  import opened Histogram
  import opened PerCpu
  import opened Writers
  import opened Pipeline

  // ---------------------------------------------------------------- what a later state may look like

  function Abs(x: int): int {
    if x < 0 then -x else x
  }

  /** Nothing but the state deltas ever decreases, and a delta moves at most once per update. */
  ghost predicate Later(a: Sys, b: Sys) {
    && |a.mems| == |b.mems|
    && (forall cpu, c: Cell :: 0 <= cpu < |a.mems| && !c.Delta? ==> Get(a.mems[cpu], c) <= Get(b.mems[cpu], c))
    && (forall cpu, st :: 0 <= cpu < |a.mems| ==> DeltaMoved(a.mems[cpu], b.mems[cpu], st))
  }

  ghost predicate DeltaMoved(m: CpuMem, m': CpuMem, st: int) {
    Abs(Get(m', Delta(st)) - Get(m, Delta(st))) <= Get(m', DeltaUpdates(st)) - Get(m, DeltaUpdates(st))
  }

  lemma LaterTransitive(a: Sys, b: Sys, c: Sys)
    requires Later(a, b) && Later(b, c)
    ensures Later(a, c)
  {
    forall cpu, st | 0 <= cpu < |a.mems| ensures DeltaMoved(a.mems[cpu], c.mems[cpu], st) {
      assert DeltaMoved(a.mems[cpu], b.mems[cpu], st) && DeltaMoved(b.mems[cpu], c.mems[cpu], st);
    }
  }

  lemma NextLater(cfg: Config, s: Sys, e: Step)
    requires Shaped(s)
    ensures Later(s, Next(cfg, s, e))
  {
    var r := Next(cfg, s, e);
    forall cpu, c: Cell | 0 <= cpu < |s.mems|
      ensures !c.Delta? ==> Get(s.mems[cpu], c) <= Get(r.mems[cpu], c)
      ensures c.Delta? ==> DeltaMoved(s.mems[cpu], r.mems[cpu], c.state)
    {
      if e.Exec? && cpu == e.cpu && s.todo[cpu] != [] {
        var m, w := s.mems[cpu], s.todo[cpu][0];
        assert r.mems[cpu] == Apply(m, w);
        assert Get(Apply(m, w), c) == Get(m, c) + Effect(w, c);
        if c.Delta? {
          var u := DeltaUpdates(c.state);
          assert Get(Apply(m, w), u) == Get(m, u) + Effect(w, u);
        }
      }
    }
    forall cpu, st | 0 <= cpu < |s.mems| ensures DeltaMoved(s.mems[cpu], r.mems[cpu], st) {
      assert Delta(st).Delta?;
    }
  }

  lemma {:induction false} RunLater(cfg: Config, s: Sys, es: seq<Step>)
    requires Shaped(s)
    ensures Later(s, Run(cfg, s, es))
    decreases |es|
  {
    if es != [] {
      var r := Next(cfg, s, es[0]);
      NextLater(cfg, s, es[0]);
      RunLater(cfg, r, es[1..]);
      LaterTransitive(s, r, Run(cfg, s, es));
    }
  }

  /** A value read for one slot between two states of the system. */
  ghost predicate SlotRead(a: Sys, b: Sys, cpu: nat, c: Cell, x: int)
    requires cpu < |a.mems| == |b.mems|
  {
    match c
    case Delta(st) =>
      var moves := Get(b.mems[cpu], DeltaUpdates(st)) - Get(a.mems[cpu], DeltaUpdates(st));
      Abs(x - Get(a.mems[cpu], c)) <= moves && Abs(Get(b.mems[cpu], c) - x) <= moves
    case _ => Get(a.mems[cpu], c) <= x <= Get(b.mems[cpu], c)
  }

  /**
   The scrape interval bound. A counter read while handlers run lies between its true totals before
   and after; a gauge is off from either by at most the updates made meanwhile.
   */
  ghost predicate TotalRead(a: Sys, b: Sys, c: Cell, x: int) {
    match c
    case Delta(st) =>
      var moves := Total(b.mems, DeltaUpdates(st)) - Total(a.mems, DeltaUpdates(st));
      Abs(x - Total(a.mems, c)) <= moves && Abs(Total(b.mems, c) - x) <= moves
    case _ => Total(a.mems, c) <= x <= Total(b.mems, c)
  }

  lemma SlotReadWider(a: Sys, a': Sys, b': Sys, b: Sys, cpu: nat, c: Cell, x: int)
    requires Later(a, a') && Later(a', b') && Later(b', b)
    requires cpu < |a.mems| && SlotRead(a', b', cpu, c, x)
    ensures SlotRead(a, b, cpu, c, x)
  {
    if c.Delta? {
      var st := c.state;
      assert DeltaMoved(a.mems[cpu], a'.mems[cpu], st);
      assert DeltaMoved(b'.mems[cpu], b.mems[cpu], st);
    }
  }

  lemma TotalReadWider(a: Sys, a': Sys, b': Sys, b: Sys, c: Cell, x: int)
    requires Later(a, a') && Later(a', b') && Later(b', b)
    requires TotalRead(a', b', c, x)
    ensures TotalRead(a, b, c, x)
  {
    TotalLater(a, a', c);
    TotalLater(b', b, c);
    if c.Delta? {
      TotalLater(a, a', DeltaUpdates(c.state));
      TotalLater(a', b', DeltaUpdates(c.state));
      TotalLater(b', b, DeltaUpdates(c.state));
    }
  }

  lemma {:induction false} SumOfReads(a: Sys, b: Sys, c: Cell, column: seq<int>)
    requires |column| == |a.mems| == |b.mems|
    requires forall cpu :: 0 <= cpu < |column| ==> SlotRead(a, b, cpu, c, column[cpu])
    ensures TotalRead(a, b, c, Sum(column))
    decreases |column|
  {
    if column != [] {
      var n := |column| - 1;
      var a', b' := Sys(a.mems[..n], []), Sys(b.mems[..n], []);
      forall cpu | 0 <= cpu < n ensures SlotRead(a', b', cpu, c, column[..n][cpu]) {
        assert SlotRead(a, b, cpu, c, column[cpu]);
      }
      SumOfReads(a', b', c, column[..n]);
      assert SlotRead(a, b, n, c, column[n]);
      AddSlot(a, b, c, column[n], Sum(column[..n]));
    }
  }

  lemma AddSlot(a: Sys, b: Sys, c: Cell, x: int, sum: int)
    requires |a.mems| == |b.mems| > 0
    requires var n := |a.mems| - 1;
             SlotRead(a, b, n, c, x) && TotalRead(Sys(a.mems[..n], []), Sys(b.mems[..n], []), c, sum)
    ensures TotalRead(a, b, c, sum + x)
  {
    TotalSplit(a.mems, c);
    TotalSplit(b.mems, c);
    if c.Delta? {
      TotalSplit(a.mems, DeltaUpdates(c.state));
      TotalSplit(b.mems, DeltaUpdates(c.state));
    }
  }

  lemma TotalLater(a: Sys, b: Sys, c: Cell)
    requires Later(a, b)
    ensures TotalRead(a, b, c, Total(a.mems, c))
    ensures TotalRead(a, b, c, Total(b.mems, c))
  {
    forall cpu | 0 <= cpu < |a.mems|
      ensures SlotRead(a, b, cpu, c, Slots(a.mems, c)[cpu]) && SlotRead(a, b, cpu, c, Slots(b.mems, c)[cpu])
    {
      if c.Delta? {
        assert DeltaMoved(a.mems[cpu], b.mems[cpu], c.state);
      }
    }
    SumOfReads(a, b, c, Slots(a.mems, c));
    SumOfReads(a, b, c, Slots(b.mems, c));
  }

  /** Successive scrapes that do not overlap never show a counter going down. */
  lemma ScrapesNeverDecrease(a: Sys, b: Sys, a': Sys, b': Sys, c: Cell, x: int, y: int)
    requires !c.Delta? && Later(b, a')
    requires TotalRead(a, b, c, x) && TotalRead(a', b', c, y)
    ensures x <= y
  {
    TotalLater(b, a', c);
  }

  // ---------------------------------------------------------------- the exported snapshot

  datatype TcpMetrics = TcpMetrics(
    closed: int, shortLived: int, connectAttempt: int, connectFailed: int,
    retrans: int, retransBurst: int, rttSample: int, cwndSample: int
  )

  datatype DnsMetrics = DnsMetrics(query: int, response: int, rcodeError: int, slow: int)

  datatype UdpMetrics = UdpMetrics(packets: int, longFlows: int)

  datatype Snapshot = Snapshot(
    tcp: TcpMetrics, dns: DnsMetrics, rcodes: seq<int>, udp: UdpMetrics,
    established: int, timeWait: int,
    srtt: seq<int>, cwnd: seq<int>, dnsLatency: seq<int>, runqlat: seq<int>, udpDuration: seq<int>
  )

  const TCP_CELLS := [ClosedTotal, ShortLivedTotal, ConnectAttemptTotal, ConnectFailedTotal,
                      RetransTotal, RetransBurstTotal, RttSampleTotal, CwndSampleTotal]
  const DNS_CELLS := [QueryTotal, ResponseTotal, RcodeErrorTotal, SlowTotal]
  const UDP_CELLS := [PacketTotal, LongFlowTotal]
  const GAUGE_CELLS := [Delta(TCP_ESTABLISHED), Delta(TCP_TIME_WAIT)]

  function HistSeries(n: Snapshot, kind: Hist): seq<int> {
    match kind
    case SrttHist => n.srtt
    case CwndHist => n.cwnd
    case DnsHist => n.dnsLatency
    case RunqHist => n.runqlat
    case UdpHist => n.udpDuration
  }

  function TcpValues(t: TcpMetrics): seq<int> {
    [t.closed, t.shortLived, t.connectAttempt, t.connectFailed, t.retrans, t.retransBurst, t.rttSample, t.cwndSample]
  }

  function DnsValues(t: DnsMetrics): seq<int> {
    [t.query, t.response, t.rcodeError, t.slow]
  }

  function UdpValues(t: UdpMetrics): seq<int> {
    [t.packets, t.longFlows]
  }

  ghost predicate CellsRead(a: Sys, b: Sys, cells: seq<Cell>, counts: seq<int>) {
    && |counts| == |cells|
    && (forall i :: 0 <= i < |cells| ==> TotalRead(a, b, cells[i], counts[i]))
  }

  function HistCells(kind: Hist): (cells: seq<Cell>)
    ensures |cells| == HIST_BUCKETS
  {
    seq(HIST_BUCKETS, b requires 0 <= b => HistCell(kind, b))
  }

  function RcodeCells(): (cells: seq<Cell>)
    ensures |cells| == DNS_RCODES
  {
    seq(DNS_RCODES, r requires 0 <= r => Rcode(r))
  }

  /** Every exported value obeys the interval bound between the states `a` and `b`. */
  ghost predicate WithinInterval(a: Sys, b: Sys, n: Snapshot) {
    && CellsRead(a, b, DNS_CELLS, DnsValues(n.dns))
    && CellsRead(a, b, TCP_CELLS, TcpValues(n.tcp))
    && CellsRead(a, b, UDP_CELLS, UdpValues(n.udp))
    && CellsRead(a, b, GAUGE_CELLS, [n.established, n.timeWait])
    && CellsRead(a, b, RcodeCells(), n.rcodes)
    && (forall kind: Hist :: CellsRead(a, b, HistCells(kind), HistSeries(n, kind)))
  }

  /** The claims a reader may still make of a torn snapshot. */
  predicate Covered(n: Snapshot) {
    && |n.rcodes| == DNS_RCODES
    && n.tcp.rttSample <= Sum(n.srtt)
    && n.tcp.cwndSample <= Sum(n.cwnd)
    && n.udp.longFlows <= Sum(n.udpDuration)
    && n.dns.slow <= Sum(n.dnsLatency)
    && n.dns.rcodeError <= Sum(n.rcodes[1..])
  }

  predicate CoveredExactly(n: Snapshot) {
    && |n.rcodes| == DNS_RCODES
    && n.tcp.rttSample == Sum(n.srtt)
    && n.tcp.cwndSample == Sum(n.cwnd)
    && n.udp.longFlows == Sum(n.udpDuration)
    && n.dns.rcodeError == Sum(n.rcodes[1..])
  }

  // ---------------------------------------------------------------- field by field

  lemma TcpFields(a: Sys, b: Sys, t: TcpMetrics)
    requires CellsRead(a, b, TCP_CELLS, TcpValues(t))
    ensures
      && TotalRead(a, b, ClosedTotal, t.closed) && TotalRead(a, b, ShortLivedTotal, t.shortLived)
      && TotalRead(a, b, ConnectAttemptTotal, t.connectAttempt) && TotalRead(a, b, ConnectFailedTotal, t.connectFailed)
      && TotalRead(a, b, RetransTotal, t.retrans) && TotalRead(a, b, RetransBurstTotal, t.retransBurst)
      && TotalRead(a, b, RttSampleTotal, t.rttSample) && TotalRead(a, b, CwndSampleTotal, t.cwndSample)
  {
    var cells, values := TCP_CELLS, TcpValues(t);
    assert TotalRead(a, b, cells[0], values[0]) && TotalRead(a, b, cells[1], values[1]);
    assert TotalRead(a, b, cells[2], values[2]) && TotalRead(a, b, cells[3], values[3]);
    assert TotalRead(a, b, cells[4], values[4]) && TotalRead(a, b, cells[5], values[5]);
    assert TotalRead(a, b, cells[6], values[6]) && TotalRead(a, b, cells[7], values[7]);
  }

  lemma DnsFields(a: Sys, b: Sys, t: DnsMetrics)
    requires CellsRead(a, b, DNS_CELLS, DnsValues(t))
    ensures
      && TotalRead(a, b, QueryTotal, t.query) && TotalRead(a, b, ResponseTotal, t.response)
      && TotalRead(a, b, RcodeErrorTotal, t.rcodeError) && TotalRead(a, b, SlowTotal, t.slow)
  {
    var cells, values := DNS_CELLS, DnsValues(t);
    assert TotalRead(a, b, cells[0], values[0]) && TotalRead(a, b, cells[1], values[1]);
    assert TotalRead(a, b, cells[2], values[2]) && TotalRead(a, b, cells[3], values[3]);
  }

  lemma UdpFields(a: Sys, b: Sys, t: UdpMetrics)
    requires CellsRead(a, b, UDP_CELLS, UdpValues(t))
    ensures
      && TotalRead(a, b, PacketTotal, t.packets) && TotalRead(a, b, LongFlowTotal, t.longFlows)
  {
    var cells, values := UDP_CELLS, UdpValues(t);
    assert TotalRead(a, b, cells[0], values[0]) && TotalRead(a, b, cells[1], values[1]);
  }

  /** ESTABLISHED is state 1, TIME_WAIT state 6. */
  lemma GaugeFields(a: Sys, b: Sys, established: int, timeWait: int)
    requires CellsRead(a, b, GAUGE_CELLS, [established, timeWait])
    ensures TotalRead(a, b, Delta(1), established) && TotalRead(a, b, Delta(6), timeWait)
  {
    var cells, values := GAUGE_CELLS, [established, timeWait];
    assert TotalRead(a, b, cells[0], values[0]) && TotalRead(a, b, cells[1], values[1]);
  }

  lemma RcodeFields(a: Sys, b: Sys, rcodes: seq<int>)
    requires CellsRead(a, b, RcodeCells(), rcodes)
    ensures |rcodes| == 16 && forall r: nat :: r < 16 ==> TotalRead(a, b, Rcode(r), rcodes[r])
  {
    forall r: nat | r < 16 ensures TotalRead(a, b, Rcode(r), rcodes[r]) {
      assert TotalRead(a, b, RcodeCells()[r], rcodes[r]);
    }
  }

  lemma HistogramFields(a: Sys, b: Sys, n: Snapshot)
    requires forall kind: Hist :: CellsRead(a, b, HistCells(kind), HistSeries(n, kind))
    ensures
      && |n.srtt| == |n.cwnd| == |n.dnsLatency| == |n.runqlat| == |n.udpDuration| == 32
      && (forall i: nat :: i < 32 ==>
            && TotalRead(a, b, Srtt(i), n.srtt[i])
            && TotalRead(a, b, Cwnd(i), n.cwnd[i])
            && TotalRead(a, b, DnsLatency(i), n.dnsLatency[i])
            && TotalRead(a, b, Runqlat(i), n.runqlat[i])
            && TotalRead(a, b, UdpDuration(i), n.udpDuration[i]))
  {
    assert CellsRead(a, b, HistCells(SrttHist), n.srtt) && CellsRead(a, b, HistCells(CwndHist), n.cwnd);
    assert CellsRead(a, b, HistCells(DnsHist), n.dnsLatency) && CellsRead(a, b, HistCells(RunqHist), n.runqlat);
    assert CellsRead(a, b, HistCells(UdpHist), n.udpDuration);
    forall i: nat | i < 32
      ensures TotalRead(a, b, Srtt(i), n.srtt[i]) && TotalRead(a, b, Cwnd(i), n.cwnd[i])
      ensures TotalRead(a, b, DnsLatency(i), n.dnsLatency[i]) && TotalRead(a, b, Runqlat(i), n.runqlat[i])
      ensures TotalRead(a, b, UdpDuration(i), n.udpDuration[i])
    {
      assert TotalRead(a, b, HistCells(SrttHist)[i], n.srtt[i]);
      assert TotalRead(a, b, HistCells(CwndHist)[i], n.cwnd[i]);
      assert TotalRead(a, b, HistCells(DnsHist)[i], n.dnsLatency[i]);
      assert TotalRead(a, b, HistCells(RunqHist)[i], n.runqlat[i]);
      assert TotalRead(a, b, HistCells(UdpHist)[i], n.udpDuration[i]);
    }
  }

  /** What the exported fields are, each between the totals of its own cell. */
  lemma FieldByField(a: Sys, b: Sys, n: Snapshot)
    requires WithinInterval(a, b, n)
    ensures TotalRead(a, b, Delta(1), n.established) && TotalRead(a, b, Delta(6), n.timeWait)
    ensures
      && TotalRead(a, b, ClosedTotal, n.tcp.closed) && TotalRead(a, b, ShortLivedTotal, n.tcp.shortLived)
      && TotalRead(a, b, ConnectAttemptTotal, n.tcp.connectAttempt)
      && TotalRead(a, b, ConnectFailedTotal, n.tcp.connectFailed)
      && TotalRead(a, b, RetransTotal, n.tcp.retrans) && TotalRead(a, b, RetransBurstTotal, n.tcp.retransBurst)
      && TotalRead(a, b, RttSampleTotal, n.tcp.rttSample) && TotalRead(a, b, CwndSampleTotal, n.tcp.cwndSample)
    ensures
      && TotalRead(a, b, QueryTotal, n.dns.query) && TotalRead(a, b, ResponseTotal, n.dns.response)
      && TotalRead(a, b, RcodeErrorTotal, n.dns.rcodeError) && TotalRead(a, b, SlowTotal, n.dns.slow)
      && |n.rcodes| == 16 && (forall r: nat :: r < 16 ==> TotalRead(a, b, Rcode(r), n.rcodes[r]))
    ensures
      && TotalRead(a, b, PacketTotal, n.udp.packets) && TotalRead(a, b, LongFlowTotal, n.udp.longFlows)
    ensures
      && |n.srtt| == |n.cwnd| == |n.dnsLatency| == |n.runqlat| == |n.udpDuration| == 32
      && (forall i: nat :: i < 32 ==>
            && TotalRead(a, b, Srtt(i), n.srtt[i])
            && TotalRead(a, b, Cwnd(i), n.cwnd[i])
            && TotalRead(a, b, DnsLatency(i), n.dnsLatency[i])
            && TotalRead(a, b, Runqlat(i), n.runqlat[i])
            && TotalRead(a, b, UdpDuration(i), n.udpDuration[i]))
  {
    GaugeFields(a, b, n.established, n.timeWait);
    TcpFields(a, b, n.tcp);
    DnsFields(a, b, n.dns);
    RcodeFields(a, b, n.rcodes);
    UdpFields(a, b, n.udp);
    HistogramFields(a, b, n);
  }

  function Column(values: seq<seq<int>>, f: nat): seq<int>
    requires forall i :: 0 <= i < |values| ==> f < |values[i]|
  {
    seq(|values|, i requires 0 <= i < |values| => values[i][f])
  }

  lemma ColumnStep(values: seq<seq<int>>, f: nat, i: nat)
    requires i < |values| && forall j :: 0 <= j < |values| ==> f < |values[j]|
    ensures Sum(Column(values[..i + 1], f)) == Sum(Column(values[..i], f)) + values[i][f]
  {
    assert Column(values[..i + 1], f)[..i] == Column(values[..i], f);
  }

  /** A counter read by state `at`, its buckets read from `after` on: the buckets cover the counter. */
  lemma CounterThenBuckets(cfg: Config, ncpu: nat, es: seq<Step>, g: Guard, a: Sys, after: Sys, b: Sys,
                           count: int, buckets: seq<int>)
    requires AllSet(cfg)
    requires var at := Run(cfg, Boot(ncpu), es); Later(at, after) && TotalRead(a, at, CounterOf(g), count)
    requires |buckets| == Width(g)
    requires forall i :: 0 <= i < Width(g) ==> TotalRead(after, b, BucketOf(g, i), buckets[i])
    ensures count <= Sum(buckets)
  {
    GuardedAtAllTimes(cfg, ncpu, es, g);
    BucketsGrow(Run(cfg, Boot(ncpu), es), after, b, g, buckets);
  }

  lemma BucketsGrow(at: Sys, after: Sys, b: Sys, g: Guard, buckets: seq<int>)
    requires Later(at, after) && |buckets| == Width(g)
    requires forall i :: 0 <= i < Width(g) ==> TotalRead(after, b, BucketOf(g, i), buckets[i])
    ensures Sum(BucketTotals(at.mems, g)) <= Sum(buckets)
  {
    forall i | 0 <= i < Width(g) ensures BucketTotals(at.mems, g)[i] <= buckets[i] {
      TotalLater(at, after, BucketOf(g, i));
      assert TotalRead(after, b, BucketOf(g, i), buckets[i]);
    }
    SumMonotone(BucketTotals(at.mems, g), buckets);
  }

  function HistOf(g: Guard): Hist
    requires g != RcodeGuard
  {
    match g
    case RttGuard => SrttHist
    case CwndGuard => CwndHist
    case LongFlowGuard => UdpHist
    case SlowGuard => DnsHist
  }

  /** The same for a counter struct and a whole histogram read after it. */
  lemma CounterThenHistogram(cfg: Config, ncpu: nat, es: seq<Step>, g: Guard, a: Sys, b: Sys,
                             fields: seq<Cell>, values: seq<int>, f: nat, counts: seq<int>)
    requires AllSet(cfg) && g != RcodeGuard
    requires f < |fields| && fields[f] == CounterOf(g)
    requires var at := Run(cfg, Boot(ncpu), es);
             CellsRead(a, at, fields, values) && CellsRead(at, b, HistCells(HistOf(g)), counts)
    ensures values[f] <= Sum(counts)
  {
    var at := Run(cfg, Boot(ncpu), es);
    RunLater(cfg, at, []);
    forall i | 0 <= i < Width(g) ensures TotalRead(at, b, BucketOf(g, i), counts[i]) {
      assert TotalRead(at, b, HistCells(HistOf(g))[i], counts[i]);
    }
    assert TotalRead(a, at, fields[f], values[f]);
    CounterThenBuckets(cfg, ncpu, es, g, a, at, b, values[f], counts);
  }

  lemma CounterThenRcodes(cfg: Config, ncpu: nat, es: seq<Step>, a: Sys, b: Sys, t: DnsMetrics, rcodes: seq<int>)
    requires AllSet(cfg)
    requires var at := Run(cfg, Boot(ncpu), es);
             CellsRead(a, at, DNS_CELLS, DnsValues(t)) && CellsRead(at, b, RcodeCells(), rcodes)
    ensures t.rcodeError <= Sum(rcodes[1..])
  {
    var at := Run(cfg, Boot(ncpu), es);
    RunLater(cfg, at, []);
    forall i | 0 <= i < DNS_RCODES - 1 ensures TotalRead(at, b, BucketOf(RcodeGuard, i), rcodes[1..][i]) {
      assert TotalRead(at, b, RcodeCells()[i + 1], rcodes[i + 1]);
    }
    assert TotalRead(a, at, DNS_CELLS[2], DnsValues(t)[2]);
    CounterThenBuckets(cfg, ncpu, es, RcodeGuard, a, at, b, t.rcodeError, rcodes[1..]);
  }

  lemma SeriesNonNegative(cfg: Config, ncpu: nat, es: seq<Step>, b: Sys, kind: Hist, counts: seq<int>)
    requires CellsRead(Run(cfg, Boot(ncpu), es), b, HistCells(kind), counts)
    ensures forall i :: 0 <= i < |counts| ==> counts[i] >= 0
  {
    RunLater(cfg, Boot(ncpu), es);
    var a := Run(cfg, Boot(ncpu), es);
    forall i | 0 <= i < |counts| ensures counts[i] >= 0 {
      var c := HistCells(kind)[i];
      assert TotalRead(a, b, c, counts[i]);
      TotalLater(Boot(ncpu), a, c);
      TotalBlank(ncpu, c);
    }
  }

  // ---------------------------------------------------------------- a read at rest

  lemma RestValues(s: Sys, cells: seq<Cell>, counts: seq<int>, i: nat)
    requires CellsRead(s, s, cells, counts) && i < |cells|
    ensures counts[i] == Total(s.mems, cells[i])
  {
    assert TotalRead(s, s, cells[i], counts[i]);
  }

  lemma RestHistogram(s: Sys, kind: Hist, counts: seq<int>)
    requires CellsRead(s, s, HistCells(kind), counts)
    ensures counts == HistTotals(s.mems, kind)
  {
    forall i | 0 <= i < HIST_BUCKETS ensures counts[i] == HistTotals(s.mems, kind)[i] {
      RestValues(s, HistCells(kind), counts, i);
    }
  }

  lemma RestCounter(cfg: Config, ncpu: nat, es: seq<Step>, g: Guard,
                    fields: seq<Cell>, values: seq<int>, f: nat, counts: seq<int>)
    requires AllSet(cfg) && Quiescent(Run(cfg, Boot(ncpu), es))
    requires g == RttGuard || g == CwndGuard || g == LongFlowGuard
    requires f < |fields| && fields[f] == CounterOf(g)
    requires var s := Run(cfg, Boot(ncpu), es);
             CellsRead(s, s, fields, values) && CellsRead(s, s, HistCells(HistOf(g)), counts)
    ensures values[f] == Sum(counts)
  {
    var s := Run(cfg, Boot(ncpu), es);
    GuardedAtAllTimes(cfg, ncpu, es, g);
    RestValues(s, fields, values, f);
    RestHistogram(s, HistOf(g), counts);
    assert BucketTotals(s.mems, g) == counts;
  }

  lemma RestRcodes(cfg: Config, ncpu: nat, es: seq<Step>, t: DnsMetrics, rcodes: seq<int>)
    requires AllSet(cfg) && Quiescent(Run(cfg, Boot(ncpu), es))
    requires var s := Run(cfg, Boot(ncpu), es);
             CellsRead(s, s, DNS_CELLS, DnsValues(t)) && CellsRead(s, s, RcodeCells(), rcodes)
    ensures t.rcodeError == Sum(rcodes[1..])
  {
    var s := Run(cfg, Boot(ncpu), es);
    GuardedAtAllTimes(cfg, ncpu, es, RcodeGuard);
    RestValues(s, DNS_CELLS, DnsValues(t), 2);
    forall i | 0 <= i < DNS_RCODES - 1 ensures BucketTotals(s.mems, RcodeGuard)[i] == rcodes[1..][i] {
      RestValues(s, RcodeCells(), rcodes, i + 1);
    }
    assert BucketTotals(s.mems, RcodeGuard) == rcodes[1..];
  }

  /** The true cross-CPU totals of the listed cells. */
  function Totals(mems: seq<CpuMem>, cells: seq<Cell>): seq<int> {
    seq(|cells|, i requires 0 <= i < |cells| => Total(mems, cells[i]))
  }

  /** Every exported value is the true total of its cell. */
  ghost predicate Exact(mems: seq<CpuMem>, n: Snapshot) {
    && TcpValues(n.tcp) == Totals(mems, TCP_CELLS)
    && DnsValues(n.dns) == Totals(mems, DNS_CELLS)
    && UdpValues(n.udp) == Totals(mems, UDP_CELLS)
    && n.rcodes == Totals(mems, RcodeCells())
    && [n.established, n.timeWait] == Totals(mems, GAUGE_CELLS)
    && forall kind: Hist :: HistSeries(n, kind) == HistTotals(mems, kind)
  }

  lemma RestCells(s: Sys, cells: seq<Cell>, counts: seq<int>)
    requires CellsRead(s, s, cells, counts)
    ensures counts == Totals(s.mems, cells)
  {
    forall i | 0 <= i < |cells| ensures counts[i] == Totals(s.mems, cells)[i] {
      RestValues(s, cells, counts, i);
    }
  }

  lemma RestExact(s: Sys, n: Snapshot)
    requires WithinInterval(s, s, n)
    ensures Exact(s.mems, n)
  {
    RestCells(s, TCP_CELLS, TcpValues(n.tcp));
    RestCells(s, DNS_CELLS, DnsValues(n.dns));
    RestCells(s, UDP_CELLS, UdpValues(n.udp));
    RestCells(s, RcodeCells(), n.rcodes);
    RestCells(s, GAUGE_CELLS, [n.established, n.timeWait]);
    forall kind: Hist ensures HistSeries(n, kind) == HistTotals(s.mems, kind) {
      RestHistogram(s, kind, HistSeries(n, kind));
    }
  }

  lemma QuietCovered(cfg: Config, ncpu: nat, es: seq<Step>, n: Snapshot)
    requires AllSet(cfg)
    requires var s := Run(cfg, Boot(ncpu), es); Quiescent(s) && WithinInterval(s, s, n)
    ensures CoveredExactly(n)
  {
    var s := Run(cfg, Boot(ncpu), es);
    forall kind: Hist ensures CellsRead(s, s, HistCells(kind), HistSeries(n, kind)) {
    }
    assert n.tcp.rttSample == Sum(n.srtt) by {
      RestCounter(cfg, ncpu, es, RttGuard, TCP_CELLS, TcpValues(n.tcp), 6, HistSeries(n, SrttHist));
    }
    assert n.tcp.cwndSample == Sum(n.cwnd) by {
      RestCounter(cfg, ncpu, es, CwndGuard, TCP_CELLS, TcpValues(n.tcp), 7, HistSeries(n, CwndHist));
    }
    assert n.udp.longFlows == Sum(n.udpDuration) by {
      RestCounter(cfg, ncpu, es, LongFlowGuard, UDP_CELLS, UdpValues(n.udp), 1, HistSeries(n, UdpHist));
    }
    RestRcodes(cfg, ncpu, es, n.dns, n.rcodes);
  }

  /** At rest every field is the total of its own cell. */
  lemma RestFields(s: Sys, n: Snapshot)
    requires WithinInterval(s, s, n)
    ensures var mems := s.mems;
            && n.established == Total(mems, Delta(1)) && n.timeWait == Total(mems, Delta(6))
            && n.tcp.closed == Total(mems, ClosedTotal) && n.tcp.shortLived == Total(mems, ShortLivedTotal)
            && n.tcp.connectAttempt == Total(mems, ConnectAttemptTotal)
            && n.tcp.connectFailed == Total(mems, ConnectFailedTotal)
            && n.tcp.retrans == Total(mems, RetransTotal) && n.tcp.retransBurst == Total(mems, RetransBurstTotal)
            && n.tcp.rttSample == Total(mems, RttSampleTotal) && n.tcp.cwndSample == Total(mems, CwndSampleTotal)
            && n.dns.query == Total(mems, QueryTotal) && n.dns.response == Total(mems, ResponseTotal)
            && n.dns.rcodeError == Total(mems, RcodeErrorTotal) && n.dns.slow == Total(mems, SlowTotal)
            && n.udp.packets == Total(mems, PacketTotal) && n.udp.longFlows == Total(mems, LongFlowTotal)
            && |n.rcodes| == 16 && (forall r: nat :: r < 16 ==> n.rcodes[r] == Total(mems, Rcode(r)))
            && |n.srtt| == |n.cwnd| == |n.dnsLatency| == |n.runqlat| == |n.udpDuration| == 32
            && (forall i: nat :: i < 32 ==>
                  && n.srtt[i] == Total(mems, Srtt(i)) && n.cwnd[i] == Total(mems, Cwnd(i))
                  && n.dnsLatency[i] == Total(mems, DnsLatency(i)) && n.runqlat[i] == Total(mems, Runqlat(i))
                  && n.udpDuration[i] == Total(mems, UdpDuration(i)))
  {
    FieldByField(s, s, n);
  }

  /**
   A snapshot taken while nothing runs is exact: every counter, rcode, gauge and bucket is the true
   total. With nothing pending either, four guarded counters equal their buckets.
   */
  lemma QuietSnapshotExact(cfg: Config, ncpu: nat, es: seq<Step>, n: Snapshot)
    requires AllSet(cfg)
    requires var s := Run(cfg, Boot(ncpu), es); WithinInterval(s, s, n)
    ensures Exact(Run(cfg, Boot(ncpu), es).mems, n)
    ensures Quiescent(Run(cfg, Boot(ncpu), es)) ==> CoveredExactly(n)
    ensures var mems := Run(cfg, Boot(ncpu), es).mems;
            && n.established == Total(mems, Delta(1)) && n.timeWait == Total(mems, Delta(6))
            && n.tcp.closed == Total(mems, ClosedTotal) && n.tcp.shortLived == Total(mems, ShortLivedTotal)
            && n.tcp.connectAttempt == Total(mems, ConnectAttemptTotal)
            && n.tcp.connectFailed == Total(mems, ConnectFailedTotal)
            && n.tcp.retrans == Total(mems, RetransTotal) && n.tcp.retransBurst == Total(mems, RetransBurstTotal)
            && n.tcp.rttSample == Total(mems, RttSampleTotal) && n.tcp.cwndSample == Total(mems, CwndSampleTotal)
            && n.dns.query == Total(mems, QueryTotal) && n.dns.response == Total(mems, ResponseTotal)
            && n.dns.rcodeError == Total(mems, RcodeErrorTotal) && n.dns.slow == Total(mems, SlowTotal)
            && n.udp.packets == Total(mems, PacketTotal) && n.udp.longFlows == Total(mems, LongFlowTotal)
            && |n.rcodes| == 16 && (forall r: nat :: r < 16 ==> n.rcodes[r] == Total(mems, Rcode(r)))
            && |n.srtt| == |n.cwnd| == |n.dnsLatency| == |n.runqlat| == |n.udpDuration| == 32
            && (forall i: nat :: i < 32 ==>
                  && n.srtt[i] == Total(mems, Srtt(i)) && n.cwnd[i] == Total(mems, Cwnd(i))
                  && n.dnsLatency[i] == Total(mems, DnsLatency(i)) && n.runqlat[i] == Total(mems, Runqlat(i))
                  && n.udpDuration[i] == Total(mems, UdpDuration(i)))
  {
    RestFields(Run(cfg, Boot(ncpu), es), n);
    RestExact(Run(cfg, Boot(ncpu), es), n);
    if Quiescent(Run(cfg, Boot(ncpu), es)) {
      QuietCovered(cfg, ncpu, es, n);
    }
  }

  // ---------------------------------------------------------------- a torn histogram

  /** A series read between two states: no bucket above the samples started by the later one. */
  lemma SeriesAbove(cfg: Config, ncpu: nat, es: seq<Step>, a: Sys, kind: Hist, counts: seq<int>, i: nat)
    requires CellsRead(a, Run(cfg, Boot(ncpu), es), HistCells(kind), counts) && i < HIST_BUCKETS
    ensures counts[i] <= Tally(AllSamples(ncpu, es, kind))[i]
  {
    LandedAtMostStarted(cfg, ncpu, es, kind, i);
    assert TotalRead(a, Run(cfg, Boot(ncpu), es), HistCells(kind)[i], counts[i]);
  }

  /** And, if nothing was pending in the earlier state, none below the samples started by then. */
  lemma SeriesBelow(cfg: Config, ncpu: nat, es: seq<Step>, b: Sys, kind: Hist, counts: seq<int>, i: nat)
    requires Quiescent(Run(cfg, Boot(ncpu), es))
    requires CellsRead(Run(cfg, Boot(ncpu), es), b, HistCells(kind), counts) && i < HIST_BUCKETS
    ensures Tally(AllSamples(ncpu, es, kind))[i] <= counts[i]
  {
    RestIsTally(cfg, ncpu, es, kind);
    assert HistTotals(Run(cfg, Boot(ncpu), es).mems, kind)[i] == Tally(AllSamples(ncpu, es, kind))[i];
    assert TotalRead(Run(cfg, Boot(ncpu), es), b, HistCells(kind)[i], counts[i]);
  }

  /** The export shows no more than the samples started. */
  ghost predicate ExportsAtMost(counts: seq<nat>, samples: seq<nat>)
    requires |counts| == HIST_BUCKETS
  {
    && Sum(counts) <= |samples|
    && Weighted(counts) <= 2 * Sum(samples) + CountZero(samples)
    && forall i: nat :: i < HIST_BUCKETS - 1 ==> Sum(counts[..i + 1]) <= CountLe(samples, Pow2(i))
  }

  /** The export shows no less than these samples, its sum included as far as they stay below 2^31. */
  ghost predicate ExportsAtLeast(counts: seq<nat>, samples: seq<nat>)
    requires |counts| == HIST_BUCKETS
  {
    && |samples| <= Sum(counts)
    && ((forall i :: 0 <= i < |samples| ==> samples[i] <= Pow2(HIST_BUCKETS - 1)) ==> Sum(samples) <= Weighted(counts))
    && forall i: nat :: i < HIST_BUCKETS - 1 ==> CountLe(samples, Pow2(i)) <= Sum(counts[..i + 1])
  }

  lemma BelowTally(counts: seq<nat>, samples: seq<nat>)
    requires |counts| == HIST_BUCKETS
    requires forall i :: 0 <= i < HIST_BUCKETS ==> counts[i] <= Tally(samples)[i]
    ensures ExportsAtMost(counts, samples)
  {
    var t := Tally(samples);
    SumMonotone(counts, t);
    WeightedMonotone(counts, t);
    EstimateUpper(samples);
    ExportIsDirectCounting(samples, 0);
    forall i: nat | i < HIST_BUCKETS - 1 ensures Sum(counts[..i + 1]) <= CountLe(samples, Pow2(i)) {
      SumMonotone(counts[..i + 1], t[..i + 1]);
      ExportIsDirectCounting(samples, i);
    }
  }

  lemma AboveTally(counts: seq<nat>, samples: seq<nat>)
    requires |counts| == HIST_BUCKETS
    requires forall i :: 0 <= i < HIST_BUCKETS ==> Tally(samples)[i] <= counts[i]
    ensures ExportsAtLeast(counts, samples)
  {
    var t := Tally(samples);
    SumMonotone(t, counts);
    WeightedMonotone(t, counts);
    if forall i :: 0 <= i < |samples| ==> samples[i] <= Pow2(HIST_BUCKETS - 1) {
      EstimateLower(samples);
    }
    ExportIsDirectCounting(samples, 0);
    forall i: nat | i < HIST_BUCKETS - 1 ensures CountLe(samples, Pow2(i)) <= Sum(counts[..i + 1]) {
      SumMonotone(t[..i + 1], counts[..i + 1]);
      ExportIsDirectCounting(samples, i);
    }
  }

  // ---------------------------------------------------------------- summing what was read

  lemma ColumnRead(a: Sys, b: Sys, fields: seq<Cell>, values: seq<seq<int>>, f: nat)
    requires f < |fields| && |values| == |a.mems| == |b.mems|
    requires forall cpu :: 0 <= cpu < |values| ==> |values[cpu]| == |fields|
    requires forall cpu, k :: 0 <= cpu < |values| && 0 <= k < |fields| ==>
               SlotRead(a, b, cpu, fields[k], values[cpu][k])
    ensures TotalRead(a, b, fields[f], Sum(Column(values, f)))
  {
    SumOfReads(a, b, fields[f], Column(values, f));
  }

  method SumU64(values: seq<seq<int>>) returns (total: int)
    requires forall i :: 0 <= i < |values| ==> |values[i]| == 1
    ensures total == Sum(Column(values, 0))
  {
    total := 0;
    for i := 0 to |values|
      invariant total == Sum(Column(values[..i], 0))
    {
      ColumnStep(values, 0, i);
      total := total + values[i][0];
    }
    assert values[..|values|] == values;
  }

  method AddTcp(values: seq<seq<int>>) returns (total: TcpMetrics)
    requires forall i :: 0 <= i < |values| ==> |values[i]| == 8
    ensures total == TcpMetrics(Sum(Column(values, 0)), Sum(Column(values, 1)), Sum(Column(values, 2)),
                                Sum(Column(values, 3)), Sum(Column(values, 4)), Sum(Column(values, 5)),
                                Sum(Column(values, 6)), Sum(Column(values, 7)))
  {
    total := TcpMetrics(0, 0, 0, 0, 0, 0, 0, 0);
    for i := 0 to |values|
      invariant total == TcpMetrics(
        Sum(Column(values[..i], 0)), Sum(Column(values[..i], 1)), Sum(Column(values[..i], 2)),
        Sum(Column(values[..i], 3)), Sum(Column(values[..i], 4)), Sum(Column(values[..i], 5)),
        Sum(Column(values[..i], 6)), Sum(Column(values[..i], 7)))
    {
      forall f | 0 <= f < 8
        ensures Sum(Column(values[..i + 1], f)) == Sum(Column(values[..i], f)) + values[i][f]
      {
        ColumnStep(values, f, i);
      }
      var v := values[i];
      total := TcpMetrics(total.closed + v[0], total.shortLived + v[1], total.connectAttempt + v[2],
                          total.connectFailed + v[3], total.retrans + v[4], total.retransBurst + v[5],
                          total.rttSample + v[6], total.cwndSample + v[7]);
    }
    assert values[..|values|] == values;
  }

  method AddDns(values: seq<seq<int>>) returns (total: DnsMetrics)
    requires forall i :: 0 <= i < |values| ==> |values[i]| == 4
    ensures total == DnsMetrics(Sum(Column(values, 0)), Sum(Column(values, 1)), Sum(Column(values, 2)),
                                Sum(Column(values, 3)))
  {
    total := DnsMetrics(0, 0, 0, 0);
    for i := 0 to |values|
      invariant total == DnsMetrics(Sum(Column(values[..i], 0)), Sum(Column(values[..i], 1)),
                                    Sum(Column(values[..i], 2)), Sum(Column(values[..i], 3)))
    {
      forall f | 0 <= f < 4
        ensures Sum(Column(values[..i + 1], f)) == Sum(Column(values[..i], f)) + values[i][f]
      {
        ColumnStep(values, f, i);
      }
      var v := values[i];
      total := DnsMetrics(total.query + v[0], total.response + v[1], total.rcodeError + v[2], total.slow + v[3]);
    }
    assert values[..|values|] == values;
  }

  method AddUdp(values: seq<seq<int>>) returns (total: UdpMetrics)
    requires forall i :: 0 <= i < |values| ==> |values[i]| == 2
    ensures total == UdpMetrics(Sum(Column(values, 0)), Sum(Column(values, 1)))
  {
    total := UdpMetrics(0, 0);
    for i := 0 to |values|
      invariant total == UdpMetrics(Sum(Column(values[..i], 0)), Sum(Column(values[..i], 1)))
    {
      forall f | 0 <= f < 2
        ensures Sum(Column(values[..i + 1], f)) == Sum(Column(values[..i], f)) + values[i][f]
      {
        ColumnStep(values, f, i);
      }
      total := UdpMetrics(total.packets + values[i][0], total.longFlows + values[i][1]);
    }
    assert values[..|values|] == values;
  }

  // ---------------------------------------------------------------- the reader

  /**
   The collector's maps as the scraping process sees them. `upcoming` holds the steps the handlers
   make before each slot read, so a statement about `Snapshot` is one about every interleaving.
   */
  class Scraper {
    const cfg: Config
    const ncpu: nat
    var sys: Sys
    var upcoming: seq<seq<Step>>
    ghost var history: seq<Step>

    ghost predicate Valid()
      reads this
    {
      AllSet(cfg) && sys == At(history)
    }

    /** The state after a history of steps. */
    ghost function At(h: seq<Step>): (s: Sys)
      ensures Shaped(s) && |s.mems| == ncpu
    {
      Run(cfg, Boot(ncpu), h)
    }

    lemma PrefixLater(h: seq<Step>, h': seq<Step>)
      requires h <= h'
      ensures Later(At(h), At(h'))
    {
      assert h' == h + h'[|h|..];
      RunConcat(cfg, Boot(ncpu), h, h'[|h|..]);
      RunLater(cfg, At(h), h'[|h|..]);
    }

    lemma WiderSlot(h0: seq<Step>, h1: seq<Step>, h2: seq<Step>, h3: seq<Step>, cpu: nat, c: Cell, x: int)
      requires h0 <= h1 <= h2 <= h3 && cpu < ncpu
      requires SlotRead(At(h1), At(h2), cpu, c, x)
      ensures SlotRead(At(h0), At(h3), cpu, c, x)
    {
      PrefixLater(h0, h1);
      PrefixLater(h1, h2);
      PrefixLater(h2, h3);
      SlotReadWider(At(h0), At(h1), At(h2), At(h3), cpu, c, x);
    }

    lemma WiderTotal(h0: seq<Step>, h1: seq<Step>, h2: seq<Step>, h3: seq<Step>, c: Cell, x: int)
      requires h0 <= h1 <= h2 <= h3
      requires TotalRead(At(h1), At(h2), c, x)
      ensures TotalRead(At(h0), At(h3), c, x)
    {
      PrefixLater(h0, h1);
      PrefixLater(h1, h2);
      PrefixLater(h2, h3);
      TotalReadWider(At(h0), At(h1), At(h2), At(h3), c, x);
    }

    lemma WiderCells(h0: seq<Step>, h1: seq<Step>, h2: seq<Step>, h3: seq<Step>, cells: seq<Cell>, counts: seq<int>)
      requires h0 <= h1 <= h2 <= h3
      requires CellsRead(At(h1), At(h2), cells, counts)
      ensures CellsRead(At(h0), At(h3), cells, counts)
    {
      forall i | 0 <= i < |cells| ensures TotalRead(At(h0), At(h3), cells[i], counts[i]) {
        WiderTotal(h0, h1, h2, h3, cells[i], counts[i]);
      }
    }

    lemma TcpCover(h0: seq<Step>, h1: seq<Step>, h2: seq<Step>, t: TcpMetrics, srtt: seq<int>, cwnd: seq<int>)
      requires AllSet(cfg) && CellsRead(At(h0), At(h1), TCP_CELLS, TcpValues(t))
      requires CellsRead(At(h1), At(h2), HistCells(SrttHist), srtt)
      requires CellsRead(At(h1), At(h2), HistCells(CwndHist), cwnd)
      ensures t.rttSample <= Sum(srtt) && t.cwndSample <= Sum(cwnd)
    {
      CounterThenHistogram(cfg, ncpu, h1, RttGuard, At(h0), At(h2), TCP_CELLS, TcpValues(t), 6, srtt);
      CounterThenHistogram(cfg, ncpu, h1, CwndGuard, At(h0), At(h2), TCP_CELLS, TcpValues(t), 7, cwnd);
    }

    lemma UdpCover(h0: seq<Step>, h1: seq<Step>, h2: seq<Step>, t: UdpMetrics, durations: seq<int>)
      requires AllSet(cfg) && CellsRead(At(h0), At(h1), UDP_CELLS, UdpValues(t))
      requires CellsRead(At(h1), At(h2), HistCells(UdpHist), durations)
      ensures t.longFlows <= Sum(durations)
    {
      CounterThenHistogram(cfg, ncpu, h1, LongFlowGuard, At(h0), At(h2), UDP_CELLS, UdpValues(t), 1, durations);
    }

    lemma DnsCover(h0: seq<Step>, h1: seq<Step>, h2: seq<Step>, t: DnsMetrics, latencies: seq<int>)
      requires AllSet(cfg) && CellsRead(At(h0), At(h1), DNS_CELLS, DnsValues(t))
      requires CellsRead(At(h1), At(h2), HistCells(DnsHist), latencies)
      ensures t.slow <= Sum(latencies)
    {
      CounterThenHistogram(cfg, ncpu, h1, SlowGuard, At(h0), At(h2), DNS_CELLS, DnsValues(t), 3, latencies);
    }

    /** What the two halves of a snapshot say together. */
    lemma HalvesCover(h0: seq<Step>, h1: seq<Step>, h2: seq<Step>, n: Snapshot)
      requires AllSet(cfg) && h0 <= h1 <= h2
      requires CellsRead(At(h0), At(h1), TCP_CELLS, TcpValues(n.tcp))
      requires CellsRead(At(h0), At(h1), UDP_CELLS, UdpValues(n.udp))
      requires CellsRead(At(h0), At(h1), DNS_CELLS, DnsValues(n.dns))
      requires CellsRead(At(h1), At(h2), HistCells(SrttHist), n.srtt)
      requires CellsRead(At(h1), At(h2), HistCells(CwndHist), n.cwnd)
      requires CellsRead(At(h1), At(h2), HistCells(DnsHist), n.dnsLatency)
      requires CellsRead(At(h1), At(h2), HistCells(UdpHist), n.udpDuration)
      ensures n.tcp.rttSample <= Sum(n.srtt) && n.tcp.cwndSample <= Sum(n.cwnd)
      ensures n.udp.longFlows <= Sum(n.udpDuration) && n.dns.slow <= Sum(n.dnsLatency)
    {
      TcpCover(h0, h1, h2, n.tcp, n.srtt, n.cwnd);
      UdpCover(h0, h1, h2, n.udp, n.udpDuration);
      DnsCover(h0, h1, h2, n.dns, n.dnsLatency);
    }

    lemma HalvesInterval(h0: seq<Step>, h1: seq<Step>, h2: seq<Step>, n: Snapshot)
      requires h0 <= h1 <= h2
      requires CellsRead(At(h0), At(h1), TCP_CELLS, TcpValues(n.tcp))
      requires CellsRead(At(h0), At(h1), UDP_CELLS, UdpValues(n.udp))
      requires CellsRead(At(h0), At(h1), DNS_CELLS, DnsValues(n.dns))
      requires CellsRead(At(h0), At(h1), RcodeCells(), n.rcodes)
      requires CellsRead(At(h0), At(h1), GAUGE_CELLS, [n.established, n.timeWait])
      requires CellsRead(At(h1), At(h2), HistCells(SrttHist), n.srtt)
      requires CellsRead(At(h1), At(h2), HistCells(CwndHist), n.cwnd)
      requires CellsRead(At(h1), At(h2), HistCells(DnsHist), n.dnsLatency)
      requires CellsRead(At(h1), At(h2), HistCells(RunqHist), n.runqlat)
      requires CellsRead(At(h1), At(h2), HistCells(UdpHist), n.udpDuration)
      ensures WithinInterval(At(h0), At(h2), n)
    {
      WiderCells(h0, h0, h1, h2, TCP_CELLS, TcpValues(n.tcp));
      WiderCells(h0, h0, h1, h2, UDP_CELLS, UdpValues(n.udp));
      WiderCells(h0, h0, h1, h2, DNS_CELLS, DnsValues(n.dns));
      WiderCells(h0, h0, h1, h2, RcodeCells(), n.rcodes);
      WiderCells(h0, h0, h1, h2, GAUGE_CELLS, [n.established, n.timeWait]);
      forall kind: Hist ensures CellsRead(At(h0), At(h2), HistCells(kind), HistSeries(n, kind)) {
        WiderCells(h0, h1, h2, h2, HistCells(kind), HistSeries(n, kind));
      }
    }

    /** What the two halves of a snapshot establish together. */
    lemma Halves(h0: seq<Step>, h1: seq<Step>, h2: seq<Step>, n: Snapshot)
      requires AllSet(cfg) && h0 <= h1 <= h2
      requires CellsRead(At(h0), At(h1), TCP_CELLS, TcpValues(n.tcp))
      requires CellsRead(At(h0), At(h1), UDP_CELLS, UdpValues(n.udp))
      requires CellsRead(At(h0), At(h1), DNS_CELLS, DnsValues(n.dns))
      requires CellsRead(At(h0), At(h1), RcodeCells(), n.rcodes)
      requires CellsRead(At(h0), At(h1), GAUGE_CELLS, [n.established, n.timeWait])
      requires CellsRead(At(h1), At(h2), HistCells(SrttHist), n.srtt)
      requires CellsRead(At(h1), At(h2), HistCells(CwndHist), n.cwnd)
      requires CellsRead(At(h1), At(h2), HistCells(DnsHist), n.dnsLatency)
      requires CellsRead(At(h1), At(h2), HistCells(RunqHist), n.runqlat)
      requires CellsRead(At(h1), At(h2), HistCells(UdpHist), n.udpDuration)
      requires n.dns.rcodeError <= Sum(n.rcodes[1..])
      ensures WithinInterval(At(h0), At(h2), n) && Covered(n)
    {
      HalvesCover(h0, h1, h2, n);
      HalvesInterval(h0, h1, h2, n);
    }

    constructor (entry: Option<Config>, ncpu: nat, upcoming: seq<seq<Step>>)
      ensures Valid() && this.ncpu == ncpu && this.cfg == GetConfig(entry)
      ensures sys == Boot(ncpu) && this.upcoming == upcoming
    {
      this.cfg := GetConfig(entry);
      this.ncpu := ncpu;
      this.sys := Boot(ncpu);
      this.upcoming := upcoming;
      this.history := [];
    }

    /** The handlers run until the next slot read. */
    method Interfere()
      requires Valid()
      modifies this
      ensures Valid() && old(history) <= history
      ensures old(upcoming) == [] ==> history == old(history) && upcoming == []
    {
      if upcoming != [] {
        RunConcat(cfg, Boot(ncpu), history, upcoming[0]);
        history := history + upcoming[0];
        sys := Run(cfg, sys, upcoming[0]);
        upcoming := upcoming[1..];
      }
    }

    /** Copies the listed fields of one CPU's slot. */
    method LookupSlot(cpu: nat, fields: seq<Cell>) returns (slot: seq<int>)
      requires Valid() && cpu < ncpu
      modifies this
      ensures Valid() && old(history) <= history
      ensures old(upcoming) == [] ==> history == old(history) && upcoming == []
      ensures |slot| == |fields|
      ensures forall f :: 0 <= f < |fields| ==> SlotRead(At(old(history)), At(history), cpu, fields[f], slot[f])
    {
      slot := [];
      for k := 0 to |fields|
        invariant Valid() && old(history) <= history
        invariant old(upcoming) == [] ==> history == old(history) && upcoming == []
        invariant |slot| == k
        invariant forall f :: 0 <= f < k ==> SlotRead(At(old(history)), At(history), cpu, fields[f], slot[f])
      {
        ghost var before := history;
        Interfere();
        forall f | 0 <= f < k ensures SlotRead(At(old(history)), At(history), cpu, fields[f], slot[f]) {
          WiderSlot(old(history), old(history), before, history, cpu, fields[f], slot[f]);
        }
        slot := slot + [Get(sys.mems[cpu], fields[k])];
        assert SlotRead(At(old(history)), At(history), cpu, fields[k], slot[k]) by {
          PrefixLater(history, history);
          WiderSlot(old(history), history, history, history, cpu, fields[k], slot[k]);
        }
      }
    }

    /** `lookupPerCPU`: copies the listed fields of every CPU's slot, one read at a time. */
    method LookupPerCpu(fields: seq<Cell>) returns (values: seq<seq<int>>)
      requires Valid()
      modifies this
      ensures Valid() && old(history) <= history
      ensures old(upcoming) == [] ==> history == old(history) && upcoming == []
      ensures |values| == ncpu && forall cpu :: 0 <= cpu < ncpu ==> |values[cpu]| == |fields|
      ensures forall cpu, f :: 0 <= cpu < ncpu && 0 <= f < |fields| ==>
                SlotRead(At(old(history)), At(history), cpu, fields[f], values[cpu][f])
    {
      values := [];
      for cpu := 0 to ncpu
        invariant Valid() && old(history) <= history
        invariant old(upcoming) == [] ==> history == old(history) && upcoming == []
        invariant |values| == cpu && forall i :: 0 <= i < cpu ==> |values[i]| == |fields|
        invariant forall i, f :: 0 <= i < cpu && 0 <= f < |fields| ==>
                    SlotRead(At(old(history)), At(history), i, fields[f], values[i][f])
      {
        ghost var before := history;
        var slot := LookupSlot(cpu, fields);
        forall i, f | 0 <= i < cpu && 0 <= f < |fields|
          ensures SlotRead(At(old(history)), At(history), i, fields[f], values[i][f])
        {
          WiderSlot(old(history), old(history), before, history, i, fields[f], values[i][f]);
        }
        forall f | 0 <= f < |fields| ensures SlotRead(At(old(history)), At(history), cpu, fields[f], slot[f]) {
          WiderSlot(old(history), before, history, history, cpu, fields[f], slot[f]);
        }
        values := values + [slot];
      }
    }

    /** `sumU64PerCPU` and `sumTCPState`: one cell summed over all CPUs. */
    method SumPerCpu(c: Cell) returns (total: int)
      requires Valid()
      modifies this
      ensures Valid() && old(history) <= history
      ensures old(upcoming) == [] ==> history == old(history) && upcoming == []
      ensures TotalRead(At(old(history)), At(history), c, total)
    {
      var values := LookupPerCpu([c]);
      total := SumU64(values);
      ColumnRead(At(old(history)), At(history), [c], values, 0);
    }

    method SumTcpCounters() returns (total: TcpMetrics)
      requires Valid()
      modifies this
      ensures Valid() && old(history) <= history
      ensures old(upcoming) == [] ==> history == old(history) && upcoming == []
      ensures CellsRead(At(old(history)), At(history), TCP_CELLS, TcpValues(total))
      ensures var a, b := At(old(history)), At(history);
              && TotalRead(a, b, ClosedTotal, total.closed) && TotalRead(a, b, ShortLivedTotal, total.shortLived)
              && TotalRead(a, b, ConnectAttemptTotal, total.connectAttempt)
              && TotalRead(a, b, ConnectFailedTotal, total.connectFailed)
              && TotalRead(a, b, RetransTotal, total.retrans) && TotalRead(a, b, RetransBurstTotal, total.retransBurst)
              && TotalRead(a, b, RttSampleTotal, total.rttSample) && TotalRead(a, b, CwndSampleTotal, total.cwndSample)
    {
      var values := LookupPerCpu(TCP_CELLS);
      total := AddTcp(values);
      forall f | 0 <= f < 8 ensures TotalRead(At(old(history)), At(history), TCP_CELLS[f], TcpValues(total)[f]) {
        ColumnRead(At(old(history)), At(history), TCP_CELLS, values, f);
      }
      TcpFields(At(old(history)), At(history), total);
    }

    method SumDnsCounters() returns (total: DnsMetrics)
      requires Valid()
      modifies this
      ensures Valid() && old(history) <= history
      ensures old(upcoming) == [] ==> history == old(history) && upcoming == []
      ensures CellsRead(At(old(history)), At(history), DNS_CELLS, DnsValues(total))
      ensures var a, b := At(old(history)), At(history);
              && TotalRead(a, b, QueryTotal, total.query) && TotalRead(a, b, ResponseTotal, total.response)
              && TotalRead(a, b, RcodeErrorTotal, total.rcodeError) && TotalRead(a, b, SlowTotal, total.slow)
    {
      var values := LookupPerCpu(DNS_CELLS);
      total := AddDns(values);
      forall f | 0 <= f < 4 ensures TotalRead(At(old(history)), At(history), DNS_CELLS[f], DnsValues(total)[f]) {
        ColumnRead(At(old(history)), At(history), DNS_CELLS, values, f);
      }
      DnsFields(At(old(history)), At(history), total);
    }

    method SumUdpCounters() returns (total: UdpMetrics)
      requires Valid()
      modifies this
      ensures Valid() && old(history) <= history
      ensures old(upcoming) == [] ==> history == old(history) && upcoming == []
      ensures CellsRead(At(old(history)), At(history), UDP_CELLS, UdpValues(total))
      ensures var a, b := At(old(history)), At(history);
              && TotalRead(a, b, PacketTotal, total.packets) && TotalRead(a, b, LongFlowTotal, total.longFlows)
    {
      var values := LookupPerCpu(UDP_CELLS);
      total := AddUdp(values);
      forall f | 0 <= f < 2 ensures TotalRead(At(old(history)), At(history), UDP_CELLS[f], UdpValues(total)[f]) {
        ColumnRead(At(old(history)), At(history), UDP_CELLS, values, f);
      }
      UdpFields(At(old(history)), At(history), total);
    }

    /** Reads the listed cells in order: `sumHistogram`, and the rcode loop of `Snapshot`. */
    method SumCells(cells: seq<Cell>) returns (counts: seq<int>)
      requires Valid()
      modifies this
      ensures Valid() && old(history) <= history
      ensures old(upcoming) == [] ==> history == old(history) && upcoming == []
      ensures CellsRead(At(old(history)), At(history), cells, counts)
    {
      counts := [];
      for i := 0 to |cells|
        invariant Valid() && old(history) <= history
        invariant old(upcoming) == [] ==> history == old(history) && upcoming == []
        invariant CellsRead(At(old(history)), At(history), cells[..i], counts)
      {
        ghost var before := history;
        var total := SumPerCpu(cells[i]);
        WiderCells(old(history), old(history), before, history, cells[..i], counts);
        WiderTotal(old(history), before, history, history, cells[i], total);
        counts := counts + [total];
      }
      assert cells[..|cells|] == cells;
    }

    /** The DNS counters, then the rcodes behind rcode_error_total. */
    method ReadDns() returns (dns: DnsMetrics, rcodes: seq<int>)
      requires Valid()
      modifies this
      ensures Valid() && old(history) <= history
      ensures old(upcoming) == [] ==> history == old(history) && upcoming == []
      ensures CellsRead(At(old(history)), At(history), DNS_CELLS, DnsValues(dns))
      ensures CellsRead(At(old(history)), At(history), RcodeCells(), rcodes)
      ensures dns.rcodeError <= Sum(rcodes[1..])
    {
      ghost var h0 := history;
      dns := SumDnsCounters();
      ghost var h1 := history;
      rcodes := SumCells(RcodeCells());
      CounterThenRcodes(cfg, ncpu, h1, At(h0), At(history), dns, rcodes);
      WiderCells(h0, h0, h1, history, DNS_CELLS, DnsValues(dns));
      WiderCells(h0, h1, history, history, RcodeCells(), rcodes);
    }

    /** The first half of `Snapshot`: all counters and gauges, DNS first. */
    method ReadCounters()
      returns (dns: DnsMetrics, rcodes: seq<int>, tcp: TcpMetrics, udp: UdpMetrics, established: int, timeWait: int)
      requires Valid()
      modifies this
      ensures Valid() && old(history) <= history
      ensures old(upcoming) == [] ==> history == old(history) && upcoming == []
      ensures CellsRead(At(old(history)), At(history), DNS_CELLS, DnsValues(dns))
      ensures CellsRead(At(old(history)), At(history), TCP_CELLS, TcpValues(tcp))
      ensures CellsRead(At(old(history)), At(history), UDP_CELLS, UdpValues(udp))
      ensures CellsRead(At(old(history)), At(history), RcodeCells(), rcodes)
      ensures CellsRead(At(old(history)), At(history), GAUGE_CELLS, [established, timeWait])
      ensures dns.rcodeError <= Sum(rcodes[1..])
      ensures var a, b := At(old(history)), At(history);
              TotalRead(a, b, Delta(1), established) && TotalRead(a, b, Delta(6), timeWait)
    {
      ghost var h0 := history;
      dns, rcodes := ReadDns();
      ghost var h1 := history;
      tcp := SumTcpCounters();
      ghost var h2 := history;
      udp := SumUdpCounters();
      ghost var h3 := history;
      established, timeWait := ReadGauges();
      WiderCells(h0, h0, h1, history, DNS_CELLS, DnsValues(dns));
      WiderCells(h0, h0, h1, history, RcodeCells(), rcodes);
      WiderCells(h0, h1, h2, history, TCP_CELLS, TcpValues(tcp));
      WiderCells(h0, h2, h3, history, UDP_CELLS, UdpValues(udp));
      WiderCells(h0, h3, history, history, GAUGE_CELLS, [established, timeWait]);
      GaugeFields(At(h0), At(history), established, timeWait);
    }

    /** The two state gauges: ESTABLISHED, state 1, and TIME_WAIT, state 6. */
    method ReadGauges() returns (established: int, timeWait: int)
      requires Valid()
      modifies this
      ensures Valid() && old(history) <= history
      ensures old(upcoming) == [] ==> history == old(history) && upcoming == []
      ensures CellsRead(At(old(history)), At(history), GAUGE_CELLS, [established, timeWait])
    {
      var gauges := SumCells(GAUGE_CELLS);
      established, timeWait := gauges[0], gauges[1];
      assert gauges == [established, timeWait];
    }

    /** The second half of `Snapshot`: the five histograms, in their order. */
    method ReadHistograms()
      returns (srtt: seq<int>, cwnd: seq<int>, dnsLatency: seq<int>, runqlat: seq<int>, udpDuration: seq<int>)
      requires Valid()
      modifies this
      ensures Valid() && old(history) <= history
      ensures old(upcoming) == [] ==> history == old(history) && upcoming == []
      ensures CellsRead(At(old(history)), At(history), HistCells(SrttHist), srtt)
      ensures CellsRead(At(old(history)), At(history), HistCells(CwndHist), cwnd)
      ensures CellsRead(At(old(history)), At(history), HistCells(DnsHist), dnsLatency)
      ensures CellsRead(At(old(history)), At(history), HistCells(RunqHist), runqlat)
      ensures CellsRead(At(old(history)), At(history), HistCells(UdpHist), udpDuration)
    {
      ghost var h0 := history;
      srtt := SumCells(HistCells(SrttHist));
      ghost var h1 := history;
      cwnd := SumCells(HistCells(CwndHist));
      ghost var h2 := history;
      dnsLatency := SumCells(HistCells(DnsHist));
      ghost var h3 := history;
      runqlat := SumCells(HistCells(RunqHist));
      ghost var h4 := history;
      udpDuration := SumCells(HistCells(UdpHist));
      WiderCells(h0, h0, h1, history, HistCells(SrttHist), srtt);
      WiderCells(h0, h1, h2, history, HistCells(CwndHist), cwnd);
      WiderCells(h0, h2, h3, history, HistCells(DnsHist), dnsLatency);
      WiderCells(h0, h3, h4, history, HistCells(RunqHist), runqlat);
      WiderCells(h0, h4, history, history, HistCells(UdpHist), udpDuration);
    }

    /**
     `Runtime.Snapshot`. However the handlers interleave with it, each exported value obeys the
     interval bound and the guarded counters are covered by their buckets. Without interference every
     value is the true total, and with nothing pending the coverage is exact.
     */
    method TakeSnapshot() returns (n: Snapshot)
      requires Valid()
      modifies this
      ensures Valid() && old(history) <= history
      ensures old(upcoming) == [] ==> history == old(history) && upcoming == []
      ensures WithinInterval(At(old(history)), At(history), n)
      ensures Covered(n)
      ensures old(upcoming) == [] ==> Exact(old(sys).mems, n)
      ensures old(upcoming) == [] && Quiescent(old(sys)) ==> CoveredExactly(n)
      ensures var a, b := At(old(history)), At(history);
              && TotalRead(a, b, Delta(1), n.established) && TotalRead(a, b, Delta(6), n.timeWait)
              && TotalRead(a, b, ClosedTotal, n.tcp.closed) && TotalRead(a, b, ShortLivedTotal, n.tcp.shortLived)
              && TotalRead(a, b, ConnectAttemptTotal, n.tcp.connectAttempt)
              && TotalRead(a, b, ConnectFailedTotal, n.tcp.connectFailed)
              && TotalRead(a, b, RetransTotal, n.tcp.retrans) && TotalRead(a, b, RetransBurstTotal, n.tcp.retransBurst)
              && TotalRead(a, b, RttSampleTotal, n.tcp.rttSample) && TotalRead(a, b, CwndSampleTotal, n.tcp.cwndSample)
              && TotalRead(a, b, QueryTotal, n.dns.query) && TotalRead(a, b, ResponseTotal, n.dns.response)
              && TotalRead(a, b, RcodeErrorTotal, n.dns.rcodeError) && TotalRead(a, b, SlowTotal, n.dns.slow)
              && TotalRead(a, b, PacketTotal, n.udp.packets) && TotalRead(a, b, LongFlowTotal, n.udp.longFlows)
              && |n.rcodes| == 16 && (forall r: nat :: r < 16 ==> TotalRead(a, b, Rcode(r), n.rcodes[r]))
              && |n.srtt| == |n.cwnd| == |n.dnsLatency| == |n.runqlat| == |n.udpDuration| == 32
              && (forall i: nat :: i < 32 ==>
                    && TotalRead(a, b, Srtt(i), n.srtt[i])
                    && TotalRead(a, b, Cwnd(i), n.cwnd[i])
                    && TotalRead(a, b, DnsLatency(i), n.dnsLatency[i])
                    && TotalRead(a, b, Runqlat(i), n.runqlat[i])
                    && TotalRead(a, b, UdpDuration(i), n.udpDuration[i]))
    {
      ghost var h0 := history;
      var dns, rcodes, tcp, udp, established, timeWait := ReadCounters();
      ghost var h1 := history;
      var srtt, cwnd, dnsLatency, runqlat, udpDuration := ReadHistograms();
      n := Snapshot(tcp, dns, rcodes, udp, established, timeWait, srtt, cwnd, dnsLatency, runqlat, udpDuration);
      Halves(h0, h1, history, n);
      if old(upcoming) == [] {
        QuietSnapshotExact(cfg, ncpu, h0, n);
      }
      FieldByField(At(h0), At(history), n);
    }

    /**
     `Collect` for one histogram: a snapshot, then its exported form, with handlers running all the
     while. What is exported is bounded above by direct counting of the samples started by the end,
     and, if nothing was pending at the start, below by direct counting of the samples up to then.
     At rest the two coincide. The SRTT samples stay below 2^31, so their sum is never understated.
     */
    method CollectHistogram(kind: Hist)
      returns (n: Snapshot, total: int, estimatedSum: nat, cumulative: map<nat, int>)
      requires Valid()
      modifies this
      ensures Valid() && old(history) <= history
      ensures old(upcoming) == [] ==> history == old(history)
      ensures Covered(n) && total == Sum(HistSeries(n, kind))
      ensures var started := AllSamples(ncpu, history, kind);
              && total <= |started|
              && estimatedSum <= 2 * Sum(started) + CountZero(started)
              && forall i: nat :: i < HIST_BUCKETS - 1 ==>
                   Pow2(i) in cumulative && cumulative[Pow2(i)] <= CountLe(started, Pow2(i))
      ensures Quiescent(At(old(history))) ==>
                var earlier := AllSamples(ncpu, old(history), kind);
                && |earlier| <= total
                && (kind == SrttHist ==> Sum(earlier) <= estimatedSum)
                && ((forall i :: 0 <= i < |earlier| ==> earlier[i] <= Pow2(HIST_BUCKETS - 1)) ==>
                      Sum(earlier) <= estimatedSum)
                && forall i: nat :: i < HIST_BUCKETS - 1 ==> CountLe(earlier, Pow2(i)) <= cumulative[Pow2(i)]
    {
      n := TakeSnapshot();
      var counts := HistSeries(n, kind);
      SeriesNonNegative(cfg, ncpu, old(history), At(history), kind, counts);
      total, estimatedSum, cumulative := EmitLog2Histogram(counts);
      forall i | 0 <= i < HIST_BUCKETS ensures counts[i] <= Tally(AllSamples(ncpu, history, kind))[i] {
        SeriesAbove(cfg, ncpu, history, At(old(history)), kind, counts, i);
      }
      BelowTally(counts, AllSamples(ncpu, history, kind));
      if Quiescent(At(old(history))) {
        ghost var earlier := AllSamples(ncpu, old(history), kind);
        forall i | 0 <= i < HIST_BUCKETS ensures Tally(earlier)[i] <= counts[i] {
          SeriesBelow(cfg, ncpu, old(history), At(history), kind, counts, i);
        }
        AboveTally(counts, earlier);
        SrttSamplesInRange(ncpu, old(history));
      }
    }
  }
}
