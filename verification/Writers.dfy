/**
 The writing side of a scrape. Handlers on many CPUs change per-CPU memory one cell at a time. A
 handler may be interrupted between two of its writes by another handler on the same CPU; the
 interrupting run completes first.
 */
module Writers {
  import opened Base
  import opened Config
  import opened Keys
  import opened Histogram
  import opened PerCpu

  // ---------------------------------------------------------------- the writers

  /** Per-CPU memory, and for each CPU the writes its handlers have started but not yet made. */
  datatype Sys = Sys(mems: seq<CpuMem>, todo: seq<seq<Write>>)

  datatype Step =
    | Launch(cpu: nat, hook: Hook)
    | Exec(cpu: nat)

  predicate Shaped(s: Sys) {
    |s.mems| == |s.todo|
  }

  function Boot(ncpu: nat): Sys {
    Sys(Blank(ncpu), seq(ncpu, _ => []))
  }

  function Next(cfg: Config, s: Sys, e: Step): (r: Sys)
    requires Shaped(s)
    ensures Shaped(r) && |r.mems| == |s.mems|
  {
    if e.cpu >= |s.mems| then s
    else
      match e
      case Launch(cpu, hook) => s.(todo := s.todo[cpu := WritesOf(cfg, hook) + s.todo[cpu]])
      case Exec(cpu) =>
        if s.todo[cpu] == [] then s
        else Sys(s.mems[cpu := Apply(s.mems[cpu], s.todo[cpu][0])], s.todo[cpu := s.todo[cpu][1..]])
  }

  function Run(cfg: Config, s: Sys, es: seq<Step>): (r: Sys)
    requires Shaped(s)
    ensures Shaped(r) && |r.mems| == |s.mems|
    decreases |es|
  {
    if es == [] then s else Run(cfg, Next(cfg, s, es[0]), es[1..])
  }

  lemma {:induction false} RunConcat(cfg: Config, s: Sys, a: seq<Step>, b: seq<Step>)
    requires Shaped(s)
    ensures Run(cfg, s, a + b) == Run(cfg, Run(cfg, s, a), b)
    decreases |a|
  {
    if a == [] {
      assert a + b == b;
    } else {
      assert (a + b)[0] == a[0] && (a + b)[1..] == a[1..] + b;
      RunConcat(cfg, Next(cfg, s, a[0]), a[1..], b);
    }
  }

  // ---------------------------------------------------------------- counters guarded by buckets

  /** A counter together with the bucket array its handler fills before bumping the counter. */
  datatype Guard = RttGuard | CwndGuard | LongFlowGuard | SlowGuard | RcodeGuard

  function CounterOf(g: Guard): Cell {
    match g
    case RttGuard => RttSampleTotal
    case CwndGuard => CwndSampleTotal
    case LongFlowGuard => LongFlowTotal
    case SlowGuard => SlowTotal
    case RcodeGuard => RcodeErrorTotal
  }

  function BucketOf(g: Guard, i: nat): Cell {
    match g
    case RttGuard => Srtt(i)
    case CwndGuard => Cwnd(i)
    case LongFlowGuard => UdpDuration(i)
    case SlowGuard => DnsLatency(i)
    case RcodeGuard => Rcode(i + 1)
  }

  /** 32 histogram buckets, or the 15 error codes. */
  function Width(g: Guard): nat {
    if g == RcodeGuard then DNS_RCODES - 1 else HIST_BUCKETS
  }

  function BucketIndex(g: Guard, c: Cell): Option<nat> {
    match (g, c)
    case (RttGuard, Srtt(b)) => if b < HIST_BUCKETS then Some(b) else None
    case (CwndGuard, Cwnd(b)) => if b < HIST_BUCKETS then Some(b) else None
    case (LongFlowGuard, UdpDuration(b)) => if b < HIST_BUCKETS then Some(b) else None
    case (SlowGuard, DnsLatency(b)) => if b < HIST_BUCKETS then Some(b) else None
    case (RcodeGuard, Rcode(r)) => if 1 <= r < DNS_RCODES then Some(r - 1) else None
    case _ => None
  }

  function BucketValues(m: CpuMem, g: Guard): seq<int> {
    seq(Width(g), i requires 0 <= i => Get(m, BucketOf(g, i)))
  }

  /** How far the buckets of one CPU are ahead of the counter. */
  function Lead(m: CpuMem, g: Guard): int {
    Sum(BucketValues(m, g)) - Get(m, CounterOf(g))
  }

  /** What a write does to the lead. */
  function Weight(g: Guard, w: Write): int {
    match w
    case Inc(c) => if BucketIndex(g, c).Some? then 1 else if c == CounterOf(g) then -1 else 0
    case AddDelta(_, _) => 0
  }

  function Net(g: Guard, ws: seq<Write>): int {
    if ws == [] then 0 else Weight(g, ws[0]) + Net(g, ws[1..])
  }

  /** Starting from `lead`, making the writes in order never lets the counter get ahead. */
  predicate Safe(g: Guard, lead: int, ws: seq<Write>)
    decreases |ws|
  {
    lead >= 0 && (ws != [] ==> Safe(g, lead + Weight(g, ws[0]), ws[1..]))
  }

  lemma BucketIndexOf(g: Guard, c: Cell, i: nat)
    requires i < Width(g)
    ensures BucketOf(g, i) == c <==> BucketIndex(g, c) == Some(i)
  {
  }

  lemma LeadAfter(m: CpuMem, w: Write, g: Guard)
    ensures Lead(Apply(m, w), g) == Lead(m, g) + Weight(g, w)
  {
    var s, t := BucketValues(m, g), BucketValues(Apply(m, w), g);
    forall i | 0 <= i < Width(g)
      ensures t[i] == s[i] + if w.Inc? && BucketIndex(g, w.cell) == Some(i) then 1 else 0
    {
      ApplyGet(m, w, BucketOf(g, i));
      if w.Inc? {
        BucketIndexOf(g, w.cell, i);
      }
    }
    ApplyGet(m, w, CounterOf(g));
    if w.Inc? && BucketIndex(g, w.cell).Some? {
      var i := BucketIndex(g, w.cell).value;
      assert t == s[i := s[i] + 1];
      SumUpdate(s, i, s[i] + 1);
    } else {
      assert t == s;
    }
  }

  lemma {:induction false} SafeConcat(g: Guard, lead: int, a: seq<Write>, b: seq<Write>)
    requires Safe(g, lead, a) && Safe(g, lead + Net(g, a), b)
    ensures Safe(g, lead, a + b) && Net(g, a + b) == Net(g, a) + Net(g, b)
    decreases |a|
  {
    if a == [] {
      assert a + b == b;
    } else {
      assert (a + b)[1..] == a[1..] + b;
      SafeConcat(g, lead + Weight(g, a[0]), a[1..], b);
    }
  }

  lemma {:induction false} SafeMonotone(g: Guard, lead: int, more: int, ws: seq<Write>)
    requires Safe(g, lead, ws) && lead <= more
    ensures Safe(g, more, ws)
    decreases |ws|
  {
    if ws != [] {
      SafeMonotone(g, lead + Weight(g, ws[0]), more + Weight(g, ws[0]), ws[1..]);
    }
  }

  /** A stretch of writes that may run from any lead; exact ones also leave the lead as it was. */
  predicate Balanced(g: Guard, ws: seq<Write>) {
    Safe(g, 0, ws) && Net(g, ws) >= 0 && (g != SlowGuard ==> Net(g, ws) == 0)
  }

  lemma BalancedConcat(g: Guard, a: seq<Write>, b: seq<Write>)
    requires Balanced(g, a) && Balanced(g, b)
    ensures Balanced(g, a + b)
  {
    SafeMonotone(g, 0, Net(g, a), b);
    SafeConcat(g, 0, a, b);
  }

  lemma OneBalanced(g: Guard, w: Write)
    requires Weight(g, w) == 0 || (g == SlowGuard && Weight(g, w) == 1)
    ensures Balanced(g, [w])
  {
    assert [w][1..] == [];
    assert Net(g, [w]) == Weight(g, w) + Net(g, []);
  }

  lemma SampledBalanced(g: Guard, bucket: Counter, counter: Counter)
    requires BucketIndex(g, bucket).Some? <==> counter == CounterOf(g)
    requires BucketIndex(g, counter).None? && bucket != CounterOf(g)
    ensures Balanced(g, [Inc(bucket), Inc(counter)])
  {
    var ws := [Inc(bucket), Inc(counter)];
    assert ws[1..] == [Inc(counter)] && ws[1..][1..] == [];
    assert Net(g, ws) == Weight(g, ws[0]) + Net(g, ws[1..]);
    assert Net(g, ws[1..]) == Weight(g, Inc(counter)) + Net(g, []);
  }

  lemma RcvEstablishedBalanced(srttUs: SrttUs, cwnd: u32, g: Guard)
    ensures Balanced(g, RcvEstablishedWrites(srttUs, cwnd))
  {
    var a, b := Srtt(Bucket(srttUs)), Cwnd(Bucket(cwnd));
    SampledBalanced(g, a, RttSampleTotal);
    SampledBalanced(g, b, CwndSampleTotal);
    BalancedConcat(g, When(srttUs > 0, [Inc(a), Inc(RttSampleTotal)]), When(cwnd > 0, [Inc(b), Inc(CwndSampleTotal)]));
  }

  lemma RetransmitBalanced(burst: bool, g: Guard)
    ensures Balanced(g, RetransmitWrites(burst))
  {
    OneBalanced(g, Inc(RetransTotal));
    OneBalanced(g, Inc(RetransBurstTotal));
    BalancedConcat(g, [Inc(RetransTotal)], When(burst, [Inc(RetransBurstTotal)]));
  }

  lemma LifecycleBalanced(cfg: Config, oldState: int, newState: int, durUs: Option<nat>, g: Guard)
    ensures Balanced(g, LifecycleWrites(cfg, oldState, newState, durUs))
  {
    OneBalanced(g, Inc(ClosedTotal));
    OneBalanced(g, Inc(ShortLivedTotal));
    OneBalanced(g, Inc(ConnectFailedTotal));
    if durUs.Some? {
      BalancedConcat(g, [Inc(ClosedTotal)], When(0 < durUs.value < cfg.shortTcpConnUs, [Inc(ShortLivedTotal)]));
    }
  }

  lemma SetStateBalanced(cfg: Config, oldState: int, newState: int, durUs: Option<nat>, g: Guard)
    ensures Balanced(g, SetStateWrites(cfg, oldState, newState, durUs))
  {
    var a, b := DeltaWrites(oldState, -1), DeltaWrites(newState, 1);
    var c := AttemptWrites(newState);
    OneBalanced(g, AddDelta(oldState, -1));
    OneBalanced(g, AddDelta(newState, 1));
    OneBalanced(g, Inc(ConnectAttemptTotal));
    LifecycleBalanced(cfg, oldState, newState, durUs, g);
    BalancedConcat(g, a, b);
    BalancedConcat(g, a + b, c);
    BalancedConcat(g, a + b + c, LifecycleWrites(cfg, oldState, newState, durUs));
  }

  lemma PacketBalanced(longUs: Option<nat>, g: Guard)
    ensures Balanced(g, PacketWrites(longUs))
  {
    OneBalanced(g, Inc(PacketTotal));
    if longUs.Some? {
      SampledBalanced(g, UdpDuration(Bucket(longUs.value)), LongFlowTotal);
      BalancedConcat(g, [Inc(PacketTotal)], [Inc(UdpDuration(Bucket(longUs.value))), Inc(LongFlowTotal)]);
    } else {
      assert PacketWrites(longUs) == [Inc(PacketTotal)];
    }
  }

  /** Since the effective threshold is at least one microsecond, a slow response has a bucket. */
  lemma LatencyBalanced(cfg: Config, latencyUs: Option<nat>, g: Guard)
    requires cfg.slowDnsUs >= 1
    ensures Balanced(g, LatencyWrites(cfg, latencyUs))
  {
    if latencyUs.Some? && latencyUs.value > 0 {
      var bucket := DnsLatency(Bucket(latencyUs.value));
      if latencyUs.value >= cfg.slowDnsUs {
        assert LatencyWrites(cfg, latencyUs) == [Inc(bucket), Inc(SlowTotal)];
        SampledBalanced(g, bucket, SlowTotal);
      } else {
        assert LatencyWrites(cfg, latencyUs) == [Inc(bucket)];
        OneBalanced(g, Inc(bucket));
      }
    }
  }

  /** Without that threshold a response within the same microsecond would be slow but unbucketed. */
  lemma SlowGuardNeedsThreshold(cfg: Config)
    ensures (forall latencyUs :: Balanced(SlowGuard, LatencyWrites(cfg, latencyUs))) <==> cfg.slowDnsUs >= 1
  {
    if cfg.slowDnsUs >= 1 {
      forall latencyUs ensures Balanced(SlowGuard, LatencyWrites(cfg, latencyUs)) {
        LatencyBalanced(cfg, latencyUs, SlowGuard);
      }
    } else {
      var ws := LatencyWrites(cfg, Some(0));
      assert ws == [Inc(SlowTotal)];
      assert Net(SlowGuard, ws) == Weight(SlowGuard, ws[0]) + Net(SlowGuard, []) by {
        assert ws[1..] == [];
      }
      assert !Balanced(SlowGuard, LatencyWrites(cfg, Some(0)));
    }
  }

  lemma ResponseBalanced(cfg: Config, rcode: nat, latencyUs: Option<nat>, g: Guard)
    requires AllSet(cfg)
    ensures Balanced(g, ResponseWrites(cfg, rcode, latencyUs))
  {
    var head := [Inc(ResponseTotal)];
    var code := RcodeWrites(rcode);
    assert Balanced(g, code) by {
      if 0 < rcode < DNS_RCODES {
        assert code == [Inc(Rcode(rcode)), Inc(RcodeErrorTotal)];
        SampledBalanced(g, Rcode(rcode), RcodeErrorTotal);
      } else if rcode == 0 {
        assert code == [Inc(Rcode(0))];
        OneBalanced(g, Inc(Rcode(0)));
      }
    }
    OneBalanced(g, Inc(ResponseTotal));
    LatencyBalanced(cfg, latencyUs, g);
    BalancedConcat(g, head, code);
    BalancedConcat(g, head + code, LatencyWrites(cfg, latencyUs));
  }

  lemma DatagramBalanced(cfg: Config, longUs: Option<nat>, dns: DnsPart, g: Guard)
    requires AllSet(cfg)
    ensures Balanced(g, PacketWrites(longUs) + DnsWrites(cfg, dns))
  {
    PacketBalanced(longUs, g);
    OneBalanced(g, Inc(QueryTotal));
    if dns.Response? {
      ResponseBalanced(cfg, dns.rcode, dns.latencyUs, g);
    }
    BalancedConcat(g, PacketWrites(longUs), DnsWrites(cfg, dns));
  }

  lemma SwitchBalanced(latencyUs: Option<nat>, g: Guard)
    ensures Balanced(g, SwitchWrites(latencyUs))
  {
    if latencyUs.Some? {
      OneBalanced(g, Inc(Runqlat(Bucket(latencyUs.value))));
    }
  }

  /** Every handler fills the bucket before it bumps the counter; only slow_total may be skipped. */
  lemma HandlerBalanced(cfg: Config, h: Hook, g: Guard)
    requires AllSet(cfg)
    ensures Balanced(g, WritesOf(cfg, h))
  {
    match h
    case RcvEstablished(srttUs, cwnd) => RcvEstablishedBalanced(srttUs, cwnd, g);
    case Retransmit(burst) => RetransmitBalanced(burst, g);
    case SetState(oldState, newState, durUs) => SetStateBalanced(cfg, oldState, newState, durUs, g);
    case Datagram(longUs, dns) => DatagramBalanced(cfg, longUs, dns, g);
    case Switch(latencyUs) => SwitchBalanced(latencyUs, g);
  }

  /** On every CPU no guarded counter is ahead of its buckets, now or while pending writes land. */
  ghost predicate Inv(s: Sys) {
    && Shaped(s)
    && (forall cpu, g :: 0 <= cpu < |s.mems| ==> Safe(g, Lead(s.mems[cpu], g), s.todo[cpu]))
    && (forall cpu, g :: 0 <= cpu < |s.mems| && g != SlowGuard ==> Lead(s.mems[cpu], g) + Net(g, s.todo[cpu]) == 0)
  }

  lemma BootInv(ncpu: nat)
    ensures Inv(Boot(ncpu))
  {
    forall cpu, g | 0 <= cpu < ncpu
      ensures Lead(Boot(ncpu).mems[cpu], g) == 0
    {
      SumZero(BucketValues(map[], g));
    }
  }

  lemma BalancedBefore(g: Guard, lead: int, added: seq<Write>, ws: seq<Write>)
    requires Balanced(g, added) && Safe(g, lead, ws)
    ensures Safe(g, lead, added + ws)
    ensures g != SlowGuard ==> Net(g, added + ws) == Net(g, ws)
  {
    SafeMonotone(g, 0, lead, added);
    SafeMonotone(g, lead, lead + Net(g, added), ws);
    SafeConcat(g, lead, added, ws);
  }

  lemma LaunchSafe(cfg: Config, h: Hook, g: Guard, lead: int, ws: seq<Write>)
    requires AllSet(cfg) && Safe(g, lead, ws)
    ensures Safe(g, lead, WritesOf(cfg, h) + ws)
    ensures g != SlowGuard ==> Net(g, WritesOf(cfg, h) + ws) == Net(g, ws)
  {
    HandlerBalanced(cfg, h, g);
    BalancedBefore(g, lead, WritesOf(cfg, h), ws);
  }

  lemma NextInv(cfg: Config, s: Sys, e: Step)
    requires AllSet(cfg) && Inv(s)
    ensures Inv(Next(cfg, s, e))
  {
    if e.cpu < |s.mems| {
      var r, m, ws := Next(cfg, s, e), s.mems[e.cpu], s.todo[e.cpu];
      forall g ensures Safe(g, Lead(r.mems[e.cpu], g), r.todo[e.cpu])
               ensures g != SlowGuard ==> Lead(r.mems[e.cpu], g) + Net(g, r.todo[e.cpu]) == 0
      {
        assert Safe(g, Lead(m, g), ws);
        if e.Launch? {
          LaunchSafe(cfg, e.hook, g, Lead(m, g), ws);
        } else if ws != [] {
          LeadAfter(m, ws[0], g);
        }
      }
    }
  }

  lemma {:induction false} RunInv(cfg: Config, s: Sys, es: seq<Step>)
    requires AllSet(cfg) && Inv(s)
    ensures Inv(Run(cfg, s, es))
    decreases |es|
  {
    if es != [] {
      NextInv(cfg, s, es[0]);
      RunInv(cfg, Next(cfg, s, es[0]), es[1..]);
    }
  }

  lemma ReachableInv(cfg: Config, ncpu: nat, es: seq<Step>)
    requires AllSet(cfg)
    ensures Inv(Run(cfg, Boot(ncpu), es))
  {
    BootInv(ncpu);
    RunInv(cfg, Boot(ncpu), es);
  }

  /** The cross-CPU totals of the buckets behind a guarded counter. */
  function BucketTotals(mems: seq<CpuMem>, g: Guard): seq<int> {
    seq(Width(g), i requires 0 <= i => Total(mems, BucketOf(g, i)))
  }

  lemma TotalSplit(mems: seq<CpuMem>, c: Cell)
    requires mems != []
    ensures var n := |mems| - 1; Total(mems, c) == Total(mems[..n], c) + Get(mems[n], c)
  {
    var n := |mems| - 1;
    assert Slots(mems, c)[..n] == Slots(mems[..n], c);
  }

  lemma {:induction false} LeadTotal(mems: seq<CpuMem>, g: Guard)
    requires forall cpu :: 0 <= cpu < |mems| ==> Lead(mems[cpu], g) >= 0
    ensures Total(mems, CounterOf(g)) <= Sum(BucketTotals(mems, g))
    ensures (forall cpu :: 0 <= cpu < |mems| ==> Lead(mems[cpu], g) == 0)
        ==> Total(mems, CounterOf(g)) == Sum(BucketTotals(mems, g))
  {
    if mems == [] {
      SumZero(BucketTotals(mems, g));
    } else {
      var n := |mems| - 1;
      LeadTotal(mems[..n], g);
      TotalSplit(mems, CounterOf(g));
      forall i | 0 <= i < Width(g)
        ensures BucketTotals(mems, g)[i] == BucketTotals(mems[..n], g)[i] + BucketValues(mems[n], g)[i]
      {
        TotalSplit(mems, BucketOf(g, i));
      }
      SumAdd(BucketTotals(mems[..n], g), BucketValues(mems[n], g), BucketTotals(mems, g));
      assert Lead(mems[n], g) >= 0;
    }
  }

  predicate Quiescent(s: Sys) {
    forall cpu :: 0 <= cpu < |s.todo| ==> s.todo[cpu] == []
  }

  /**
   In every reachable state, whatever is still pending, each guarded counter is covered by its
   buckets; with nothing pending four of the five are equal to them.
   */
  lemma GuardedAtAllTimes(cfg: Config, ncpu: nat, es: seq<Step>, g: Guard)
    requires AllSet(cfg)
    ensures var s := Run(cfg, Boot(ncpu), es);
            && Total(s.mems, CounterOf(g)) <= Sum(BucketTotals(s.mems, g))
            && (Quiescent(s) && g != SlowGuard ==> Total(s.mems, CounterOf(g)) == Sum(BucketTotals(s.mems, g)))
  {
    var s := Run(cfg, Boot(ncpu), es);
    ReachableInv(cfg, ncpu, es);
    forall cpu | 0 <= cpu < |s.mems| ensures Lead(s.mems[cpu], g) >= 0 {
      assert Safe(g, Lead(s.mems[cpu], g), s.todo[cpu]);
    }
    LeadTotal(s.mems, g);
    if Quiescent(s) && g != SlowGuard {
      forall cpu | 0 <= cpu < |s.mems| ensures Lead(s.mems[cpu], g) == 0 {
        assert Lead(s.mems[cpu], g) + Net(g, s.todo[cpu]) == 0;
      }
    }
  }
}
