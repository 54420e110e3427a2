/**
 The latest RTT and congestion window of each TCP flow, the slow-RTT and window-drop events derived
 from consecutive samples, and the retransmission count kept beside them.
 */
module TcpFlow {
  import opened Base
  import opened Config
  import opened Keys
  import Cooldown

  /** `nd_tcp_flow_value`. */
  datatype Value = Value(
    lastSeen: u64, lastRttEvent: u64, lastCwndEvent: u64, srttUs: u32, cwnd: u32, prevCwnd: u32, retransCount: nat
  )

  type Table = map<FlowKey, Value>

  datatype Op =
    | Sample(flow: FlowKey, srttUs: u32, cwnd: u32, now: u64)
    | Retransmit(flow: FlowKey, now: u64)
    | Evict(flow: FlowKey)

  /** The new value before event decisions: the previous window and event times are carried over. */
  function Carried(prev: Option<Value>, srttUs: u32, cwnd: u32, now: u64): Value {
    match prev
    case None => Value(now, 0, 0, srttUs, cwnd, 0, 0)
    case Some(v) => Value(now, v.lastRttEvent, v.lastCwndEvent, srttUs, cwnd, v.cwnd, v.retransCount)
  }

  predicate SlowRtt(cfg: Config, v: Value, now: u64) {
    v.srttUs >= cfg.slowTcpRttUs && CooldownOver(v.lastRttEvent, cfg.eventCooldownNs, now)
  }

  /** The product `prev * percent` on `__u64`. */
  function Scaled(prevCwnd: u32, percent: u64): u64 {
    prevCwnd * percent % U64_SIZE
  }

  predicate Dropped(cfg: Config, prevCwnd: u32, cwnd: u32) {
    prevCwnd > 0 && cwnd > 0 && cwnd * 100 <= Scaled(prevCwnd, cfg.cwndDropPercent)
  }

  predicate CwndDrop(cfg: Config, v: Value, now: u64) {
    Dropped(cfg, v.prevCwnd, v.cwnd) && CooldownOver(v.lastCwndEvent, cfg.eventCooldownNs, now)
  }

  function Stored(cfg: Config, prev: Option<Value>, srttUs: u32, cwnd: u32, now: u64): Value {
    var v := Carried(prev, srttUs, cwnd, now);
    v.(lastRttEvent := if SlowRtt(cfg, v, now) then now else v.lastRttEvent,
       lastCwndEvent := if CwndDrop(cfg, v, now) then now else v.lastCwndEvent)
  }

  function Next(cfg: Config, t: Table, op: Op): Table {
    match op
    case Sample(flow, srttUs, cwnd, now) => t[flow := Stored(cfg, Lookup(t, flow), srttUs, cwnd, now)]
    case Retransmit(flow, now) =>
      if flow in t then t[flow := t[flow].(retransCount := t[flow].retransCount + 1, lastSeen := now)] else t
    case Evict(flow) => t - {flow}
  }

  function Run(cfg: Config, ops: seq<Op>): Table {
    if ops == [] then map[] else Next(cfg, Run(cfg, ops[..|ops| - 1]), ops[|ops| - 1])
  }

  /** What a sample at position `i` decides upon. */
  function SampleAt(cfg: Config, ops: seq<Op>, i: nat): Value
    requires i < |ops| && ops[i].Sample?
  {
    Carried(Lookup(Run(cfg, ops[..i]), ops[i].flow), ops[i].srttUs, ops[i].cwnd, ops[i].now)
  }

  // ---------------------------------------------------------------- entries in terms of the history

  /** The samples of a flow since its entry was last evicted. */
  function Samples(ops: seq<Op>, flow: FlowKey): seq<Op> {
    if ops == [] then []
    else
      var n := |ops| - 1;
      if ops[n].flow != flow || ops[n].Retransmit? then Samples(ops[..n], flow)
      else if ops[n].Evict? then []
      else Samples(ops[..n], flow) + [ops[n]]
  }

  /** Retransmits of a flow while it had an entry. */
  function RetransSince(ops: seq<Op>, flow: FlowKey): nat {
    if ops == [] then 0
    else
      var n := |ops| - 1;
      if ops[n] == Evict(flow) then 0
      else RetransSince(ops[..n], flow)
           + if ops[n].Retransmit? && ops[n].flow == flow && Samples(ops[..n], flow) != [] then 1 else 0
  }

  /** When a flow was last sampled or retransmitted. */
  function LastTouch(ops: seq<Op>, flow: FlowKey): u64 {
    if ops == [] then 0
    else
      var n := |ops| - 1;
      if ops[n].flow == flow && !ops[n].Evict? then ops[n].now else LastTouch(ops[..n], flow)
  }

  /** An entry holds the two latest samples, the retransmits since it exists and the latest activity. */
  lemma {:induction false} EntryIsHistory(cfg: Config, ops: seq<Op>, flow: FlowKey)
    ensures flow in Run(cfg, ops) <==> Samples(ops, flow) != []
    ensures forall i :: 0 <= i < |Samples(ops, flow)| ==> Samples(ops, flow)[i].Sample?
    ensures Samples(ops, flow) == [] ==> RetransSince(ops, flow) == 0
    ensures flow in Run(cfg, ops) ==>
              var v, s := Run(cfg, ops)[flow], Samples(ops, flow);
              && v.srttUs == s[|s| - 1].srttUs && v.cwnd == s[|s| - 1].cwnd
              && v.prevCwnd == (if |s| > 1 then s[|s| - 2].cwnd else 0)
              && v.retransCount == RetransSince(ops, flow)
              && v.lastSeen == LastTouch(ops, flow)
  {
    if ops != [] {
      EntryIsHistory(cfg, ops[..|ops| - 1], flow);
    }
  }

  // ---------------------------------------------------------------- what a window drop means

  /** A drop to the configured percentage of the previous window, over unbounded integers. */
  predicate RealDrop(cfg: Config, prevCwnd: u32, cwnd: u32) {
    prevCwnd > 0 && cwnd > 0 && cwnd * 100 <= prevCwnd * cfg.cwndDropPercent
  }

  /** Every window-drop event is a real drop between the two latest samples, for any percentage. */
  lemma CwndDropSound(cfg: Config, ops: seq<Op>, i: nat)
    requires i < |ops| && ops[i].Sample? && CwndDrop(cfg, SampleAt(cfg, ops, i), ops[i].now)
    ensures var s := Samples(ops[..i], ops[i].flow);
            s != [] && s[|s| - 1].Sample? && RealDrop(cfg, s[|s| - 1].cwnd, ops[i].cwnd)
  {
    EntryIsHistory(cfg, ops[..i], ops[i].flow);
  }

  /**
   The 64-bit comparison agrees with the real one for every new window exactly when the product fits,
   or what is left of it after wrapping is beyond any window. Otherwise real drops are missed.
   */
  lemma DropsMeasuredExactly(cfg: Config, prevCwnd: u32)
    requires prevCwnd > 0
    ensures (forall cwnd: u32 :: Dropped(cfg, prevCwnd, cwnd) <==> RealDrop(cfg, prevCwnd, cwnd))
       <==> prevCwnd * cfg.cwndDropPercent < U64_SIZE || Scaled(prevCwnd, cfg.cwndDropPercent) >= 0xFFFF_FFFF * 100
  {
    var scaled := Scaled(prevCwnd, cfg.cwndDropPercent);
    if prevCwnd * cfg.cwndDropPercent >= U64_SIZE && scaled < 0xFFFF_FFFF * 100 {
      var missed: u32 := scaled / 100 + 1;
      assert RealDrop(cfg, prevCwnd, missed) && !Dropped(cfg, prevCwnd, missed);
    }
  }

  /** With the product at exactly 2^64 a collapse from 2^31 to one segment goes unreported. */
  lemma CollapseMayBeMissed(cfg: Config, flow: FlowKey, srttUs: u32, t: u64, now: u64)
    requires cfg.cwndDropPercent == 0x2_0000_0000
    ensures var ops := [Sample(flow, srttUs, 0x8000_0000, t), Sample(flow, srttUs, 1, now)];
            RealDrop(cfg, 0x8000_0000, 1) && !CwndDrop(cfg, SampleAt(cfg, ops, 1), now)
  {
    var first := Sample(flow, srttUs, 0x8000_0000, t);
    var ops := [first, Sample(flow, srttUs, 1, now)];
    assert ops[..1] == [first] && [first][..0] == [];
    assert flow in Run(cfg, [first]) && Run(cfg, [first])[flow].cwnd == 0x8000_0000;
  }

  // ---------------------------------------------------------------- the two cooldowns

  datatype Kind = SlowRttEvent | CwndDropEvent

  /** The condition an event reports, apart from its cooldown. */
  predicate Warrants(cfg: Config, v: Value, kind: Kind) {
    match kind
    case SlowRttEvent => v.srttUs >= cfg.slowTcpRttUs
    case CwndDropEvent => Dropped(cfg, v.prevCwnd, v.cwnd)
  }

  function EventTime(v: Value, kind: Kind): u64 {
    match kind
    case SlowRttEvent => v.lastRttEvent
    case CwndDropEvent => v.lastCwndEvent
  }

  /** Position `i` raises an event of the flow. */
  predicate EventAt(cfg: Config, ops: seq<Op>, i: int, flow: FlowKey, kind: Kind) {
    && 0 <= i < |ops| && ops[i].Sample? && ops[i].flow == flow
    && match kind
       case SlowRttEvent => SlowRtt(cfg, SampleAt(cfg, ops, i), ops[i].now)
       case CwndDropEvent => CwndDrop(cfg, SampleAt(cfg, ops, i), ops[i].now)
  }

  /** What an operation means to the cooldown of a flow and kind. */
  function MarkAt(cfg: Config, ops: seq<Op>, flow: FlowKey, kind: Kind): nat -> Cooldown.Mark {
    (i: nat) =>
      if i >= |ops| || ops[i].flow != flow || ops[i].Retransmit? then Cooldown.Skip
      else if ops[i].Evict? then Cooldown.Reset
      else if Warrants(cfg, SampleAt(cfg, ops, i), kind) then Cooldown.Try(ops[i].now)
      else Cooldown.Skip
  }

  /** The event time of a kind the entry of a flow holds before an operation. */
  function TimeBefore(cfg: Config, ops: seq<Op>, flow: FlowKey, kind: Kind): nat -> u64 {
    (i: nat) => if i <= |ops| && flow in Run(cfg, ops[..i]) then EventTime(Run(cfg, ops[..i])[flow], kind) else 0
  }

  function Marks(cfg: Config, ops: seq<Op>, flow: FlowKey, kind: Kind): seq<Cooldown.Mark> {
    Cooldown.Marks(|ops|, MarkAt(cfg, ops, flow, kind))
  }

  lemma TimeStep(cfg: Config, ops: seq<Op>, flow: FlowKey, kind: Kind, n: nat)
    requires n < |ops|
    ensures TimeBefore(cfg, ops, flow, kind)(n + 1)
         == Cooldown.After(cfg.eventCooldownNs, MarkAt(cfg, ops, flow, kind)(n), TimeBefore(cfg, ops, flow, kind)(n))
  {
    assert ops[..n + 1][..n] == ops[..n];
  }

  lemma EventIsGateEvent(cfg: Config, ops: seq<Op>, i: nat, flow: FlowKey, kind: Kind)
    requires i < |ops|
    ensures Cooldown.FiresAt(cfg.eventCooldownNs, Marks(cfg, ops, flow, kind), i) <==> EventAt(cfg, ops, i, flow, kind)
  {
    var at, time := MarkAt(cfg, ops, flow, kind), TimeBefore(cfg, ops, flow, kind);
    forall n: nat | n < |ops| ensures time(n + 1) == Cooldown.After(cfg.eventCooldownNs, at(n), time(n)) {
      TimeStep(cfg, ops, flow, kind, n);
    }
    Cooldown.EventOf(cfg.eventCooldownNs, |ops|, at, time, i);
  }

  /** Position `j` is the latest event of a flow and kind among the first `n` operations, not evicted since. */
  ghost predicate LatestEvent(cfg: Config, ops: seq<Op>, n: nat, flow: FlowKey, kind: Kind, j: int) {
    && 0 <= j < n <= |ops| && EventAt(cfg, ops, j, flow, kind)
    && forall x :: j < x < n ==> ops[x] != Evict(flow) && !EventAt(cfg, ops, x, flow, kind)
  }

  lemma LatestEventIsLatest(cfg: Config, ops: seq<Op>, n: nat, flow: FlowKey, kind: Kind, j: int)
    requires n <= |ops|
    ensures LatestEvent(cfg, ops, n, flow, kind, j)
       <==> Cooldown.Latest(cfg.eventCooldownNs, Marks(cfg, ops, flow, kind), n, j)
  {
    forall x: nat | x < n
      ensures Cooldown.FiresAt(cfg.eventCooldownNs, Marks(cfg, ops, flow, kind), x)
         <==> EventAt(cfg, ops, x, flow, kind)
      ensures Marks(cfg, ops, flow, kind)[x].Reset? <==> ops[x] == Evict(flow)
    {
      EventIsGateEvent(cfg, ops, x, flow, kind);
    }
  }

  /**
   When a slow RTT or a window drop is reported: after the deadline of the latest remembered event of
   its kind, or, with none remembered, once the machine has been up for longer than the cooldown.
   */
  lemma EventExactly(cfg: Config, ops: seq<Op>, i: nat, kind: Kind)
    requires i < |ops| && ops[i].Sample? && Warrants(cfg, SampleAt(cfg, ops, i), kind)
    ensures var flow := ops[i].flow;
            && (forall j :: LatestEvent(cfg, ops, i, flow, kind, j) ==>
                  (EventAt(cfg, ops, i, flow, kind) <==> ops[i].now > Add64(ops[j].now, cfg.eventCooldownNs)))
            && ((forall j :: !LatestEvent(cfg, ops, i, flow, kind, j)) ==>
                  (EventAt(cfg, ops, i, flow, kind) <==> ops[i].now > cfg.eventCooldownNs))
  {
    var flow := ops[i].flow;
    var marks := Marks(cfg, ops, flow, kind);
    EventIsGateEvent(cfg, ops, i, flow, kind);
    Cooldown.FiresExactly(cfg.eventCooldownNs, marks, i);
    forall j
      ensures LatestEvent(cfg, ops, i, flow, kind, j) <==> Cooldown.Latest(cfg.eventCooldownNs, marks, i, j)
    {
      LatestEventIsLatest(cfg, ops, i, flow, kind, j);
    }
  }

  ghost predicate Undisturbed(ops: seq<Op>, lo: nat, hi: nat, flow: FlowKey)
    requires lo <= hi <= |ops|
  {
    forall i :: lo <= i < hi ==> ops[i] != Evict(flow)
  }

  ghost predicate NoOverflow(cfg: Config, ops: seq<Op>) {
    forall i :: 0 <= i < |ops| && ops[i].Sample? ==> ops[i].now + cfg.eventCooldownNs < U64_SIZE
  }

  ghost predicate ClockMonotone(ops: seq<Op>) {
    forall i, j :: 0 <= i < j < |ops| && ops[i].Sample? && ops[j].Sample? ==> ops[i].now <= ops[j].now
  }

  /** Unless deadlines wrap and the clock runs backwards too, neither event precedes the end of the first cooldown. */
  lemma EventNeedsUptime(cfg: Config, ops: seq<Op>, i: nat, flow: FlowKey, kind: Kind)
    requires EventAt(cfg, ops, i, flow, kind) && (NoOverflow(cfg, ops) || ClockMonotone(ops))
    ensures ops[i].now > cfg.eventCooldownNs
  {
    EventIsGateEvent(cfg, ops, i, flow, kind);
    Cooldown.NeedsUptime(cfg.eventCooldownNs, Marks(cfg, ops, flow, kind), i);
  }

  /** Events of one flow and kind are more than the cooldown apart while its entry lives. */
  lemma EventsSpaced(cfg: Config, ops: seq<Op>, i: nat, j: nat, flow: FlowKey, kind: Kind)
    requires i < j < |ops| && EventAt(cfg, ops, i, flow, kind) && EventAt(cfg, ops, j, flow, kind)
    requires Undisturbed(ops, i, j, flow) && NoOverflow(cfg, ops)
    ensures ops[j].now > ops[i].now + cfg.eventCooldownNs
  {
    EventIsGateEvent(cfg, ops, i, flow, kind);
    EventIsGateEvent(cfg, ops, j, flow, kind);
    Cooldown.Spaced(cfg.eventCooldownNs, Marks(cfg, ops, flow, kind), i, j);
  }
}
